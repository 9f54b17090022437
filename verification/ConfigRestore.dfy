/** Reading the whole configuration and writing it into an empty database. */
module ConfigRestore {
  import opened Tables
  import opened ConfigDb
  import opened ConfigConnector

  /** The entries of a table, each once, in some order. */
  ghost predicate ListsTable(entries: Entries, rows: map<string, Row>) {
    && (forall i, j | 0 <= i < j < |entries| :: entries[i].0 != entries[j].0)
    && (forall i | 0 <= i < |entries| :: entries[i].0 in rows && entries[i].1 == rows[entries[i].0])
    && (forall r | r in rows :: exists i :: 0 <= i < |entries| && entries[i].0 == r)
  }

  /** The tables of a configuration, each once, in some order. */
  ghost predicate Lists(config: Config, data: Nested) {
    && (forall i, j | 0 <= i < j < |config| :: config[i].0 != config[j].0)
    && (forall i | 0 <= i < |config| :: config[i].0 in data && ListsTable(config[i].1, data[config[i].0]))
    && (forall t | t in data :: exists i :: 0 <= i < |config| && config[i].0 == t)
  }

  /** Keys that name a table, in upper case. */
  ghost predicate Restorable(db: Db, sep: char) {
    forall k | k in db :: sep in k && Upper(TableOf(k, sep)) == TableOf(k, sep)
  }

  // ---------- The one operation on a key ----------

  lemma {:induction false} EntryOpsNone(prefix: string, entries: Entries, k: string)
    requires forall i | 0 <= i < |entries| :: prefix + entries[i].0 != k
    ensures EntryOps(prefix, entries, k) == []
    decreases |entries|
  {
    if entries != [] {
      assert forall i | 0 <= i < |entries[1..]| :: entries[1..][i] == entries[i + 1];
      EntryOpsNone(prefix, entries[1..], k);
    }
  }

  lemma {:induction false} EntryOpsOne(prefix: string, entries: Entries, n: nat)
    requires n < |entries| && forall i, j | 0 <= i < j < |entries| :: entries[i].0 != entries[j].0
    ensures EntryOps(prefix, entries, prefix + entries[n].0) == [EntryOp(entries[n].1)]
    decreases |entries|
  {
    var rest, k := entries[1..], prefix + entries[n].0;
    assert forall i | 0 <= i < |rest| :: rest[i] == entries[i + 1];
    forall i | 0 <= i < |entries| && i != n
      ensures prefix + entries[i].0 != k
    {
      assert (prefix + entries[i].0)[|prefix|..] == entries[i].0 && k[|prefix|..] == entries[n].0;
    }
    if n == 0 {
      EntryOpsNone(prefix, rest, k);
    } else {
      EntryOpsOne(prefix, rest, n - 1);
    }
  }

  /** Only the table a key names acts on it. */
  lemma {:induction false} KeyOpsOne(sep: char, config: Config, n: nat, k: string)
    requires n < |config| && DistinctTables(config, sep) && Prefix(config[n].0, sep) <= k
    ensures KeyOps(sep, config, k) == TableOps(sep, config[n].0, config[n].1, k)
    decreases |config|
  {
    var rest := config[1..];
    assert forall i | 0 <= i < |rest| :: rest[i] == config[i + 1];
    if n == 0 {
      NoOpsElsewhere(sep, rest, k, Upper(config[0].0));
    } else {
      var (table, entries) := config[0];
      if Prefix(table, sep) <= k {
        PrefixUnique(Upper(table), Upper(config[n].0), sep, k);
      }
      EntryOpsElsewhere(Prefix(table, sep), entries, k);
      KeyOpsOne(sep, rest, n - 1, k);
    }
  }

  lemma {:induction false} KeyOpsNone(sep: char, config: Config, k: string)
    requires forall i | 0 <= i < |config| :: !(Prefix(config[i].0, sep) <= k)
    ensures KeyOps(sep, config, k) == []
    decreases |config|
  {
    if config != [] {
      EntryOpsElsewhere(Prefix(config[0].0, sep), config[0].1, k);
      assert forall i | 0 <= i < |config[1..]| :: config[1..][i] == config[i + 1];
      KeyOpsNone(sep, config[1..], k);
    }
  }

  // ---------- Upper case ----------

  lemma {:induction false} UpperTwice(s: string)
    ensures Upper(Upper(s)) == Upper(s)
    decreases |s|
  {
    if s != "" {
      UpperTwice(s[1..]);
      assert Upper(s)[1..] == Upper(s[1..]);
    }
  }

  lemma {:induction false} UpperWithout(s: string, sep: char)
    requires sep !in s && !('A' <= sep <= 'Z')
    ensures sep !in Upper(s)
    decreases |s|
  {
    if s != "" {
      assert s == [s[0]] + s[1..];
      UpperWithout(s[1..], sep);
    }
  }

  // ---------- The round trip ----------

  /** The listed names have no separator, and if the database is restorable they are upper case. */
  lemma ListedNames(db: Db, sep: char, config: Config)
    requires Lists(config, ConfigOf(db, sep))
    ensures forall i | 0 <= i < |config| :: sep !in config[i].0 && config[i].1 != []
    ensures Restorable(db, sep) ==> forall i | 0 <= i < |config| :: Upper(config[i].0) == config[i].0
  {
    hide ConfigOf;
    forall i | 0 <= i < |config|
      ensures sep !in config[i].0 && config[i].1 != []
      ensures Restorable(db, sep) ==> Upper(config[i].0) == config[i].0
    {
      var table := config[i].0;
      ConfigEntry(db, sep, table, "");
      var row :| row in ConfigOf(db, sep)[table];
      ConfigEntry(db, sep, table, row);
      KeyWhole(table, row, sep);
    }
  }

  lemma RestoredDistinct(db: Db, sep: char, config: Config)
    requires Lists(config, ConfigOf(db, sep)) && Restorable(db, sep)
    ensures DistinctTables(config, sep)
  {
    ListedNames(db, sep, config);
    hide Upper;
  }

  /** The rows of one table of the database. */
  ghost predicate RowsOf(db: Db, prefix: string, rows: map<string, Row>) {
    forall r :: (r in rows <==> prefix + r in db) && (r in rows ==> rows[r] == Lookup(db, prefix + r))
  }

  lemma ConfigRows(db: Db, sep: char, table: string)
    requires sep !in table && table in ConfigOf(db, sep)
    ensures RowsOf(db, table + [sep], ConfigOf(db, sep)[table])
  {
    hide ConfigOf;
    forall r
      ensures var rows := ConfigOf(db, sep)[table];
              (r in rows <==> table + [sep] + r in db) && (r in rows ==> rows[r] == Lookup(db, table + [sep] + r))
    {
      ConfigEntry(db, sep, table, r);
    }
  }

  /** The listed table writes a key's row once, if the key is in the database. */
  lemma RestoredRow(db: Db, prefix: string, entries: Entries, rows: map<string, Row>, row: string)
    requires WellFormed(db) && RowsOf(db, prefix, rows) && ListsTable(entries, rows)
    ensures RowAfter(map[], EntryOps(prefix, entries, prefix + row), true) == Lookup(db, prefix + row)
  {
    hide EntryOps, RowAfter;
    if row in rows {
      var i :| 0 <= i < |entries| && entries[i].0 == row;
      EntryOpsOne(prefix, entries, i);
      RowAfterOne(map[], EntryOp(entries[i].1), true);
      assert map[] + rows[row] == rows[row];
    } else {
      forall i | 0 <= i < |entries|
        ensures prefix + entries[i].0 != prefix + row
      {
        assert (prefix + entries[i].0)[|prefix|..] == entries[i].0 && (prefix + row)[|prefix|..] == row;
      }
      EntryOpsNone(prefix, entries, prefix + row);
      RowAfterOne(map[], Erase, true);
    }
  }

  lemma ListedTable(db: Db, sep: char, config: Config, k: string) returns (n: nat)
    requires Lists(config, ConfigOf(db, sep)) && k in db && sep in k
    ensures n < |config| && config[n].0 + [sep] <= k
  {
    hide ConfigOf, Position, TableOf, RowOf;
    KeyParts(k, sep);
    ConfigEntry(db, sep, TableOf(k, sep), RowOf(k, sep));
    n :| 0 <= n < |config| && config[n].0 == TableOf(k, sep);
  }

  lemma RestoredIn(db: Db, sep: char, config: Config, n: nat, row: string)
    requires WellFormed(db) && Lists(config, ConfigOf(db, sep)) && DistinctTables(config, sep) && n < |config|
    requires sep !in config[n].0 && config[n].1 != [] && Upper(config[n].0) == config[n].0
    ensures var k := config[n].0 + [sep] + row;
            RowAfter(map[], KeyOps(sep, config, k), true) == Lookup(db, k)
  {
    hide ConfigOf, Upper, KeyOps, EntryOps, RowAfter, ListsTable, DistinctTables, WellFormed;
    var (table, entries) := config[n];
    var k := table + [sep] + row;
    assert table + [sep] <= k;
    KeyOpsOne(sep, config, n, k);
    ConfigRows(db, sep, table);
    RestoredRow(db, table + [sep], entries, ConfigOf(db, sep)[table], row);
  }

  lemma RestoredKey(db: Db, sep: char, config: Config, k: string)
    requires WellFormed(db) && Lists(config, ConfigOf(db, sep)) && Restorable(db, sep)
    ensures RowAfter(map[], KeyOps(sep, config, k), true) == Lookup(db, k)
  {
    ListedNames(db, sep, config);
    RestoredDistinct(db, sep, config);
    if n :| 0 <= n < |config| && config[n].0 + [sep] <= k {
      hide *;
      var row := k[|config[n].0| + 1..];
      assert k == config[n].0 + [sep] + row;
      RestoredIn(db, sep, config, n, row);
    } else {
      assert forall i | 0 <= i < |config| :: !(Prefix(config[i].0, sep) <= k);
      Unlisted(db, sep, config, k);
      hide *;
      KeyOpsNone(sep, config, k);
      RowAfterOne(map[], Erase, true);
    }
  }

  lemma Unlisted(db: Db, sep: char, config: Config, k: string)
    requires Lists(config, ConfigOf(db, sep)) && Restorable(db, sep)
    requires forall n | 0 <= n < |config| :: !(config[n].0 + [sep] <= k)
    ensures k !in db && Lookup(db, k) == map[]
  {
    hide ConfigOf, Lists, TableOf, Upper;
    if k in db {
      var n := ListedTable(db, sep, config, k);
    }
  }

  /** Writing back what was read gives the same database if and only if every key names a table and
      every table name is in upper case. */
  lemma RestoreExact(db: Db, sep: char, config: Config)
    requires WellFormed(db) && Lists(config, ConfigOf(db, sep)) && !('A' <= sep <= 'Z')
    ensures ModConfig(map[], sep, config) == db <==> Restorable(db, sep)
  {
    var restored := ModConfig(map[], sep, config);
    ModConfigAt(map[], sep, config, "");
    hide ConfigOf, ModConfig, KeyOps, RowAfter, Lists, Upper;
    if Restorable(db, sep) {
      forall k
        ensures Lookup(restored, k) == Lookup(db, k)
      {
        ModConfigAt(map[], sep, config, k);
        RestoredKey(db, sep, config, k);
      }
      SameLookups(restored, db);
    }
    if restored == db {
      ListedNames(db, sep, config);
      forall k | k in db
        ensures sep in k && Upper(TableOf(k, sep)) == TableOf(k, sep)
      {
        WrittenKey(sep, config, k);
      }
    }
  }

  lemma ActingTable(sep: char, config: Config, k: string) returns (n: nat)
    requires KeyOps(sep, config, k) != []
    ensures n < |config| && Prefix(config[n].0, sep) <= k
  {
    hide KeyOps;
    if forall i | 0 <= i < |config| :: !(Prefix(config[i].0, sep) <= k) {
      KeyOpsNone(sep, config, k);
    }
    n :| 0 <= n < |config| && Prefix(config[n].0, sep) <= k;
  }

  lemma UpperTable(table: string, sep: char, k: string)
    requires sep !in table && !('A' <= sep <= 'Z') && Prefix(table, sep) <= k
    ensures sep in k && Upper(TableOf(k, sep)) == TableOf(k, sep)
  {
    hide Upper, TableOf;
    var name := Upper(table);
    UpperWithout(table, sep);
    UpperTwice(table);
    assert k == name + [sep] + k[|name| + 1..];
    KeyWhole(name, k[|name| + 1..], sep);
  }

  /** What mod_config writes is named after a table in upper case. */
  lemma WrittenKey(sep: char, config: Config, k: string)
    requires !('A' <= sep <= 'Z') && forall i | 0 <= i < |config| :: sep !in config[i].0
    ensures Lookup(ModConfig(map[], sep, config), k) != map[] ==> sep in k && Upper(TableOf(k, sep)) == TableOf(k, sep)
  {
    ModConfigAt(map[], sep, config, k);
    RowAfterOne(map[], Erase, true);
    hide ModConfig, KeyOps, RowAfter, Upper, TableOf;
    if KeyOps(sep, config, k) != [] {
      var n := ActingTable(sep, config, k);
      UpperTable(config[n].0, sep, k);
    }
  }
}
