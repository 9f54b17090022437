/** Writing and reading the configuration database: one command at a time, or collected in a
    transaction and read in batches. */
module ConfigDb {
  import opened Tables

  // ---------- Names ----------

  function UpperChar(c: char): char {
    if 'a' <= c <= 'z' then (c as int - 32) as char else c
  }

  function Upper(s: string): string {
    if s == "" then "" else [UpperChar(s[0])] + Upper(s[1..])
  }

  /** What every key of a table starts with. */
  function Prefix(table: string, sep: char): string { Upper(table) + [sep] }

  function Hash(table: string, sep: char, key: string): string { Prefix(table, sep) + key }

  // ---------- Modifying: one command at a time ----------

  /** One table of the configuration, in the order of its keys; no entries means: empty it. */
  type Entries = seq<(string, Row)>
  type Config = seq<(string, Entries)>

  /** mod_entry */
  function ModEntry(db: Db, hash: string, row: Row): Db {
    if row == map[] then Del(db, hash) else PutRow(db, hash, Lookup(db, hash) + row)
  }

  /** delete_table: every key that matches the pattern, at that moment. */
  function DeleteTable(db: Db, prefix: string): Db {
    map k | k in db && !(prefix <= k) :: db[k]
  }

  function ModEntries(db: Db, prefix: string, entries: Entries): Db
    decreases |entries|
  {
    if entries == [] then db else ModEntries(ModEntry(db, prefix + entries[0].0, entries[0].1), prefix, entries[1..])
  }

  function ModTable(db: Db, sep: char, table: string, entries: Entries): Db {
    if entries == [] then DeleteTable(db, Prefix(table, sep)) else ModEntries(db, Prefix(table, sep), entries)
  }

  /** mod_config, sequential */
  function ModConfig(db: Db, sep: char, config: Config): Db
    decreases |config|
  {
    if config == [] then db else ModConfig(ModTable(db, sep, config[0].0, config[0].1), sep, config[1..])
  }

  // ---------- Modifying: one transaction ----------

  datatype Command = DEL(key: string) | HSET(key: string, row: Row) | HDEL(key: string, field: string) | HGETALL(key: string)

  function Execute(db: Db, c: Command): Db {
    match c
    case DEL(key) => Del(db, key)
    case HSET(key, row) => PutRow(db, key, Lookup(db, key) + row)
    case HDEL(key, field) => HDel(db, key, field)
    case HGETALL(_) => db
  }

  function ExecuteAll(db: Db, commands: seq<Command>): Db
    decreases |commands|
  {
    if commands == [] then db else ExecuteAll(Execute(db, commands[0]), commands[1..])
  }

  /** The answers of SCAN: batch after batch, per pattern. */
  type Scan = string -> seq<seq<string>>

  function Flatten(batches: seq<seq<string>>): seq<string> {
    if batches == [] then [] else batches[0] + Flatten(batches[1..])
  }

  /** On an unchanging database SCAN returns each matching key at least once and nothing else. */
  ghost predicate Complete(db: Db, scan: Scan) {
    forall prefix, k :: k in Flatten(scan(prefix)) <==> k in db && prefix <= k
  }

  function Deletes(keys: seq<string>): seq<Command> {
    if keys == [] then [] else [DEL(keys[0])] + Deletes(keys[1..])
  }

  /** _mod_entry */
  function EntryCommand(hash: string, row: Row): Command {
    if row == map[] then DEL(hash) else HSET(hash, row)
  }

  function EntryCommands(prefix: string, entries: Entries): seq<Command> {
    if entries == [] then []
    else [EntryCommand(prefix + entries[0].0, entries[0].1)] + EntryCommands(prefix, entries[1..])
  }

  function TableCommands(scan: Scan, sep: char, table: string, entries: Entries): seq<Command> {
    if entries == [] then Deletes(Flatten(scan(Prefix(table, sep)))) else EntryCommands(Prefix(table, sep), entries)
  }

  /** The transaction of the pipelined mod_config: SCAN sees the database before it. */
  function ConfigCommands(scan: Scan, sep: char, config: Config): seq<Command>
    decreases |config|
  {
    if config == [] then []
    else TableCommands(scan, sep, config[0].0, config[0].1) + ConfigCommands(scan, sep, config[1..])
  }

  // ---------- What happens to one key ----------

  /** A write, a deletion of the key, or its table being emptied. */
  datatype KeyOp = Write(row: Row) | Erase | Empty

  function EntryOp(row: Row): KeyOp { if row == map[] then Erase else Write(row) }

  function EntryOps(prefix: string, entries: Entries, k: string): seq<KeyOp>
    decreases |entries|
  {
    if entries == [] then []
    else (if prefix + entries[0].0 == k then [EntryOp(entries[0].1)] else []) + EntryOps(prefix, entries[1..], k)
  }

  function TableOps(sep: char, table: string, entries: Entries, k: string): seq<KeyOp> {
    if entries == [] then (if Prefix(table, sep) <= k then [Empty] else [])
    else EntryOps(Prefix(table, sep), entries, k)
  }

  function KeyOps(sep: char, config: Config, k: string): seq<KeyOp>
    decreases |config|
  {
    if config == [] then []
    else TableOps(sep, config[0].0, config[0].1, k) + KeyOps(sep, config[1..], k)
  }

  /** The row after the operations; `emptying` says whether emptying its table reaches the key. */
  function RowAfter(row: Row, ops: seq<KeyOp>, emptying: bool): Row
    decreases |ops|
  {
    if ops == [] then row else RowAfter(RowStep(row, ops[0], emptying), ops[1..], emptying)
  }

  function RowStep(row: Row, op: KeyOp, emptying: bool): Row {
    match op
    case Write(fields) => row + fields
    case Erase => map[]
    case Empty => if emptying then map[] else row
  }

  lemma {:induction false} RowAfterConcat(row: Row, a: seq<KeyOp>, b: seq<KeyOp>, emptying: bool)
    ensures RowAfter(row, a + b, emptying) == RowAfter(RowAfter(row, a, emptying), b, emptying)
    decreases |a|
  {
    hide RowStep;
    if a == [] {
      assert a + b == b;
    } else {
      assert (a + b)[1..] == a[1..] + b;
      RowAfterConcat(RowStep(row, a[0], emptying), a[1..], b, emptying);
    }
  }

  lemma RowAfterOne(row: Row, op: KeyOp, emptying: bool)
    ensures RowAfter(row, [op], emptying) == RowStep(row, op, emptying)
    ensures RowAfter(row, [], emptying) == row
  {
    assert [op][1..] == [];
  }

  /** Fields written before the table was emptied and neither written nor erased since. */
  function Stale(row: Row, ops: seq<KeyOp>): set<string>
    decreases |ops|
  {
    if ops == [] then {}
    else
      var n := |ops| - 1;
      match ops[n]
      case Write(fields) => Stale(row, ops[..n]) - fields.Keys
      case Erase => {}
      case Empty => RowAfter(row, ops[..n], false).Keys
  }

  /** Emptying that does not reach the key leaves exactly the stale fields behind. */
  lemma {:induction false} StaleFields(ops: seq<KeyOp>)
    ensures RowAfter(map[], ops, true) == RowAfter(map[], ops, false) - Stale(map[], ops)
    ensures Stale(map[], ops) <= RowAfter(map[], ops, false).Keys
    decreases |ops|
  {
    if ops != [] {
      var n := |ops| - 1;
      var before, op := ops[..n], ops[n];
      StaleFields(before);
      assert ops == before + [op];
      RowAfterConcat(map[], before, [op], true);
      RowAfterConcat(map[], before, [op], false);
      RowAfterOne(RowAfter(map[], before, true), op, true);
      RowAfterOne(RowAfter(map[], before, false), op, false);
    }
  }

  // ---------- The sequential form, key by key ----------

  lemma ModEntryAt(db: Db, hash: string, row: Row, k: string, emptying: bool)
    ensures Lookup(ModEntry(db, hash, row), k)
            == if hash == k then RowStep(Lookup(db, k), EntryOp(row), emptying) else Lookup(db, k)
    ensures WellFormed(db) ==> WellFormed(ModEntry(db, hash, row))
  {
  }

  lemma {:induction false} ModEntriesAt(db: Db, prefix: string, entries: Entries, k: string, emptying: bool)
    ensures Lookup(ModEntries(db, prefix, entries), k) == RowAfter(Lookup(db, k), EntryOps(prefix, entries, k), emptying)
    ensures WellFormed(db) ==> WellFormed(ModEntries(db, prefix, entries))
    decreases |entries|
  {
    RowAfterOne(Lookup(db, k), Erase, emptying);
    if entries != [] {
      hide ModEntry, RowAfter, RowStep, EntryOp, Lookup, WellFormed;
      var hash, row := prefix + entries[0].0, entries[0].1;
      ModEntryAt(db, hash, row, k, emptying);
      ModEntriesAt(ModEntry(db, hash, row), prefix, entries[1..], k, emptying);
      RowAfterOne(Lookup(db, k), EntryOp(row), emptying);
      RowAfterConcat(Lookup(db, k), if hash == k then [EntryOp(row)] else [], EntryOps(prefix, entries[1..], k), emptying);
    }
  }

  lemma ModTableAt(db: Db, sep: char, table: string, entries: Entries, k: string)
    ensures Lookup(ModTable(db, sep, table, entries), k)
            == RowAfter(Lookup(db, k), TableOps(sep, table, entries, k), true)
    ensures WellFormed(db) ==> WellFormed(ModTable(db, sep, table, entries))
  {
    if entries == [] {
      hide RowAfter;
      RowAfterOne(Lookup(db, k), Empty, true);
    } else {
      hide ModEntries, EntryOps, RowAfter, Lookup, WellFormed;
      ModEntriesAt(db, Prefix(table, sep), entries, k, true);
    }
  }

  lemma {:induction false} ModConfigAt(db: Db, sep: char, config: Config, k: string)
    ensures Lookup(ModConfig(db, sep, config), k) == RowAfter(Lookup(db, k), KeyOps(sep, config, k), true)
    ensures WellFormed(db) ==> WellFormed(ModConfig(db, sep, config))
    decreases |config|
  {
    hide ModTable, TableOps, RowAfter, Lookup, WellFormed;
    if config == [] {
      RowAfterOne(Lookup(db, k), Erase, true);
    } else {
      var (table, entries) := config[0];
      ModTableAt(db, sep, table, entries, k);
      ModConfigAt(ModTable(db, sep, table, entries), sep, config[1..], k);
      RowAfterConcat(Lookup(db, k), TableOps(sep, table, entries, k), KeyOps(sep, config[1..], k), true);
    }
  }

  // ---------- The transaction, key by key ----------

  lemma {:induction false} ExecuteConcat(db: Db, a: seq<Command>, b: seq<Command>)
    ensures ExecuteAll(db, a + b) == ExecuteAll(ExecuteAll(db, a), b)
    decreases |a|
  {
    hide Execute;
    if a == [] {
      assert a + b == b;
    } else {
      assert (a + b)[1..] == a[1..] + b;
      ExecuteConcat(Execute(db, a[0]), a[1..], b);
    }
  }

  lemma {:induction false} DeletesAt(db: Db, keys: seq<string>, k: string)
    ensures Lookup(ExecuteAll(db, Deletes(keys)), k) == if k in keys then map[] else Lookup(db, k)
    ensures WellFormed(db) ==> WellFormed(ExecuteAll(db, Deletes(keys)))
    decreases |keys|
  {
    if keys != [] {
      assert keys == [keys[0]] + keys[1..];
      assert Deletes(keys)[1..] == Deletes(keys[1..]);
      DeletesAt(Del(db, keys[0]), keys[1..], k);
    }
  }

  /** Queued, an entry does what it does alone. */
  lemma {:induction false} EntryCommandsRun(db: Db, prefix: string, entries: Entries)
    ensures ExecuteAll(db, EntryCommands(prefix, entries)) == ModEntries(db, prefix, entries)
    decreases |entries|
  {
    if entries != [] {
      var hash, row := prefix + entries[0].0, entries[0].1;
      var c, rest := EntryCommand(hash, row), EntryCommands(prefix, entries[1..]);
      assert Execute(db, c) == ModEntry(db, hash, row);
      assert ([c] + rest)[1..] == rest;
      hide Execute, ModEntry, EntryCommand;
      EntryCommandsRun(ModEntry(db, hash, row), prefix, entries[1..]);
    }
  }

  /** Emptying a table in the transaction reaches the keys that SCAN saw: those there before. */
  lemma TableCommandsAt(db: Db, before: Db, scan: Scan, sep: char, table: string, entries: Entries, k: string)
    requires Complete(before, scan)
    ensures Lookup(ExecuteAll(db, TableCommands(scan, sep, table, entries)), k)
            == RowAfter(Lookup(db, k), TableOps(sep, table, entries, k), k in before)
    ensures WellFormed(db) ==> WellFormed(ExecuteAll(db, TableCommands(scan, sep, table, entries)))
  {
    hide ExecuteAll, RowAfter, Lookup, WellFormed, EntryOps, Deletes, Flatten;
    var prefix := Prefix(table, sep);
    if entries == [] {
      var keys := Flatten(scan(prefix));
      DeletesAt(db, keys, k);
      RowAfterOne(Lookup(db, k), Empty, k in before);
      assert k in keys <==> k in before && prefix <= k;
    } else {
      EntryCommandsRun(db, prefix, entries);
      ModEntriesAt(db, prefix, entries, k, k in before);
    }
  }

  lemma {:induction false} ConfigCommandsAt(db: Db, before: Db, scan: Scan, sep: char, config: Config, k: string)
    requires Complete(before, scan)
    ensures Lookup(ExecuteAll(db, ConfigCommands(scan, sep, config)), k)
            == RowAfter(Lookup(db, k), KeyOps(sep, config, k), k in before)
    ensures WellFormed(db) ==> WellFormed(ExecuteAll(db, ConfigCommands(scan, sep, config)))
    decreases |config|
  {
    if config == [] {
      RowAfterOne(Lookup(db, k), Erase, k in before);
    } else {
      hide ExecuteAll, RowAfter, Lookup, WellFormed, TableCommands, TableOps, Complete;
      var (table, entries) := config[0];
      var first, rest := TableCommands(scan, sep, table, entries), ConfigCommands(scan, sep, config[1..]);
      ExecuteConcat(db, first, rest);
      TableCommandsAt(db, before, scan, sep, table, entries, k);
      ConfigCommandsAt(ExecuteAll(db, first), before, scan, sep, config[1..], k);
      RowAfterConcat(Lookup(db, k), TableOps(sep, table, entries, k), KeyOps(sep, config[1..], k), k in before);
    }
  }

  // ---------- When the two agree ----------

  lemma KeyAgrees(ops: seq<KeyOp>)
    ensures RowAfter(map[], ops, false) == RowAfter(map[], ops, true) <==> Stale(map[], ops) == {}
  {
    hide RowAfter, Stale;
    StaleFields(ops);
    var row, stale := RowAfter(map[], ops, false), Stale(map[], ops);
    if stale == {} {
      assert row - stale == row;
    } else {
      var f :| f in stale;
      assert f in row && f !in row - stale;
    }
  }

  /** A key in the database ends alike; any other exactly when nothing stale is left. */
  lemma ModConfigKey(db: Db, scan: Scan, sep: char, config: Config, k: string)
    requires Complete(db, scan)
    ensures Lookup(ExecuteAll(db, ConfigCommands(scan, sep, config)), k) == Lookup(ModConfig(db, sep, config), k)
            <==> k in db || Stale(map[], KeyOps(sep, config, k)) == {}
  {
    ConfigCommandsAt(db, db, scan, sep, config, k);
    ModConfigAt(db, sep, config, k);
    hide ExecuteAll, ModConfig, ConfigCommands, KeyOps, RowAfter, Stale, Complete;
    KeyAgrees(KeyOps(sep, config, k));
  }

  /** The transaction ends in the sequential form's database if and only if no key outside the
      database keeps a field written before its table was emptied. */
  lemma ModConfigExact(db: Db, scan: Scan, sep: char, config: Config)
    requires WellFormed(db) && Complete(db, scan)
    ensures ExecuteAll(db, ConfigCommands(scan, sep, config)) == ModConfig(db, sep, config)
            <==> forall k | k !in db :: Stale(map[], KeyOps(sep, config, k)) == {}
  {
    var piped, direct := ExecuteAll(db, ConfigCommands(scan, sep, config)), ModConfig(db, sep, config);
    ConfigCommandsAt(db, db, scan, sep, config, "");
    ModConfigAt(db, sep, config, "");
    hide ExecuteAll, ModConfig, ConfigCommands, KeyOps, RowAfter, Stale, Complete, WellFormed, Lookup;
    forall k
      ensures Lookup(piped, k) == Lookup(direct, k) <==> k in db || Stale(map[], KeyOps(sep, config, k)) == {}
    {
      ModConfigKey(db, scan, sep, config, k);
    }
    if forall k | k !in db :: Stale(map[], KeyOps(sep, config, k)) == {} {
      SameLookups(piped, direct);
    }
  }

  // ---------- Distinct table names ----------

  /** Names free of the separator and distinct after upper-casing. */
  ghost predicate DistinctTables(config: Config, sep: char) {
    && (forall i | 0 <= i < |config| :: sep !in Upper(config[i].0))
    && (forall i, j | 0 <= i < j < |config| :: Upper(config[i].0) != Upper(config[j].0))
  }

  /** A key belongs to at most one table name that has no separator. */
  lemma PrefixUnique(a: string, b: string, sep: char, k: string)
    requires sep !in a && sep !in b && a + [sep] <= k && b + [sep] <= k
    ensures a == b
  {
    assert k[|a|] == sep && k[|b|] == sep;
    assert forall i | 0 <= i < |a| :: a[i] == (a + [sep])[i] == k[i];
    assert forall i | 0 <= i < |b| :: b[i] == (b + [sep])[i] == k[i];
  }

  lemma {:induction false} EntryOpsElsewhere(prefix: string, entries: Entries, k: string)
    ensures !(prefix <= k) ==> EntryOps(prefix, entries, k) == []
    ensures Empty !in EntryOps(prefix, entries, k)
    decreases |entries|
  {
    if entries != [] {
      EntryOpsElsewhere(prefix, entries[1..], k);
      assert prefix <= prefix + entries[0].0;
    }
  }

  lemma {:induction false} NoOpsElsewhere(sep: char, config: Config, k: string, name: string)
    requires forall i | 0 <= i < |config| :: sep !in Upper(config[i].0) && Upper(config[i].0) != name
    requires sep !in name && name + [sep] <= k
    ensures KeyOps(sep, config, k) == []
    decreases |config|
  {
    if config != [] {
      var (table, entries) := config[0];
      if Prefix(table, sep) <= k {
        PrefixUnique(Upper(table), name, sep, k);
      }
      EntryOpsElsewhere(Prefix(table, sep), entries, k);
      NoOpsElsewhere(sep, config[1..], k, name);
    }
  }

  lemma {:induction false} NeverEmptied(ops: seq<KeyOp>)
    requires Empty !in ops
    ensures Stale(map[], ops) == {}
    decreases |ops|
  {
    if ops != [] {
      assert ops[|ops| - 1] in ops;
      NeverEmptied(ops[..|ops| - 1]);
    }
  }

  lemma {:induction false} DistinctNothingStale(sep: char, config: Config, k: string)
    requires DistinctTables(config, sep)
    ensures Stale(map[], KeyOps(sep, config, k)) == {}
    decreases |config|
  {
    if config != [] {
      var (table, entries) := config[0];
      var first, rest := TableOps(sep, table, entries, k), KeyOps(sep, config[1..], k);
      assert forall i | 0 <= i < |config[1..]| :: config[1..][i] == config[i + 1];
      EntryOpsElsewhere(Prefix(table, sep), entries, k);
      if Prefix(table, sep) <= k {
        NoOpsElsewhere(sep, config[1..], k, Upper(table));
        assert first + rest == first;
        if entries == [] {
          assert [Empty][..0] == [];
        } else {
          NeverEmptied(first);
        }
      } else {
        assert first + rest == rest;
        DistinctNothingStale(sep, config[1..], k);
      }
    }
  }

  /** With table names distinct after upper-casing and free of the separator, the pipelined
      mod_config ends in the same database as the sequential one, whatever the batching. */
  lemma ModConfigAgrees(db: Db, scan: Scan, sep: char, config: Config)
    requires WellFormed(db) && Complete(db, scan) && DistinctTables(config, sep)
    ensures ExecuteAll(db, ConfigCommands(scan, sep, config)) == ModConfig(db, sep, config)
  {
    hide ExecuteAll, ModConfig, ConfigCommands, KeyOps, Stale, Complete, WellFormed, DistinctTables;
    ModConfigExact(db, scan, sep, config);
    forall k | k !in db
      ensures Stale(map[], KeyOps(sep, config, k)) == {}
    {
      DistinctNothingStale(sep, config, k);
    }
  }

  /** Two spellings of one name, the second of them emptied: the transaction, whose SCAN ran on
      the empty database, leaves the entry that the sequential form removes. */
  lemma SpellingsDiffer(scan: Scan, row: Row)
    requires Complete(map[], scan) && row != map[]
    ensures var config := [("X", [("a", row)]), ("x", [])];
            && "X|a" in ExecuteAll(map[], ConfigCommands(scan, '|', config))
            && "X|a" !in ModConfig(map[], '|', config)
  {
    var config := [("X", [("a", row)]), ("x", [])];
    var k := "X|a";
    SpellingOps(row);
    hide ExecuteAll, ModConfig, ConfigCommands, KeyOps, RowAfter, Complete, WellFormed;
    ConfigCommandsAt(map[], map[], scan, '|', config, k);
    ModConfigAt(map[], '|', config, k);
    RowAfterConcat(map[], [Write(row)], [Empty], false);
    RowAfterConcat(map[], [Write(row)], [Empty], true);
    RowAfterOne(map[], Write(row), false);
    RowAfterOne(map[], Write(row), true);
    RowAfterOne(row, Empty, false);
    RowAfterOne(row, Empty, true);
    assert map[] + row == row;
    EmptyWellFormed('|', config);
  }

  lemma EmptyWellFormed(sep: char, config: Config)
    ensures WellFormed(ModConfig(map[], sep, config))
  {
    ModConfigAt(map[], sep, config, "");
  }

  lemma SpellingOps(row: Row)
    requires row != map[]
    ensures KeyOps('|', [("X", [("a", row)]), ("x", [])], "X|a") == [Write(row), Empty]
    ensures [Write(row), Empty] == [Write(row)] + [Empty]
  {
    var config := [("X", [("a", row)]), ("x", [])];
    assert Prefix("X", '|') == "X|" && Prefix("x", '|') == "X|" by {
      assert "X"[1..] == "" && "x"[1..] == "";
    }
    assert [("a", row)][1..] == [] && "X|" + "a" == "X|a";
    assert EntryOps("X|", [], "X|a") == [];
    assert EntryOps("X|", [("a", row)], "X|a") == [Write(row)] + [];
    assert TableOps('|', "X", [("a", row)], "X|a") == [Write(row)];
    assert TableOps('|', "x", [], "X|a") == [Empty];
    assert config[1..] == [("x", [])] && config[1..][1..] == [];
    assert KeyOps('|', config[1..][1..], "X|a") == [];
    assert KeyOps('|', config[1..], "X|a") == [Empty];
  }
}
