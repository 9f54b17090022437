/** The configuration connectors: the sequential one and the one over transactions. */
module ConfigConnector {
  import opened Tables
  import opened ConfigDb

  // ---------- The whole configuration ----------

  type Nested = map<string, map<string, Row>>

  function TableOf(k: string, sep: char): string { k[..Position(k, sep)] }

  function RowOf(k: string, sep: char): string
    requires sep in k
  {
    k[Position(k, sep) + 1..]
  }

  ghost function Names(db: Db, sep: char): set<string> {
    set k | k in db && sep in k :: TableOf(k, sep)
  }

  ghost function Rows(db: Db, sep: char, table: string): set<string> {
    set k | k in db && sep in k && TableOf(k, sep) == table :: RowOf(k, sep)
  }

  /** The database as tables of rows. */
  ghost function ConfigOf(db: Db, sep: char): Nested {
    map table | table in Names(db, sep) ::
      map row | row in Rows(db, sep, table) :: Lookup(db, table + [sep] + row)
  }

  lemma KeyParts(k: string, sep: char)
    requires sep in k
    ensures k == TableOf(k, sep) + [sep] + RowOf(k, sep) && sep !in TableOf(k, sep)
  {
  }

  /** A table name without the separator and a row name make one key, and come apart again. */
  lemma KeyWhole(table: string, row: string, sep: char)
    requires sep !in table
    ensures var k := table + [sep] + row; sep in k && TableOf(k, sep) == table && RowOf(k, sep) == row
  {
    var k := table + [sep] + row;
    assert k[|table|] == sep;
    KeyParts(k, sep);
    PrefixUnique(table, TableOf(k, sep), sep, k);
  }

  /** get_config returns exactly the database's entries, each under its table and row. */
  lemma ConfigEntry(db: Db, sep: char, table: string, row: string)
    ensures table in ConfigOf(db, sep) && row in ConfigOf(db, sep)[table] <==> sep !in table && table + [sep] + row in db
    ensures table in ConfigOf(db, sep) && row in ConfigOf(db, sep)[table]
            ==> ConfigOf(db, sep)[table][row] == db[table + [sep] + row]
    ensures table in ConfigOf(db, sep) ==> ConfigOf(db, sep)[table] != map[]
  {
    hide Position, TableOf, RowOf;
    var k := table + [sep] + row;
    if sep !in table {
      KeyWhole(table, row, sep);
      if k in db {
        assert table in Names(db, sep) && row in Rows(db, sep, table);
      }
    }
    if table in Names(db, sep) {
      var key :| key in db && sep in key && TableOf(key, sep) == table;
      KeyParts(key, sep);
      assert RowOf(key, sep) in Rows(db, sep, table);
      assert RowOf(key, sep) in ConfigOf(db, sep)[table];
      if row in Rows(db, sep, table) {
        var other :| other in db && sep in other && TableOf(other, sep) == table && RowOf(other, sep) == row;
        KeyParts(other, sep);
      }
    }
  }

  function Entry(data: Nested, table: string, row: string): Option<Row> {
    if table in data && row in data[table] then Some(data[table][row]) else None
  }

  /** `data` holds the entries of the keys seen so far. */
  ghost predicate Holds(data: Nested, db: Db, sep: char, seen: set<string>) {
    && (forall table, row :: Entry(data, table, row)
          == if sep !in table && table + [sep] + row in seen then Some(Lookup(db, table + [sep] + row)) else None)
    && (forall table | table in data :: data[table] != map[])
  }

  lemma ConfigHolds(db: Db, sep: char)
    ensures Holds(ConfigOf(db, sep), db, sep, db.Keys)
  {
    hide ConfigOf;
    forall table, row
      ensures Entry(ConfigOf(db, sep), table, row)
              == if sep !in table && table + [sep] + row in db then Some(Lookup(db, table + [sep] + row)) else None
    {
      ConfigEntry(db, sep, table, row);
    }
    forall table | table in ConfigOf(db, sep)
      ensures ConfigOf(db, sep)[table] != map[]
    {
      ConfigEntry(db, sep, table, "");
    }
  }

  lemma SameEntries(a: Nested, b: Nested)
    requires forall table | table in a :: a[table] != map[]
    requires forall table | table in b :: b[table] != map[]
    requires forall table, row :: Entry(a, table, row) == Entry(b, table, row)
    ensures a == b
  {
    forall table | table in a
      ensures table in b && a[table] == b[table]
    {
      var row :| row in a[table];
      assert Entry(a, table, row) == Entry(b, table, row);
      SameRows(a, b, table);
    }
    forall table | table in b
      ensures table in a
    {
      var row :| row in b[table];
      assert Entry(a, table, row) == Entry(b, table, row);
    }
  }

  lemma SameRows(a: Nested, b: Nested, table: string)
    requires table in a && table in b && forall row :: Entry(a, table, row) == Entry(b, table, row)
    ensures a[table] == b[table]
  {
    forall row | row in a[table]
      ensures row in b[table] && a[table][row] == b[table][row]
    {
      assert Entry(a, table, row) == Entry(b, table, row);
    }
    forall row | row in b[table]
      ensures row in a[table]
    {
      assert Entry(a, table, row) == Entry(b, table, row);
    }
  }

  /** Once every key has been seen, it is the whole configuration. */
  lemma HoldsAll(data: Nested, db: Db, sep: char)
    requires Holds(data, db, sep, db.Keys)
    ensures data == ConfigOf(db, sep)
  {
    ConfigHolds(db, sep);
    SameEntries(data, ConfigOf(db, sep));
  }

  /** data[table][row] = fields */
  function Put(data: Nested, table: string, row: string, fields: Row): Nested {
    data[table := (if table in data then data[table] else map[])[row := fields]]
  }

  /** Emplacing fields in data[table][row]: those already there stay. */
  function Emplace(data: Nested, table: string, row: string, fields: Row): Nested {
    var entry := Entry(data, table, row);
    Put(data, table, row, if entry.Some? then fields + entry.value else fields)
  }

  lemma PutEntry(data: Nested, table: string, row: string, fields: Row)
    ensures forall t, r :: Entry(Put(data, table, row, fields), t, r)
              == if t == table && r == row then Some(fields) else Entry(data, t, r)
    ensures (forall t | t in data :: data[t] != map[]) ==> forall t | t in Put(data, table, row, fields) :: Put(data, table, row, fields)[t] != map[]
  {
    var inner := (if table in data then data[table] else map[])[row := fields];
    assert row in inner;
  }

  lemma HoldsNext(data: Nested, db: Db, sep: char, seen: set<string>, k: string)
    requires Holds(data, db, sep, seen) && k in db
    ensures sep in k ==> Holds(Put(data, TableOf(k, sep), RowOf(k, sep), db[k]), db, sep, seen + {k})
    ensures sep in k ==> Holds(Emplace(data, TableOf(k, sep), RowOf(k, sep), db[k]), db, sep, seen + {k})
    ensures sep !in k ==> Holds(data, db, sep, seen + {k})
  {
    hide Position, TableOf, RowOf;
    if sep in k {
      hide Put, Entry;
      var table, row := TableOf(k, sep), RowOf(k, sep);
      KeyParts(k, sep);
      var next := Put(data, table, row, db[k]);
      PutEntry(data, table, row, db[k]);
      forall t, r
        ensures Entry(next, t, r)
                == if sep !in t && t + [sep] + r in seen + {k} then Some(Lookup(db, t + [sep] + r)) else None
      {
        if sep !in t && t + [sep] + r == k {
          KeyWhole(t, r, sep);
        }
      }
      assert Entry(data, table, row).Some? ==> Entry(data, table, row).value == db[k];
      assert db[k] + db[k] == db[k];
      assert Emplace(data, table, row, db[k]) == next;
    } else {
      forall t, r
        ensures t + [sep] + r != k
      {
        assert (t + [sep] + r)[|t|] == sep;
      }
    }
  }

  // ---------- Transactions ----------

  datatype ReplyType = ARRAY | INTEGER

  datatype Reply = ArrayReply(row: Row) | IntegerReply(n: int)

  function TypeOf(c: Command): ReplyType { if c.HGETALL? then ARRAY else INTEGER }

  function ReplyTo(db: Db, c: Command): Reply {
    match c
    case HGETALL(key) => ArrayReply(Lookup(db, key))
    case DEL(key) => IntegerReply(if key in db then 1 else 0)
    case HDEL(key, field) => IntegerReply(if field in Lookup(db, key) then 1 else 0)
    case HSET(key, row) => IntegerReply(|row.Keys - Lookup(db, key).Keys|)
  }

  function Replies(db: Db, commands: seq<Command>): seq<Reply>
    decreases |commands|
  {
    if commands == [] then [] else [ReplyTo(db, commands[0])] + Replies(Execute(db, commands[0]), commands[1..])
  }

  function TypesOf(commands: seq<Command>): seq<ReplyType> {
    if commands == [] then [] else [TypeOf(commands[0])] + TypesOf(commands[1..])
  }

  class Server {
    var db: Db

    /** EXEC: the queued commands in order, with a reply for each. */
    method ExecuteQueue(queue: seq<Command>) returns (replies: seq<Reply>)
      modifies this
      ensures db == ExecuteAll(old(db), queue) && replies == Replies(old(db), queue)
    {
      hide Execute, ReplyTo;
      replies := [];
      assert queue[0..] == queue;
      for i := 0 to |queue|
        invariant ExecuteAll(db, queue[i..]) == ExecuteAll(old(db), queue)
        invariant replies + Replies(db, queue[i..]) == Replies(old(db), queue)
      {
        assert queue[i..][0] == queue[i] && queue[i..][1..] == queue[i + 1..];
        var reply := ReplyTo(db, queue[i]);
        ghost var rest := Replies(Execute(db, queue[i]), queue[i + 1..]);
        assert replies + ([reply] + rest) == (replies + [reply]) + rest;
        replies := replies + [reply];
        db := Execute(db, queue[i]);
      }
      assert queue[|queue|..] == [];
    }
  }

  lemma {:induction false} TypesLast(commands: seq<Command>, c: Command)
    ensures TypesOf(commands + [c]) == TypesOf(commands) + [TypeOf(c)]
    decreases |commands|
  {
    if commands == [] {
      assert commands + [c] == [c] && [c][1..] == [];
    } else {
      assert (commands + [c])[1..] == commands[1..] + [c];
      TypesLast(commands[1..], c);
    }
  }

  function KindsOf(replies: seq<Reply>): seq<ReplyType> {
    if replies == [] then [] else [if replies[0].ArrayReply? then ARRAY else INTEGER] + KindsOf(replies[1..])
  }

  /** Every reply has its command's type. */
  lemma {:induction false} ReplyKinds(db: Db, commands: seq<Command>)
    ensures KindsOf(Replies(db, commands)) == TypesOf(commands)
    decreases |commands|
  {
    hide Execute;
    if commands != [] {
      var first, rest := ReplyTo(db, commands[0]), Replies(Execute(db, commands[0]), commands[1..]);
      assert ([first] + rest)[1..] == rest;
      ReplyKinds(Execute(db, commands[0]), commands[1..]);
    }
  }

  lemma FirstKind(a: ReplyType, at: seq<ReplyType>, b: ReplyType, bs: seq<ReplyType>)
    ensures [a] + at == [b] + bs <==> a == b && at == bs
  {
    if [a] + at == [b] + bs {
      assert a == ([a] + at)[0] && at == ([a] + at)[1..] && bs == ([b] + bs)[1..];
    }
  }

  lemma KindsLength(replies: seq<Reply>)
    ensures |KindsOf(replies)| == |replies|
  {
  }

  datatype Outcome = Done | Refused | Mismatch

  class RedisTransactioner {
    const server: Server
    var queued: seq<Command>
    var expected: seq<ReplyType>
    var results: seq<Reply>

    constructor (s: Server)
      ensures server == s && queued == [] && expected == [] && results == []
    {
      server, queued, expected, results := s, [], [], [];
    }

    method Multi()
      modifies this`queued, this`expected
      ensures queued == [] && expected == []
    {
      queued, expected := [], [];
    }

    /** The server answers QUEUED; nothing is executed yet. */
    method Enqueue(c: Command, expectedType: ReplyType)
      modifies this`queued, this`expected
      ensures queued == old(queued) + [c] && expected == old(expected) + [expectedType]
    {
      queued := queued + [c];
      expected := expected + [expectedType];
    }

    /** The commands take effect in order; the replies are kept, one for each command, if each has
        the type its command was queued with, and otherwise none is (the source throws). A server
        that refuses the transaction runs nothing and leaves the replies as they were. */
    method Exec(refused: bool) returns (outcome: Outcome)
      requires |expected| == |queued|
      modifies this, server
      ensures refused ==> outcome == Refused && server.db == old(server.db) && results == old(results)
      ensures !refused ==>
                && server.db == ExecuteAll(old(server.db), old(queued))
                && outcome == (if old(expected) == TypesOf(old(queued)) then Done else Mismatch)
                && results == (if outcome == Done then Replies(old(server.db), old(queued)) else [])
      ensures outcome == Done ==> expected == []
    {
      hide ExecuteAll, Replies, TypesOf, KindsOf;
      if refused {
        queued := [];
        return Refused;
      }
      ReplyKinds(server.db, queued);
      var replies := server.ExecuteQueue(queued);
      queued := [];
      results := [];
      var ok := CheckTypes(replies);
      if !ok {
        return Mismatch;
      }
      results := replies;
      outcome := Done;
    }

    /** Each reply against the type expected first. */
    method CheckTypes(replies: seq<Reply>) returns (ok: bool)
      modifies this`expected
      ensures ok <==> old(expected) == KindsOf(replies)
      ensures ok ==> expected == []
    {
      if |replies| != |expected| {
        KindsLength(replies);
        return false;
      }
      assert replies[0..] == replies;
      for i := 0 to |replies|
        invariant |expected| == |replies| - i
        invariant old(expected) == KindsOf(replies) <==> expected == KindsOf(replies[i..])
      {
        assert replies[i..][0] == replies[i] && replies[i..][1..] == replies[i + 1..];
        ghost var rest := KindsOf(replies[i + 1..]);
        var kind := if replies[i].ArrayReply? then ARRAY else INTEGER;
        assert KindsOf(replies[i..]) == [kind] + rest && expected == [expected[0]] + expected[1..];
        FirstKind(expected[0], expected[1..], kind, rest);
        if expected[0] != kind {
          return false;
        }
        expected := expected[1..];
      }
      assert replies[|replies|..] == [];
      ok := true;
    }

    method DequeueReply() returns (reply: Option<Reply>)
      modifies this`results
      ensures old(results) == [] ==> reply == None && results == []
      ensures old(results) != [] ==> reply == Some(old(results)[0]) && results == old(results)[1..]
    {
      if results == [] {
        return None;
      }
      reply := Some(results[0]);
      results := results[1..];
    }
  }

  // ---------- The sequential connector ----------

  /** The row while set_entry runs: the data over what is left of the original. */
  function Left(original: Row, data: Row, extra: set<string>): Row {
    (map f | f in original && f in extra :: original[f]) + data
  }

  lemma LeftAll(original: Row, data: Row)
    ensures Left(original, data, original.Keys) == original + data && Left(original, data, {}) == data
  {
    assert (map f | f in original && f in original.Keys :: original[f]) == original;
  }

  lemma LeftWithout(original: Row, data: Row, extra: set<string>, f: string)
    ensures f !in data ==> Left(original, data, extra) - {f} == Left(original, data, extra - {f})
    ensures f in data ==> Left(original, data, extra) == Left(original, data, extra - {f})
  {
  }

  class ConfigDBConnector {
    const server: Server
    const sep: char

    constructor (s: Server, separator: char)
      ensures server == s && sep == separator
    {
      server, sep := s, separator;
    }

    /** set_entry: the row becomes the given data; without data it is deleted. */
    method SetEntry(table: string, key: string, data: Row)
      modifies server
      ensures server.db == PutRow(old(server.db), Hash(table, sep, key), data)
    {
      hide Hash, Left;
      var hash := Hash(table, sep, key);
      if data == map[] {
        server.db := Del(server.db, hash);
        return;
      }
      var original := Lookup(server.db, hash);
      LeftAll(original, data);
      server.db := PutRow(server.db, hash, original + data);
      var extra := original.Keys;
      while extra != {}
        invariant server.db == PutRow(old(server.db), hash, Left(original, data, extra))
        decreases |extra|
      {
        hide PutRow, HDel;
        var f :| f in extra;
        LeftWithout(original, data, extra, f);
        if f !in data {
          FieldDeleted(old(server.db), hash, Left(original, data, extra), f);
          server.db := HDel(server.db, hash, f);
        }
        extra := extra - {f};
      }
    }

    method ModifyEntry(table: string, key: string, data: Row)
      modifies server
      ensures server.db == ModEntry(old(server.db), Hash(table, sep, key), data)
    {
      var hash := Hash(table, sep, key);
      if data == map[] {
        server.db := Del(server.db, hash);
      } else {
        server.db := PutRow(server.db, hash, Lookup(server.db, hash) + data);
      }
    }

    /** delete_table: KEYS, then DEL key by key. */
    method EmptyTable(table: string)
      modifies server
      ensures server.db == DeleteTable(old(server.db), Prefix(table, sep))
    {
      var prefix := Prefix(table, sep);
      var keys := set k | k in server.db && prefix <= k;
      while keys != {}
        invariant forall k | k in keys :: prefix <= k
        invariant server.db == map k | k in old(server.db) && (!(prefix <= k) || k in keys) :: old(server.db)[k]
        decreases |keys|
      {
        var k :| k in keys;
        server.db := Del(server.db, k);
        keys := keys - {k};
      }
    }

    method ModifyConfig(config: Config)
      modifies server
      ensures server.db == ModConfig(old(server.db), sep, config)
    {
      assert config[0..] == config;
      for i := 0 to |config|
        invariant ModConfig(server.db, sep, config[i..]) == ModConfig(old(server.db), sep, config)
      {
        hide DeleteTable, ModEntries;
        var (table, entries) := config[i];
        assert config[i..][0] == config[i] && config[i..][1..] == config[i + 1..];
        if entries == [] {
          EmptyTable(table);
        } else {
          ModifyEntries(table, entries);
        }
      }
      assert config[|config|..] == [];
    }

    method ModifyEntries(table: string, entries: Entries)
      modifies server
      ensures server.db == ModEntries(old(server.db), Prefix(table, sep), entries)
    {
      assert entries[0..] == entries;
      for i := 0 to |entries|
        invariant ModEntries(server.db, Prefix(table, sep), entries[i..]) == ModEntries(old(server.db), Prefix(table, sep), entries)
      {
        hide ModEntry;
        assert entries[i..][0] == entries[i] && entries[i..][1..] == entries[i + 1..];
        ModifyEntry(table, entries[i].0, entries[i].1);
      }
      assert entries[|entries|..] == [];
    }

    /** get_config: KEYS, then HGETALL key by key. */
    method GetConfig() returns (data: Nested)
      requires WellFormed(server.db)
      ensures data == ConfigOf(server.db, sep)
    {
      hide Holds, ConfigOf, Put;
      data := map[];
      var keys := server.db.Keys;
      ghost var seen: set<string> := {};
      HoldsNothing(server.db, sep);
      while keys != {}
        invariant seen + keys == server.db.Keys && Holds(data, server.db, sep, seen)
        decreases |keys|
      {
        var k :| k in keys;
        HoldsNext(data, server.db, sep, seen, k);
        if sep in k {
          var entry := Lookup(server.db, k);
          if entry != map[] {
            data := Put(data, TableOf(k, sep), RowOf(k, sep), entry);
          }
        }
        keys := keys - {k};
        seen := seen + {k};
      }
      assert seen == server.db.Keys;
      HoldsAll(data, server.db, sep);
    }
  }

  lemma FieldDeleted(db: Db, hash: string, row: Row, f: string)
    ensures HDel(PutRow(db, hash, row), hash, f) == PutRow(db, hash, row - {f})
  {
  }

  lemma HoldsNothing(db: Db, sep: char)
    ensures Holds(map[], db, sep, {})
  {
  }

  // ---------- The pipelined connector ----------

  lemma {:induction false} DeletesLast(keys: seq<string>, k: string)
    ensures Deletes(keys + [k]) == Deletes(keys) + [DEL(k)]
    decreases |keys|
  {
    if keys == [] {
      assert keys + [k] == [k] && [k][1..] == [];
    } else {
      assert (keys + [k])[1..] == keys[1..] + [k];
      DeletesLast(keys[1..], k);
    }
  }

  lemma {:induction false} DeletesConcat(a: seq<string>, b: seq<string>)
    ensures Deletes(a + b) == Deletes(a) + Deletes(b)
    decreases |a|
  {
    if a == [] {
      assert a + b == b;
    } else {
      assert (a + b)[1..] == a[1..] + b;
      DeletesConcat(a[1..], b);
    }
  }

  lemma ExecuteLast(db: Db, commands: seq<Command>, c: Command)
    ensures ExecuteAll(db, commands + [c]) == Execute(ExecuteAll(db, commands), c)
  {
    ExecuteConcat(db, commands, [c]);
    assert [c][1..] == [];
  }

  /** One HGETALL for each key that has a table. */
  function Gets(keys: seq<string>, sep: char): seq<Command> {
    if keys == [] then [] else GetOf(keys[0], sep) + Gets(keys[1..], sep)
  }

  function GetOf(k: string, sep: char): seq<Command> {
    if sep in k then [HGETALL(k)] else []
  }

  lemma {:induction false} GetsConcat(a: seq<string>, b: seq<string>, sep: char)
    ensures Gets(a + b, sep) == Gets(a, sep) + Gets(b, sep)
    decreases |a|
  {
    if a == [] {
      assert a + b == b;
    } else {
      hide GetOf;
      assert (a + b)[1..] == a[1..] + b;
      GetsConcat(a[1..], b, sep);
      var x, y, z := GetOf(a[0], sep), Gets(a[1..], sep), Gets(b, sep);
      assert x + (y + z) == (x + y) + z;
    }
  }

  /** Reading changes nothing, and each reply answers its own key. */
  lemma {:induction false} GetsAnswered(db: Db, keys: seq<string>, sep: char)
    ensures ExecuteAll(db, Gets(keys, sep)) == db
    ensures keys != [] ==>
              Replies(db, Gets(keys, sep))
              == (if sep in keys[0] then [ArrayReply(Lookup(db, keys[0]))] else []) + Replies(db, Gets(keys[1..], sep))
    decreases |keys|
  {
    if keys != [] {
      var rest := Gets(keys[1..], sep);
      GetsAnswered(db, keys[1..], sep);
      if sep in keys[0] {
        assert ([HGETALL(keys[0])] + rest)[1..] == rest;
      } else {
        assert [] + rest == rest;
      }
    }
  }

  class ConfigDBPipeConnector {
    const server: Server
    const sep: char

    constructor (s: Server, separator: char)
      ensures server == s && sep == separator
    {
      server, sep := s, separator;
    }

    /** Queues a command with the type its reply will have. */
    method Queue(pipe: RedisTransactioner, c: Command)
      requires pipe.expected == TypesOf(pipe.queued)
      modifies pipe`queued, pipe`expected
      ensures pipe.expected == TypesOf(pipe.queued) && pipe.queued == old(pipe.queued) + [c]
    {
      TypesLast(pipe.queued, c);
      pipe.Enqueue(c, TypeOf(c));
    }

    /** _delete_entries: one batch of a SCAN. */
    method DeleteEntries(pipe: RedisTransactioner, keys: seq<string>)
      requires pipe.expected == TypesOf(pipe.queued)
      modifies pipe`queued, pipe`expected
      ensures pipe.expected == TypesOf(pipe.queued) && pipe.queued == old(pipe.queued) + Deletes(keys)
    {
      for i := 0 to |keys|
        invariant pipe.expected == TypesOf(pipe.queued) && pipe.queued == old(pipe.queued) + Deletes(keys[..i])
      {
        hide Deletes, TypesOf;
        assert keys[..i + 1] == keys[..i] + [keys[i]];
        DeletesLast(keys[..i], keys[i]);
        Queue(pipe, DEL(keys[i]));
      }
      assert keys[..|keys|] == keys;
    }

    /** _delete_table: batch after batch. */
    method EmptyTable(pipe: RedisTransactioner, scan: Scan, table: string)
      requires pipe.expected == TypesOf(pipe.queued)
      modifies pipe`queued, pipe`expected
      ensures pipe.expected == TypesOf(pipe.queued)
      ensures pipe.queued == old(pipe.queued) + Deletes(Flatten(scan(Prefix(table, sep))))
    {
      hide Deletes, TypesOf, Prefix;
      var batches := scan(Prefix(table, sep));
      assert batches[0..] == batches;
      for i := 0 to |batches|
        invariant pipe.expected == TypesOf(pipe.queued)
        invariant pipe.queued + Deletes(Flatten(batches[i..])) == old(pipe.queued) + Deletes(Flatten(batches))
      {
        ghost var before, rest := pipe.queued, Flatten(batches[i + 1..]);
        assert batches[i..][0] == batches[i] && batches[i..][1..] == batches[i + 1..];
        DeletesConcat(batches[i], rest);
        DeleteEntries(pipe, batches[i]);
        assert before + (Deletes(batches[i]) + Deletes(rest)) == pipe.queued + Deletes(rest);
      }
      assert batches[|batches|..] == [];
      NoDeletes();
    }

    method ModifyEntries(pipe: RedisTransactioner, table: string, entries: Entries)
      requires pipe.expected == TypesOf(pipe.queued)
      modifies pipe`queued, pipe`expected
      ensures pipe.expected == TypesOf(pipe.queued)
      ensures pipe.queued == old(pipe.queued) + EntryCommands(Prefix(table, sep), entries)
    {
      hide TypesOf, EntryCommand, Prefix;
      var prefix := Prefix(table, sep);
      assert entries[0..] == entries;
      for i := 0 to |entries|
        invariant pipe.expected == TypesOf(pipe.queued)
        invariant pipe.queued + EntryCommands(prefix, entries[i..]) == old(pipe.queued) + EntryCommands(prefix, entries)
      {
        ghost var before, rest := pipe.queued, EntryCommands(prefix, entries[i + 1..]);
        assert entries[i..][0] == entries[i] && entries[i..][1..] == entries[i + 1..];
        var c := EntryCommand(prefix + entries[i].0, entries[i].1);
        Queue(pipe, c);
        assert before + ([c] + rest) == pipe.queued + rest;
      }
      assert entries[|entries|..] == [];
    }

    /** mod_config in one transaction: with distinct table names, the sequential result. */
    method ModifyConfig(scan: Scan, config: Config)
      requires Complete(server.db, scan)
      modifies server
      ensures server.db == ExecuteAll(old(server.db), ConfigCommands(scan, sep, config))
      ensures WellFormed(old(server.db)) && DistinctTables(config, sep) ==> server.db == ModConfig(old(server.db), sep, config)
    {
      hide TypesOf, ExecuteAll, Complete, WellFormed, DistinctTables, ModConfig, TableCommands;
      var pipe := new RedisTransactioner(server);
      pipe.Multi();
      NoTypes();
      assert config[0..] == config;
      for i := 0 to |config|
        invariant fresh(pipe) && pipe.server == server && server.db == old(server.db)
        invariant pipe.expected == TypesOf(pipe.queued)
        invariant pipe.queued + ConfigCommands(scan, sep, config[i..]) == ConfigCommands(scan, sep, config)
        modifies pipe
      {
        ghost var before, rest := pipe.queued, ConfigCommands(scan, sep, config[i + 1..]);
        var (table, entries) := config[i];
        assert config[i..][0] == config[i] && config[i..][1..] == config[i + 1..];
        ModifyTable(pipe, scan, table, entries);
        ghost var commands := TableCommands(scan, sep, table, entries);
        assert before + (commands + rest) == pipe.queued + rest;
      }
      assert config[|config|..] == [];
      assert pipe.queued + [] == pipe.queued == ConfigCommands(scan, sep, config);
      TypesLength(pipe.queued);
      var _ := pipe.Exec(false);
      if WellFormed(old(server.db)) && DistinctTables(config, sep) {
        ModConfigAgrees(old(server.db), scan, sep, config);
      }
    }

    method ModifyTable(pipe: RedisTransactioner, scan: Scan, table: string, entries: Entries)
      requires pipe.expected == TypesOf(pipe.queued)
      modifies pipe`queued, pipe`expected
      ensures pipe.expected == TypesOf(pipe.queued)
      ensures pipe.queued == old(pipe.queued) + TableCommands(scan, sep, table, entries)
    {
      if entries == [] {
        EmptyTable(pipe, scan, table);
      } else {
        ModifyEntries(pipe, table, entries);
      }
    }

    /** set_entry in one transaction: the row becomes the given data. */
    method SetEntry(table: string, key: string, data: Row)
      modifies server
      ensures server.db == PutRow(old(server.db), Hash(table, sep, key), data)
    {
      hide TypesOf, ExecuteAll, PutRow, Hash, Left;
      var pipe := new RedisTransactioner(server);
      pipe.Multi();
      NoTypes();
      var hash := Hash(table, sep, key);
      if data == map[] {
        ExecuteLast(server.db, [], DEL(hash));
        Queue(pipe, DEL(hash));
        Deleted(server.db, hash);
      } else {
        var original := Lookup(server.db, hash);
        LeftAll(original, data);
        ExecuteLast(server.db, [], HSET(hash, data));
        NothingExecuted(server.db);
        Queue(pipe, HSET(hash, data));
        QueueFieldDeletes(pipe, hash, original, data);
      }
      assert pipe.queued == [] + pipe.queued;
      NothingExecuted(server.db);
      TypesLength(pipe.queued);
      var _ := pipe.Exec(false);
    }

    method QueueFieldDeletes(pipe: RedisTransactioner, hash: string, original: Row, data: Row)
      requires pipe.expected == TypesOf(pipe.queued)
      requires ExecuteAll(server.db, pipe.queued) == PutRow(server.db, hash, original + data)
      modifies pipe`queued, pipe`expected
      ensures pipe.expected == TypesOf(pipe.queued)
      ensures ExecuteAll(server.db, pipe.queued) == PutRow(server.db, hash, data)
    {
      hide TypesOf, ExecuteAll, PutRow, Left;
      LeftAll(original, data);
      var extra := original.Keys;
      while extra != {}
        invariant pipe.expected == TypesOf(pipe.queued)
        invariant ExecuteAll(server.db, pipe.queued) == PutRow(server.db, hash, Left(original, data, extra))
        decreases |extra|
      {
        hide HDel;
        var f :| f in extra;
        LeftWithout(original, data, extra, f);
        if f !in data {
          FieldDeleted(server.db, hash, Left(original, data, extra), f);
          ExecuteLast(server.db, pipe.queued, HDEL(hash, f));
          Queue(pipe, HDEL(hash, f));
        }
        extra := extra - {f};
      }
    }

    /** _get_config: the replies of one batch, each under its own key's table and row. */
    method GetBatch(pipe: RedisTransactioner, data: Nested, keys: seq<string>, ghost seen: set<string>) returns (r: Nested)
      requires pipe.server == server && Holds(data, server.db, sep, seen)
      requires forall k | k in keys :: k in server.db
      modifies pipe, server
      ensures server.db == old(server.db)
      ensures Holds(r, server.db, sep, seen + set k | k in keys)
    {
      hide TypesOf, ExecuteAll, Replies, Gets, Holds;
      pipe.Multi();
      NoTypes();
      GetsNone(sep);
      assert keys[..0] == [];
      for i := 0 to |keys|
        invariant pipe.expected == TypesOf(pipe.queued) && pipe.queued == Gets(keys[..i], sep)
        invariant server.db == old(server.db)
        modifies pipe`queued, pipe`expected
      {
        assert keys[..i + 1] == keys[..i] + [keys[i]];
        GetsConcat(keys[..i], [keys[i]], sep);
        GetsOne(keys[i], sep);
        if sep in keys[i] {
          Queue(pipe, HGETALL(keys[i]));
        }
      }
      assert keys[..|keys|] == keys;
      TypesLength(pipe.queued);
      GetsAnswered(server.db, keys, sep);
      var _ := pipe.Exec(false);
      r := TakeReplies(pipe, data, keys, seen);
    }

    method TakeReplies(pipe: RedisTransactioner, data: Nested, keys: seq<string>, ghost seen: set<string>) returns (r: Nested)
      requires pipe.results == Replies(server.db, Gets(keys, sep)) && Holds(data, server.db, sep, seen)
      requires forall k | k in keys :: k in server.db
      modifies pipe`results
      ensures Holds(r, server.db, sep, seen + set k | k in keys)
    {
      hide Replies, Gets, Holds, Emplace, TableOf, RowOf;
      r := data;
      ghost var done := seen;
      assert keys[0..] == keys;
      for i := 0 to |keys|
        invariant pipe.results == Replies(server.db, Gets(keys[i..], sep))
        invariant done == seen + (set k | k in keys[..i]) && Holds(r, server.db, sep, done)
      {
        var k := keys[i];
        assert keys[i..][0] == k && keys[i..][1..] == keys[i + 1..];
        assert keys[..i + 1] == keys[..i] + [k];
        GetsAnswered(server.db, keys[i..], sep);
        HoldsNext(r, server.db, sep, done, k);
        if sep in k {
          var reply := pipe.DequeueReply();
          r := Emplace(r, TableOf(k, sep), RowOf(k, sep), reply.value.row);
        }
        done := done + {k};
      }
      assert keys[..|keys|] == keys;
    }

    /** get_config by batches of a SCAN: the whole configuration, as the sequential form reads it. */
    method GetConfig(scan: Scan) returns (data: Nested)
      requires Complete(server.db, scan)
      modifies server
      ensures server.db == old(server.db) && data == ConfigOf(server.db, sep)
    {
      hide Holds, ConfigOf;
      var pipe := new RedisTransactioner(server);
      data := map[];
      HoldsNothing(server.db, sep);
      ghost var seen: set<string> := {};
      var batches := scan("");
      for i := 0 to |batches|
        invariant fresh(pipe) && pipe.server == server && server.db == old(server.db)
        invariant Holds(data, server.db, sep, seen)
        invariant seen == set k | k in Flatten(batches[..i])
      {
        FlattenLast(batches, i);
        data := GetBatch(pipe, data, batches[i], seen);
        seen := seen + set k | k in batches[i];
      }
      assert batches[..|batches|] == batches;
      assert seen == server.db.Keys;
      HoldsAll(data, server.db, sep);
    }
  }

  lemma {:induction false} FlattenLast(batches: seq<seq<string>>, i: nat)
    requires i < |batches|
    ensures Flatten(batches[..i + 1]) == Flatten(batches[..i]) + batches[i]
    ensures forall k | k in batches[i] :: k in Flatten(batches)
    decreases i
  {
    var rest := batches[1..];
    if i == 0 {
      assert batches[..1] == [batches[0]] && [batches[0]][1..] == [];
      assert batches[..0] == [];
    } else {
      FlattenLast(rest, i - 1);
      assert batches[..i + 1][1..] == rest[..i] && batches[..i][1..] == rest[..i - 1];
      assert rest[i - 1] == batches[i];
    }
  }

  lemma NoDeletes()
    ensures Deletes([]) == []
  {
  }

  lemma NoTypes()
    ensures TypesOf([]) == []
  {
  }

  lemma NothingExecuted(db: Db)
    ensures ExecuteAll(db, []) == db
  {
  }

  lemma TypesLength(commands: seq<Command>)
    ensures |TypesOf(commands)| == |commands|
  {
  }

  lemma Deleted(db: Db, hash: string)
    ensures Del(db, hash) == PutRow(db, hash, map[])
  {
  }

  lemma GetsNone(sep: char)
    ensures Gets([], sep) == []
  {
  }

  lemma GetsOne(k: string, sep: char)
    ensures Gets([k], sep) == if sep in k then [HGETALL(k)] else []
  {
    assert [k][1..] == [];
  }
}
