/** SubscriberStateTable: subscribe to keyspace events, take a snapshot, then re-read the
    current row for every event. Other clients write to Redis between any two commands of
    the subscriber; those writes are parameters here (`env`: the writes that land before the
    first, second, ... command of a call). */
module Subscriber {
  import opened Tables

  datatype Config = Config(dbId: string, table: string, sep: char) {
    ghost predicate Valid() {
      ':' !in dbId && sep !in table
    }

    function Prefix(): string { table + [sep] }
    function RedisKey(key: string): string { Prefix() + key }

    /** TableBase::getKeyName: the empty key names the table itself. */
    function KeyName(key: string): string {
      if key == "" then table else RedisKey(key)
    }

    function Space(): string { "__keyspace@" + dbId + "__" }
    function Keyspace(): string { Space() + ":" + Prefix() + "*" }
    function Channel(redisKey: string): string { Space() + ":" + redisKey }
  }

  datatype Message = Message(kind: string, pattern: string, channel: string, data: string)
  datatype Op = SetOp(key: string, row: Row) | DelOp(key: string)
  datatype Write = HSetW(key: string, fvs: FieldValues) | HDelW(key: string, field: string) | DelW(key: string)

  // ---------- Redis: the table, and the keyspace events a write emits ----------

  function WriteDb(db: Db, w: Write): Db {
    match w
    case HSetW(k, fvs) => HSet(db, k, fvs)
    case HDelW(k, f) => HDel(db, k, f)
    case DelW(k) => Del(db, k)
  }

  /** A row that disappears, however it does, ends its events with "del". */
  function EventData(db: Db, w: Write): seq<string> {
    match w
    case HSetW(k, fvs) => if fvs == [] then [] else ["hset"]
    case HDelW(k, f) =>
      if f !in Lookup(db, k) then []
      else if Lookup(db, k) - {f} == map[] then ["hdel", "del"]
      else ["hdel"]
    case DelW(k) => if k in db then ["del"] else []
  }

  function Published(c: Config, key: string, data: seq<string>): seq<Message> {
    if c.Prefix() <= key
    then seq(|data|, i requires 0 <= i < |data| => Message("pmessage", c.Keyspace(), c.Channel(key), data[i]))
    else []
  }

  // ---------- The subscriber and its world ----------

  /** `socket`: published, not yet read; `events`: m_keyspace_event_buffer; `buffer`: m_buffer;
      `delivered`: every operation pop or pops has returned so far. */
  datatype World = World(db: Db, socket: seq<Message>, events: seq<Message>, buffer: seq<Op>, delivered: seq<Op>)

  function WriteOne(c: Config, w: World, x: Write): World {
    w.(db := WriteDb(w.db, x), socket := w.socket + Published(c, x.key, EventData(w.db, x)))
  }

  function WriteAll(c: Config, w: World, xs: seq<Write>): World
    decreases |xs|
  {
    if xs == [] then w else WriteAll(c, WriteOne(c, w, xs[0]), xs[1..])
  }

  /** The row key a keyspace message names, or None when pops skips the message. */
  function EventKey(c: Config, m: Message): Option<string> {
    if m.kind == "" || m.pattern != c.Keyspace() then None
    else
      var pos := Position(m.channel, ':');
      if pos == |m.channel| then None
      else
        EntryKey(c, m.channel[pos + 1..])
  }

  function EntryKey(c: Config, entry: string): Option<string> {
    var pos := Position(entry, c.sep);
    if pos == |entry| then None else Some(entry[pos + 1..])
  }

  function Get(c: Config, db: Db, key: string): Row { Lookup(db, c.KeyName(key)) }

  /** The operations one event adds to the result of pops. */
  function EventOps(c: Config, db: Db, m: Message): seq<Op> {
    match EventKey(c, m)
    case None => []
    case Some(k) =>
      if m.data == "del" then [DelOp(k)]
      else if Get(c, db, k) == map[] then []
      else [SetOp(k, Get(c, db, k))]
  }

  function HandleEvent(c: Config, w: World): World
    requires w.events != []
  {
    w.(events := w.events[1..], buffer := w.buffer + EventOps(c, w.db, w.events[0]))
  }

  function Head(env: seq<seq<Write>>): seq<Write> { if env == [] then [] else env[0] }
  function Tail(env: seq<seq<Write>>): seq<seq<Write>> { if env == [] then [] else env[1..] }

  /** The event loop of pops; outside writes land before each event is handled. */
  function DrainEvents(c: Config, w: World, env: seq<seq<Write>>): World
    decreases |w.events|
  {
    if w.events == [] then w
    else
      WriteAllKeeps(c, w, Head(env));
      DrainEvents(c, HandleEvent(c, WriteAll(c, w, Head(env))), Tail(env))
  }

  function Refill(c: Config, w: World, env: seq<seq<Write>>): World {
    if w.buffer != [] then w else DrainEvents(c, w, env)
  }

  function Deliver(w: World, n: nat): World
    requires n <= |w.buffer|
  {
    w.(delivered := w.delivered + w.buffer[..n], buffer := w.buffer[n..])
  }

  function AfterPops(c: Config, w: World, env: seq<seq<Write>>): World {
    var r := Refill(c, w, env);
    Deliver(r, |r.buffer|)
  }

  function AfterPop(c: Config, w: World, env: seq<seq<Write>>): World {
    var r := Refill(c, w, env);
    Deliver(r, if r.buffer == [] then 0 else 1)
  }

  function AfterRead(w: World, n: nat): World
    requires n <= |w.socket|
  {
    w.(events := w.events + w.socket[..n], socket := w.socket[n..])
  }

  // ---------- The constructor ----------

  /** What KEYS may return: every row key of the table, in any order. */
  ghost predicate Listing(c: Config, db: Db, keys: seq<string>) {
    forall k :: k in keys <==> c.RedisKey(k) in db
  }

  function SnapshotOps(c: Config, db: Db, key: string): seq<Op> {
    var row := Get(c, db, key);
    if row == map[] then [] else [SetOp(key, row)]
  }

  function Snapshot(c: Config, w: World, keys: seq<string>, env: seq<seq<Write>>): World
    decreases |keys|
  {
    if keys == [] then w
    else
      var w1 := WriteAll(c, w, Head(env));
      Snapshot(c, w1.(buffer := w1.buffer + SnapshotOps(c, w1.db, keys[0])), keys[1..], Tail(env))
  }

  function Subscribed(db: Db): World { World(db, [], [], [], []) }

  function Constructed(c: Config, db: Db, keys: seq<string>, env: seq<seq<Write>>): World {
    Snapshot(c, WriteAll(c, Subscribed(db), Head(env)), keys, Tail(env))
  }

  // ---------- Runs ----------

  /** One step of the whole system. `Stray` is a reply on the socket that is not one of our
      keyspace messages. */
  datatype Call = Outside(ws: seq<Write>) | Stray(m: Message) | Read(n: nat) | PopsCall(env: seq<seq<Write>>)
                | PopCall(env: seq<seq<Write>>)

  ghost predicate Enabled(c: Config, w: World, call: Call) {
    match call
    case Stray(m) => m.kind == "" || m.pattern != c.Keyspace()
    case Read(n) => n <= |w.socket|
    case _ => true
  }

  function Step(c: Config, w: World, call: Call): World
    requires Enabled(c, w, call)
  {
    match call
    case Outside(ws) => WriteAll(c, w, ws)
    case Stray(m) => w.(socket := w.socket + [m])
    case Read(n) => AfterRead(w, n)
    case PopsCall(env) => AfterPops(c, w, env)
    case PopCall(env) => AfterPop(c, w, env)
  }

  ghost predicate IsRun(c: Config, w: World, calls: seq<Call>)
    decreases |calls|
  {
    calls == [] || (Enabled(c, w, calls[0]) && IsRun(c, Step(c, w, calls[0]), calls[1..]))
  }

  ghost function Run(c: Config, w: World, calls: seq<Call>): World
    requires IsRun(c, w, calls)
    decreases |calls|
  {
    if calls == [] then w else Run(c, Step(c, w, calls[0]), calls[1..])
  }

  function ReplayOne(view: Db, op: Op): Db {
    match op
    case SetOp(k, row) => PutRow(view, k, row)
    case DelOp(k) => Del(view, k)
  }

  /** The table a consumer builds: SET replaces a row, DEL removes it. */
  function Replay(ops: seq<Op>): Db {
    if ops == [] then map[] else ReplayOne(Replay(ops[..|ops| - 1]), ops[|ops| - 1])
  }

  ghost predicate Drained(w: World) {
    w.socket == [] && w.events == [] && w.buffer == []
  }

  // ---------- The invariant ----------

  /** The data of the last message about row `key`. */
  ghost function LastData(c: Config, ms: seq<Message>, key: string): Option<string> {
    if ms == [] then None
    else if EventKey(c, ms[|ms| - 1]) == Some(key) then Some(ms[|ms| - 1].data)
    else LastData(c, ms[..|ms| - 1], key)
  }

  /** Either no event about the row is outstanding and the view is current, or the last
      outstanding event tells whether the row exists. */
  ghost predicate Synced(c: Config, w: World, key: string) {
    SyncedAt(c, w.db, w.delivered + w.buffer, w.events + w.socket, key)
  }

  ghost predicate SyncedAt(c: Config, db: Db, ops: seq<Op>, messages: seq<Message>, key: string) {
    if LastData(c, messages, key).None? then Lookup(Replay(ops), key) == Lookup(db, c.RedisKey(key))
    else LastData(c, messages, key).value == "del" <==> c.RedisKey(key) !in db
  }

  /** A row the snapshot is still to read: it was there when KEYS ran, and every change
      since then has an outstanding event. */
  ghost predicate Listed(c: Config, w: World, key: string) {
    ListedAt(c, w.db, w.events + w.socket, key)
  }

  ghost predicate ListedAt(c: Config, db: Db, messages: seq<Message>, key: string) {
    c.RedisKey(key) in db <==> LastData(c, messages, key) != Some("del")
  }

  /** `todo`: row keys the snapshot has not reached yet. */
  ghost predicate Inv(c: Config, w: World, todo: set<string>) {
    && WellFormed(w.db)
    && (forall k | k != "" && k !in todo :: Synced(c, w, k))
    && (forall k | k != "" && k in todo :: Listed(c, w, k))
  }

  // ---------- Parsing ----------

  lemma {:induction false} FindFirst(s: string, ch: char, j: nat)
    requires j < |s| && s[j] == ch
    ensures Position(s, ch) <= j
  {
    if s[0] != ch { FindFirst(s[1..], ch, j - 1); }
  }

  lemma {:induction false} FindAfter(a: string, ch: char, b: string)
    requires ch !in a
    ensures Position(a + [ch] + b, ch) == |a|
  {
    var s := a + [ch] + b;
    if a != [] {
      assert s[0] == a[0] && s[1..] == a[1..] + [ch] + b;
      FindAfter(a[1..], ch, b);
    }
  }

  lemma EntryNamesKey(c: Config, key: string)
    ensures EntryKey(c, c.RedisKey(key)) == Some(key) <==> c.sep !in c.table
  {
    var entry := c.RedisKey(key);
    if c.sep !in c.table {
      assert entry == c.table + [c.sep] + key;
      FindAfter(c.table, c.sep, key);
      hide Position;
      assert entry[|c.table| + 1..] == key;
    } else {
      var j :| 0 <= j < |c.table| && c.table[j] == c.sep;
      assert entry[j] == c.sep;
      FindFirst(entry, c.sep, j);
      hide Position;
      assert |entry[Position(entry, c.sep) + 1..]| > |key|;
    }
  }

  /** The key pops parses out of a channel name is the row's key exactly when the table name
      is free of the separator. */
  lemma ChannelNamesKey(c: Config, key: string, data: string)
    requires ':' !in c.dbId
    ensures EventKey(c, Message("pmessage", c.Keyspace(), c.Channel(c.RedisKey(key)), data)) == Some(key)
            <==> c.sep !in c.table
  {
    var channel, entry := c.Channel(c.RedisKey(key)), c.RedisKey(key);
    assert channel == c.Space() + [':'] + entry;
    FindAfter(c.Space(), ':', entry);
    hide Position, EntryKey;
    assert channel[|c.Space()| + 1..] == entry;
    EntryNamesKey(c, key);
  }

  lemma RedisKeyInjective(c: Config, a: string, b: string)
    requires c.RedisKey(a) == c.RedisKey(b)
    ensures a == b
  {
    assert c.RedisKey(a)[|c.Prefix()|..] == a;
    assert c.RedisKey(b)[|c.Prefix()|..] == b;
  }

  function KeyMessage(c: Config, redisKey: string, data: string): Message {
    Message("pmessage", c.Keyspace(), c.Channel(redisKey), data)
  }

  /** A key of the table is some row key behind the prefix; its messages parse to that. */
  lemma MessageKey(c: Config, redisKey: string, data: string, key: string)
    requires c.Valid() && c.Prefix() <= redisKey
    ensures EventKey(c, KeyMessage(c, redisKey, data)) == Some(key) <==> redisKey == c.RedisKey(key)
  {
    hide EventKey;
    var own := redisKey[|c.Prefix()|..];
    assert redisKey == c.RedisKey(own);
    ChannelNamesKey(c, own, data);
    if redisKey == c.RedisKey(key) {
      RedisKeyInjective(c, key, own);
    }
  }

  // ---------- How each piece of a step keeps the invariant ----------

  lemma {:induction false} LastDataSplit(c: Config, a: seq<Message>, b: seq<Message>, key: string)
    ensures LastData(c, a + b, key) ==
            if LastData(c, b, key).Some? then LastData(c, b, key) else LastData(c, a, key)
    decreases |b|
  {
    if b == [] {
      assert a + b == a;
    } else {
      assert (a + b)[..|a + b| - 1] == a + b[..|b| - 1];
      LastDataSplit(c, a, b[..|b| - 1], key);
    }
  }

  lemma LastDataOne(c: Config, m: Message, key: string)
    ensures LastData(c, [m], key) == if EventKey(c, m) == Some(key) then Some(m.data) else None
  {
    assert [m][..0] == [];
  }

  lemma LastDataOf(c: Config, redisKey: string, data: string, key: string)
    requires c.Valid() && c.Prefix() <= redisKey
    ensures LastData(c, [KeyMessage(c, redisKey, data)], key) == if redisKey == c.RedisKey(key) then Some(data) else None
  {
    hide EventKey, LastData;
    MessageKey(c, redisKey, data, key);
    LastDataOne(c, KeyMessage(c, redisKey, data), key);
  }

  lemma NoMessages(c: Config, redisKey: string, data: seq<string>, key: string)
    ensures LastData(c, [], key) == None
    ensures !(c.Prefix() <= redisKey) || data == [] ==> Published(c, redisKey, data) == []
    ensures redisKey == c.RedisKey(key) ==> c.Prefix() <= redisKey
  {
  }

  lemma LastDataPublished(c: Config, redisKey: string, data: seq<string>, key: string)
    requires c.Valid()
    requires |data| <= 2
    ensures LastData(c, Published(c, redisKey, data), key) ==
            if redisKey == c.RedisKey(key) && data != [] then Some(data[|data| - 1]) else None
  {
    NoMessages(c, redisKey, data, key);
    hide EventKey, LastData;
    if c.Prefix() <= redisKey && data != [] {
      var a := KeyMessage(c, redisKey, data[0]);
      LastDataOf(c, redisKey, data[0], key);
      if |data| == 1 {
        assert Published(c, redisKey, data) == [a];
      } else {
        var b := KeyMessage(c, redisKey, data[1]);
        assert Published(c, redisKey, data) == [a] + [b];
        LastDataOf(c, redisKey, data[1], key);
        LastDataSplit(c, [a], [b], key);
      }
    }
  }

  /** A write leaves other keys alone; on its own key the last event tells whether the row is
      there afterwards, and no event means no change. */
  lemma WriteEvents(db: Db, x: Write)
    requires WellFormed(db)
    ensures WellFormed(WriteDb(db, x))
    ensures forall k | k != x.key :: k in WriteDb(db, x) <==> k in db
    ensures forall k | k != x.key :: Lookup(WriteDb(db, x), k) == Lookup(db, k)
    ensures EventData(db, x) == [] ==> WriteDb(db, x) == db
    ensures var d := EventData(db, x);
            d != [] ==> (d[|d| - 1] == "del" <==> x.key !in WriteDb(db, x))
  {
    match x
    case HSetW(k, fvs) =>
      if fvs != [] {
        hide Merge;
        MergeKeys(Lookup(db, k), fvs);
      }
    case HDelW(k, f) =>
      if f !in Lookup(db, k) { assert Lookup(db, k) - {f} == Lookup(db, k); }
    case DelW(k) =>
  }

  lemma WriteOneInv(c: Config, w: World, x: Write, todo: set<string>)
    requires c.Valid() && Inv(c, w, todo)
    ensures Inv(c, WriteOne(c, w, x), todo)
  {
    var w' := WriteOne(c, w, x);
    var data := EventData(w.db, x);
    WriteEvents(w.db, x);
    forall k | k != ""
      ensures if k in todo then Listed(c, w', k) else Synced(c, w', k)
    {
      assert if k in todo then Listed(c, w, k) else Synced(c, w, k);
      assert w'.events + w'.socket == (w.events + w.socket) + Published(c, x.key, data);
      LastDataSplit(c, w.events + w.socket, Published(c, x.key, data), k);
      LastDataPublished(c, x.key, data, k);
    }
  }

  lemma {:induction false} WriteAllInv(c: Config, w: World, xs: seq<Write>, todo: set<string>)
    requires c.Valid() && Inv(c, w, todo)
    ensures Inv(c, WriteAll(c, w, xs), todo)
    decreases |xs|
  {
    if xs != [] {
      WriteOneInv(c, w, xs[0], todo);
      WriteAllInv(c, WriteOne(c, w, xs[0]), xs[1..], todo);
    }
  }

  lemma {:induction false} WriteAllKeeps(c: Config, w: World, xs: seq<Write>)
    ensures var w' := WriteAll(c, w, xs);
            w'.events == w.events && w'.buffer == w.buffer && w'.delivered == w.delivered
    decreases |xs|
  {
    if xs != [] { WriteAllKeeps(c, WriteOne(c, w, xs[0]), xs[1..]); }
  }

  /** Adding operations about one row leaves the view of every other row. */
  lemma ReplayAppend(ops: seq<Op>, op: Op)
    ensures Replay(ops + [op]) == ReplayOne(Replay(ops), op)
  {
    assert (ops + [op])[..|ops|] == ops;
  }

  /** The view after an event: its row follows the database, the others stay. */
  lemma EventView(c: Config, db: Db, m: Message, ops: seq<Op>, k: string)
    requires c.Valid() && WellFormed(db) && k != ""
    ensures var view := Replay(ops + EventOps(c, db, m));
            Lookup(view, k) == if EventKey(c, m) != Some(k) then Lookup(Replay(ops), k)
                               else if m.data == "del" then map[]
                               else if Get(c, db, k) == map[] then Lookup(Replay(ops), k)
                               else Get(c, db, k)
  {
    hide EventKey, Replay;
    var more := EventOps(c, db, m);
    if more == [] {
      assert ops + more == ops;
    } else {
      assert more == [more[0]];
      ReplayAppend(ops, more[0]);
    }
  }

  /** The row a consumer reads, and whether it is there. */
  lemma GetRow(c: Config, db: Db, k: string)
    requires WellFormed(db) && k != ""
    ensures Get(c, db, k) == Lookup(db, c.RedisKey(k))
    ensures c.RedisKey(k) in db <==> Get(c, db, k) != map[]
  {
  }

  lemma EventSynced(c: Config, db: Db, m: Message, later: seq<Message>, ops: seq<Op>, k: string)
    requires c.Valid() && WellFormed(db) && k != "" && SyncedAt(c, db, ops, [m] + later, k)
    ensures SyncedAt(c, db, ops + EventOps(c, db, m), later, k)
  {
    hide EventKey, EventOps, LastData, Replay, Get, Lookup, WellFormed;
    EventView(c, db, m, ops, k);
    GetRow(c, db, k);
    LastDataSplit(c, [m], later, k);
    LastDataOne(c, m, k);
  }

  lemma HandleEventSynced(c: Config, w: World, k: string)
    requires c.Valid() && WellFormed(w.db) && w.events != [] && k != "" && Synced(c, w, k)
    ensures Synced(c, HandleEvent(c, w), k)
  {
    hide SyncedAt, EventOps;
    var m, w' := w.events[0], HandleEvent(c, w);
    assert w.events + w.socket == [m] + (w'.events + w'.socket);
    assert w'.delivered + w'.buffer == (w.delivered + w.buffer) + EventOps(c, w.db, m);
    EventSynced(c, w.db, m, w'.events + w'.socket, w.delivered + w.buffer, k);
  }

  lemma HandleEventInv(c: Config, w: World)
    requires c.Valid() && Inv(c, w, {}) && w.events != []
    ensures Inv(c, HandleEvent(c, w), {})
  {
    hide Synced;
    forall k | k != ""
      ensures Synced(c, HandleEvent(c, w), k)
    {
      HandleEventSynced(c, w, k);
    }
  }

  lemma {:induction false} DrainEventsInv(c: Config, w: World, env: seq<seq<Write>>)
    requires c.Valid() && Inv(c, w, {})
    ensures Inv(c, DrainEvents(c, w, env), {})
    ensures DrainEvents(c, w, env).events == []
    decreases |w.events|
  {
    if w.events != [] {
      var w1 := WriteAll(c, w, Head(env));
      WriteAllKeeps(c, w, Head(env));
      WriteAllInv(c, w, Head(env), {});
      HandleEventInv(c, w1);
      DrainEventsInv(c, HandleEvent(c, w1), Tail(env));
    }
  }

  lemma DeliverInv(c: Config, w: World, n: nat)
    requires Inv(c, w, {}) && n <= |w.buffer|
    ensures Inv(c, Deliver(w, n), {})
  {
    var w' := Deliver(w, n);
    assert w'.delivered + w'.buffer == w.delivered + w.buffer;
    forall k | k != "" ensures Synced(c, w', k) { assert Synced(c, w, k); }
  }

  ghost function KeySet(keys: seq<string>): set<string> { set k | k in keys }

  /** Reading one listed row brings the view up to date with it. */
  lemma SnapshotOneInv(c: Config, w: World, keys: seq<string>)
    requires c.Valid() && keys != [] && Inv(c, w, KeySet(keys))
    ensures Inv(c, w.(buffer := w.buffer + SnapshotOps(c, w.db, keys[0])), KeySet(keys[1..]))
  {
    var key := keys[0];
    var w' := w.(buffer := w.buffer + SnapshotOps(c, w.db, key));
    assert forall k | k in keys :: k == key || k in keys[1..];
    forall k | k != ""
      ensures if k in KeySet(keys[1..]) then Listed(c, w', k) else Synced(c, w', k)
    {
      assert if k in KeySet(keys) then Listed(c, w, k) else Synced(c, w, k);
      if k !in KeySet(keys[1..]) {
        hide SyncedAt, ListedAt, SnapshotOps;
        assert w'.delivered + w'.buffer == (w.delivered + w.buffer) + SnapshotOps(c, w.db, key);
        SnapshotRow(c, w.db, w.delivered + w.buffer, w.events + w.socket, key, k);
      }
    }
  }

  /** Reading one listed row makes its view current unless an event is on its way, and leaves the
      other rows as they were. */
  lemma SnapshotRow(c: Config, db: Db, ops: seq<Op>, messages: seq<Message>, key: string, k: string)
    requires WellFormed(db) && k != ""
    requires if k == key then ListedAt(c, db, messages, k) else SyncedAt(c, db, ops, messages, k)
    ensures SyncedAt(c, db, ops + SnapshotOps(c, db, key), messages, k)
  {
    hide LastData, Replay;
    var more := SnapshotOps(c, db, key);
    if more == [] {
      assert ops + more == ops;
    } else {
      assert more == [more[0]];
      ReplayAppend(ops, more[0]);
    }
    GetRow(c, db, k);
  }

  lemma {:induction false} SnapshotInv(c: Config, w: World, keys: seq<string>, env: seq<seq<Write>>)
    requires c.Valid() && Inv(c, w, KeySet(keys))
    ensures Inv(c, Snapshot(c, w, keys, env), {})
    decreases |keys|
  {
    if keys != [] {
      var w1 := WriteAll(c, w, Head(env));
      WriteAllInv(c, w, Head(env), KeySet(keys));
      SnapshotOneInv(c, w1, keys);
      SnapshotInv(c, w1.(buffer := w1.buffer + SnapshotOps(c, w1.db, keys[0])), keys[1..], Tail(env));
    } else {
      assert KeySet(keys) == {};
    }
  }

  /** KEYS runs after the subscription, so what it misses has an event on the way. */
  lemma ConstructedInv(c: Config, db: Db, keys: seq<string>, env: seq<seq<Write>>)
    requires c.Valid() && WellFormed(db)
    requires Listing(c, WriteAll(c, Subscribed(db), Head(env)).db, keys)
    ensures Inv(c, Constructed(c, db, keys, env), {})
  {
    var w0 := Subscribed(db);
    var present := set rk | rk in db && c.Prefix() <= rk :: rk[|c.Prefix()|..];
    forall k ensures k in present <==> c.RedisKey(k) in db {
      if c.RedisKey(k) in db {
        assert c.Prefix() <= c.RedisKey(k) && c.RedisKey(k)[|c.Prefix()|..] == k;
      }
      if k in present {
        var rk :| rk in db && c.Prefix() <= rk && rk[|c.Prefix()|..] == k;
        assert rk == c.RedisKey(k);
      }
    }
    assert Inv(c, w0, present);
    WriteAllInv(c, w0, Head(env), present);
    var w1 := WriteAll(c, w0, Head(env));
    WriteAllKeeps(c, w0, Head(env));
    forall k | k != ""
      ensures if k in KeySet(keys) then Listed(c, w1, k) else Synced(c, w1, k)
    {
      assert if k in present then Listed(c, w1, k) else Synced(c, w1, k);
    }
    SnapshotInv(c, w1, keys, Tail(env));
  }

  // ---------- Main results ----------

  lemma StepInv(c: Config, w: World, call: Call)
    requires c.Valid() && Inv(c, w, {}) && Enabled(c, w, call)
    ensures Inv(c, Step(c, w, call), {})
  {
    var w' := Step(c, w, call);
    match call
    case Outside(ws) => WriteAllInv(c, w, ws, {});
    case Stray(m) =>
      forall k | k != "" ensures Synced(c, w', k) {
        assert Synced(c, w, k);
        assert w'.events + w'.socket == (w.events + w.socket) + [m];
        LastDataSplit(c, w.events + w.socket, [m], k);
        LastDataOne(c, m, k);
      }
    case Read(n) =>
      assert w'.events + w'.socket == w.events + w.socket;
      forall k | k != "" ensures Synced(c, w', k) { assert Synced(c, w, k); }
    case PopsCall(env) =>
      DrainEventsInv(c, w, env);
      DeliverInv(c, Refill(c, w, env), |Refill(c, w, env).buffer|);
    case PopCall(env) =>
      DrainEventsInv(c, w, env);
      var r := Refill(c, w, env);
      DeliverInv(c, r, if r.buffer == [] then 0 else 1);
  }

  lemma {:induction false} RunInv(c: Config, w: World, calls: seq<Call>)
    requires c.Valid() && Inv(c, w, {}) && IsRun(c, w, calls)
    ensures Inv(c, Run(c, w, calls), {})
    decreases |calls|
  {
    if calls != [] {
      StepInv(c, w, calls[0]);
      RunInv(c, Step(c, w, calls[0]), calls[1..]);
    }
  }

  /** Convergence: whatever the other clients write and whenever they write it, once nothing
      is outstanding the delivered operations rebuild exactly the table in the database. */
  lemma Convergence(c: Config, db: Db, keys: seq<string>, env: seq<seq<Write>>, calls: seq<Call>)
    requires c.Valid() && WellFormed(db)
    requires Listing(c, WriteAll(c, Subscribed(db), Head(env)).db, keys)
    requires IsRun(c, Constructed(c, db, keys, env), calls)
    requires Drained(Run(c, Constructed(c, db, keys, env), calls))
    ensures var w := Run(c, Constructed(c, db, keys, env), calls);
            forall k | k != "" :: Lookup(Replay(w.delivered), k) == Lookup(w.db, c.RedisKey(k))
  {
    ConstructedInv(c, db, keys, env);
    RunInv(c, Constructed(c, db, keys, env), calls);
    var w := Run(c, Constructed(c, db, keys, env), calls);
    assert w.events + w.socket == [] && w.delivered + w.buffer == w.delivered;
    forall k | k != "" ensures Lookup(Replay(w.delivered), k) == Lookup(w.db, c.RedisKey(k)) {
      assert Synced(c, w, k);
    }
  }

  lemma {:induction false} RunAndThen(c: Config, w: World, calls: seq<Call>, call: Call)
    requires IsRun(c, w, calls) && Enabled(c, Run(c, w, calls), call)
    ensures IsRun(c, w, calls + [call])
    ensures Run(c, w, calls + [call]) == Step(c, Run(c, w, calls), call)
    decreases |calls|
  {
    if calls == [] {
      assert calls + [call] == [call] && [call][1..] == [];
    } else {
      assert (calls + [call])[1..] == calls[1..] + [call];
      RunAndThen(c, Step(c, w, calls[0]), calls[1..], call);
    }
  }

  lemma PopsAlone(c: Config, w: World)
    ensures var w' := AfterPops(c, w, []);
            w'.db == w.db && w'.socket == w.socket && w'.buffer == []
            && (w.buffer == [] ==> w'.events == []) && (w.buffer != [] ==> w'.events == w.events)
  {
    DrainAlone(c, w);
  }

  /** Nothing needs luck to drain: from any state a run reaches, three calls of pops around a
      read of the whole socket deliver everything, and the view is then current. */
  lemma CatchUp(c: Config, w: World) returns (calls: seq<Call>)
    requires c.Valid() && Inv(c, w, {})
    ensures IsRun(c, w, calls)
    ensures var w' := Run(c, w, calls);
            Drained(w') && w'.db == w.db
            && forall k | k != "" :: Lookup(Replay(w'.delivered), k) == Lookup(w.db, c.RedisKey(k))
  {
    calls := [];
    RunAndThen(c, w, calls, PopsCall([]));
    PopsAlone(c, w);
    calls := calls + [PopsCall([])];
    var w1 := Run(c, w, calls);
    RunAndThen(c, w, calls, PopsCall([]));
    PopsAlone(c, w1);
    calls := calls + [PopsCall([])];
    var w2 := Run(c, w, calls);
    if w2.socket != [] {
      RunAndThen(c, w, calls, Read(|w2.socket|));
      calls := calls + [Read(|w2.socket|)];
      var w3 := Run(c, w, calls);
      RunAndThen(c, w, calls, PopsCall([]));
      PopsAlone(c, w3);
      calls := calls + [PopsCall([])];
    }
    RunInv(c, w, calls);
    CurrentWhenDrained(c, Run(c, w, calls));
  }

  lemma CurrentWhenDrained(c: Config, w: World)
    requires Inv(c, w, {}) && Drained(w)
    ensures forall k | k != "" :: Lookup(Replay(w.delivered), k) == Lookup(w.db, c.RedisKey(k))
  {
    assert w.events + w.socket == [] && w.delivered + w.buffer == w.delivered;
    forall k | k != "" ensures Lookup(Replay(w.delivered), k) == Lookup(w.db, c.RedisKey(k)) {
      assert Synced(c, w, k);
    }
  }

  lemma {:induction false} DrainAlone(c: Config, w: World)
    ensures var w' := DrainEvents(c, w, []);
            w'.db == w.db && w'.socket == w.socket && w'.events == [] && w'.delivered == w.delivered
    decreases |w.events|
  {
    if w.events != [] { DrainAlone(c, HandleEvent(c, w)); }
  }

  lemma WriteAllOne(c: Config, w: World, x: Write)
    ensures WriteAll(c, w, [x]) == WriteOne(c, w, x)
  {
    assert WriteAll(c, WriteOne(c, w, x), []) == WriteOne(c, w, x);
    assert [x][1..] == [];
  }

  /** With a separator in the table name the event of a fresh row names some other row, and
      handling it delivers nothing. */
  lemma SeparatorMisroutes(c: Config, key: string, row: Row)
    requires ':' !in c.dbId && c.sep in c.table && key != ""
    ensures var m := Message("pmessage", c.Keyspace(), c.Channel(c.RedisKey(key)), "hset");
            EventOps(c, map[c.RedisKey(key) := row], m) == []
  {
    var m := Message("pmessage", c.Keyspace(), c.Channel(c.RedisKey(key)), "hset");
    ChannelNamesKey(c, key, "hset");
    hide Position;
    match EventKey(c, m) {
      case None =>
      case Some(other) =>
        if other == "" {
          assert |c.table| < |c.RedisKey(key)|;
        } else if c.RedisKey(other) == c.RedisKey(key) {
          RedisKeyInjective(c, other, key);
        }
        assert c.KeyName(other) !in map[c.RedisKey(key) := row];
    }
  }

  /** A separator in the table name breaks convergence for every row: an HSET that is fully
      read and popped is never delivered. */
  lemma SeparatorBreaksConvergence(c: Config, key: string, field: string, value: string)
    returns (calls: seq<Call>)
    requires ':' !in c.dbId && c.sep in c.table && key != ""
    ensures var w := Constructed(c, map[], [], []);
            && Listing(c, WriteAll(c, Subscribed(map[]), []).db, [])
            && IsRun(c, w, calls)
            && Drained(Run(c, w, calls))
            && Lookup(Replay(Run(c, w, calls).delivered), key)
               != Lookup(Run(c, w, calls).db, c.RedisKey(key))
  {
    var w := Constructed(c, map[], [], []);
    var x := HSetW(c.RedisKey(key), [(field, value)]);
    calls := [];
    RunAndThen(c, w, calls, Outside([x]));
    calls := calls + [Outside([x])];
    WriteAllOne(c, w, x);
    var w1 := Run(c, w, calls);
    var row := Merge(map[], x.fvs);
    MergeKeys(map[], x.fvs);
    assert w1.db == map[x.key := row];
    assert c.Prefix() <= x.key;
    var m := Message("pmessage", c.Keyspace(), c.Channel(x.key), "hset");
    assert w1.socket == Published(c, x.key, ["hset"]) == [m];
    RunAndThen(c, w, calls, Read(1));
    calls := calls + [Read(1)];
    var w2 := Run(c, w, calls);
    assert w2.events == [m] && w2.socket == [] && w2.db == w1.db;
    RunAndThen(c, w, calls, PopsCall([]));
    calls := calls + [PopsCall([])];
    SeparatorMisroutes(c, key, row);
    var w3 := HandleEvent(c, w2);
    assert w3.events == [] && w3.buffer == [];
    assert DrainEvents(c, w3, []) == w3;
    assert DrainEvents(c, w2, []) == w3;
  }

  // ---------- The empty key ----------

  /** Nobody writes to the hash that bears the table's own name. */
  ghost predicate Spares(c: Config, xs: seq<Write>) {
    forall x | x in xs :: x.key != c.table
  }

  ghost predicate SparesAll(c: Config, env: seq<seq<Write>>) {
    forall xs | xs in env :: Spares(c, xs)
  }

  ghost predicate CallSpares(c: Config, call: Call) {
    match call
    case Outside(ws) => Spares(c, ws)
    case PopsCall(env) => SparesAll(c, env)
    case PopCall(env) => SparesAll(c, env)
    case _ => true
  }

  ghost predicate NoEmptySet(ops: seq<Op>) {
    forall op | op in ops && op.SetOp? :: op.key != ""
  }

  ghost predicate Bare(c: Config, w: World) {
    c.table !in w.db && NoEmptySet(w.delivered) && NoEmptySet(w.buffer)
  }

  lemma {:induction false} WriteAllBare(c: Config, w: World, xs: seq<Write>)
    requires Bare(c, w) && Spares(c, xs)
    ensures Bare(c, WriteAll(c, w, xs))
    decreases |xs|
  {
    if xs != [] {
      hide Published;
      assert xs[0] in xs && forall x | x in xs[1..] :: x in xs;
      WriteAllBare(c, WriteOne(c, w, xs[0]), xs[1..]);
    }
  }

  lemma SparesHead(c: Config, env: seq<seq<Write>>)
    requires SparesAll(c, env)
    ensures Spares(c, Head(env)) && SparesAll(c, Tail(env))
  {
  }

  /** What is read under the empty key is the hash without the separator. */
  lemma EventOpsBare(c: Config, db: Db, m: Message)
    requires c.table !in db
    ensures NoEmptySet(EventOps(c, db, m))
  {
    hide EventKey;
  }

  lemma {:induction false} DrainEventsBare(c: Config, w: World, env: seq<seq<Write>>)
    requires Bare(c, w) && SparesAll(c, env)
    ensures Bare(c, DrainEvents(c, w, env))
    decreases |w.events|
  {
    if w.events != [] {
      hide WriteAll, EventOps;
      SparesHead(c, env);
      WriteAllBare(c, w, Head(env));
      WriteAllKeeps(c, w, Head(env));
      var w1 := WriteAll(c, w, Head(env));
      EventOpsBare(c, w1.db, w1.events[0]);
      DrainEventsBare(c, HandleEvent(c, w1), Tail(env));
    }
  }

  lemma {:induction false} SnapshotBare(c: Config, w: World, keys: seq<string>, env: seq<seq<Write>>)
    requires Bare(c, w) && SparesAll(c, env)
    ensures Bare(c, Snapshot(c, w, keys, env))
    decreases |keys|
  {
    if keys != [] {
      hide WriteAll;
      SparesHead(c, env);
      WriteAllBare(c, w, Head(env));
      var w1 := WriteAll(c, w, Head(env));
      SnapshotBare(c, w1.(buffer := w1.buffer + SnapshotOps(c, w1.db, keys[0])), keys[1..], Tail(env));
    }
  }

  lemma StepBare(c: Config, w: World, call: Call)
    requires Bare(c, w) && Enabled(c, w, call) && CallSpares(c, call)
    ensures Bare(c, Step(c, w, call))
  {
    hide WriteAll, DrainEvents;
    match call
    case Outside(ws) => WriteAllBare(c, w, ws);
    case PopsCall(env) => DrainEventsBare(c, w, env);
    case PopCall(env) => DrainEventsBare(c, w, env);
    case _ =>
  }

  lemma {:induction false} RunBare(c: Config, w: World, calls: seq<Call>)
    requires Bare(c, w) && IsRun(c, w, calls) && forall call | call in calls :: CallSpares(c, call)
    ensures Bare(c, Run(c, w, calls))
    decreases |calls|
  {
    if calls != [] {
      hide Bare, Step, CallSpares;
      assert calls[0] in calls && forall call | call in calls[1..] :: call in calls;
      StepBare(c, w, calls[0]);
      RunBare(c, Step(c, w, calls[0]), calls[1..]);
    }
  }

  lemma {:induction false} ReplayBare(ops: seq<Op>)
    requires NoEmptySet(ops)
    ensures Lookup(Replay(ops), "") == map[]
    decreases |ops|
  {
    if ops != [] {
      assert ops[|ops| - 1] in ops && forall op | op in ops[..|ops| - 1] :: op in ops;
      ReplayBare(ops[..|ops| - 1]);
    }
  }

  /** The empty row key is outside the promise, for every database and every run in which nobody
      writes to the hash that bears the table's own name: Table::get reads that hash, so a row under
      the empty key is never delivered, however often it is written. */
  lemma EmptyKeyNeverDelivered(c: Config, db: Db, keys: seq<string>, env: seq<seq<Write>>, calls: seq<Call>)
    requires c.table !in db && SparesAll(c, env) && forall call | call in calls :: CallSpares(c, call)
    requires IsRun(c, Constructed(c, db, keys, env), calls)
    ensures Lookup(Replay(Run(c, Constructed(c, db, keys, env), calls).delivered), "") == map[]
  {
    hide WriteAll, Snapshot, Run, Replay;
    SparesHead(c, env);
    WriteAllBare(c, Subscribed(db), Head(env));
    SnapshotBare(c, WriteAll(c, Subscribed(db), Head(env)), keys, Tail(env));
    RunBare(c, Constructed(c, db, keys, env), calls);
    ReplayBare(Run(c, Constructed(c, db, keys, env), calls).delivered);
  }

  // ---------- The objects ----------

  class Redis {
    var db: Db
    var socket: seq<Message>

    method Write(c: Config, xs: seq<Write>)
      modifies this
      ensures var w := WriteAll(c, World(old(db), old(socket), [], [], []), xs);
              db == w.db && socket == w.socket
    {
      ghost var w0 := World(db, socket, [], [], []);
      var i := 0;
      while i < |xs|
        invariant i <= |xs|
        invariant WriteAll(c, World(db, socket, [], [], []), xs[i..]) == WriteAll(c, w0, xs)
      {
        assert xs[i..][1..] == xs[i + 1..];
        db, socket := WriteDb(db, xs[i]), socket + Published(c, xs[i].key, EventData(db, xs[i]));
        i := i + 1;
      }
    }
  }

  lemma SnapshotFirst(c: Config, w: World, keys: seq<string>, i: nat, env: seq<seq<Write>>)
    requires i < |keys|
    ensures var w1 := WriteAll(c, w, Head(env));
            Snapshot(c, w, keys[i..], env)
            == Snapshot(c, w1.(buffer := w1.buffer + SnapshotOps(c, w1.db, keys[i])), keys[i + 1..], Tail(env))
  {
    hide WriteAll, SnapshotOps;
    assert keys[i..][0] == keys[i] && keys[i..][1..] == keys[i + 1..];
  }

  lemma SnapshotNone(c: Config, w: World, env: seq<seq<Write>>)
    ensures Snapshot(c, w, [], env) == w
  {
  }

  /** Writes act on the database and the socket only, whatever the subscriber holds. */
  lemma {:induction false} WriteAllFrame(c: Config, w: World, xs: seq<Write>)
    ensures var r := WriteAll(c, World(w.db, w.socket, [], [], []), xs);
            WriteAll(c, w, xs) == w.(db := r.db, socket := r.socket)
    decreases |xs|
  {
    if xs != [] {
      var w1 := WriteOne(c, w, xs[0]);
      WriteAllFrame(c, w1, xs[1..]);
    }
  }

  class SubscriberStateTable {
    const c: Config
    const redis: Redis
    var buffer: seq<Op>
    var events: seq<Message>
    ghost var delivered: seq<Op>

    ghost function State(): World
      reads this, redis
    {
      World(redis.db, redis.socket, events, buffer, delivered)
    }

    /** `keys` is the reply KEYS gives at the moment it runs. */
    constructor (c: Config, redis: Redis, keys: seq<string>, env: seq<seq<Write>>)
      requires Listing(c, WriteAll(c, Subscribed(redis.db), Head(env)).db, keys)
      modifies redis
      ensures this.c == c && this.redis == redis
      ensures State() == Constructed(c, old(redis.db), keys, env)
    {
      this.c, this.redis := c, redis;
      buffer, events, delivered := [], [], [];
      new;
      redis.socket := [];
      Interference(Head(env));
      LoadSnapshot(keys, Tail(env));
    }

    /** Writes by other clients, at any point between two commands of this one. */
    method Interference(xs: seq<Write>)
      modifies redis
      ensures State() == WriteAll(c, old(State()), xs)
    {
      WriteAllFrame(c, State(), xs);
      redis.Write(c, xs);
    }

    method LoadSnapshot(keys: seq<string>, env: seq<seq<Write>>)
      modifies this, redis
      ensures State() == Snapshot(c, old(State()), keys, env)
    {
      hide WriteAll, Get, Snapshot;
      var rest := env;
      assert keys[0..] == keys;
      for i := 0 to |keys|
        invariant Snapshot(c, State(), keys[i..], rest) == Snapshot(c, old(State()), keys, env)
      {
        SnapshotFirst(c, State(), keys, i, rest);
        Interference(Head(rest));
        LoadRow(keys[i]);
        rest := Tail(rest);
      }
      assert keys[|keys|..] == [];
      SnapshotNone(c, State(), rest);
    }

    /** One listed row, if it is still there. */
    method LoadRow(key: string)
      modifies this`buffer
      ensures State() == old(State()).(buffer := old(buffer) + SnapshotOps(c, redis.db, key))
    {
      var row := Get(c, redis.db, key);
      if row != map[] {
        buffer := buffer + [SetOp(key, row)];
      } else {
        assert buffer + [] == buffer;
      }
    }

    /** One blocking read, then the replies already received; `n` of them succeed before the reader
        runs dry or fails, and those are kept in either case (the source throws on a failure). */
    method ReadData(n: nat, fails: bool) returns (ok: bool)
      requires n <= |redis.socket| && (n == 0 ==> fails)
      modifies this, redis
      ensures State() == AfterRead(old(State()), n) && ok == !fails
    {
      var i := 0;
      while i < n
        invariant i <= n <= |old(redis.socket)|
        invariant events == old(events) + old(redis.socket)[..i]
        invariant redis.socket == old(redis.socket)[i..]
        invariant redis.db == old(redis.db) && buffer == old(buffer) && delivered == old(delivered)
      {
        events := events + [redis.socket[0]];
        redis.socket := redis.socket[1..];
        i := i + 1;
      }
      ok := !fails;
    }

    method PopEventBuffer() returns (m: Option<Message>)
      modifies this`events
      ensures old(events) == [] ==> m == None && events == []
      ensures old(events) != [] ==> m == Some(old(events)[0]) && events == old(events)[1..]
    {
      if events == [] {
        return None;
      }
      m := Some(events[0]);
      events := events[1..];
    }

    /** Returns the whole buffer, or else one operation list for all buffered events. */
    method Pops(env: seq<seq<Write>>) returns (vkco: seq<Op>)
      modifies this, redis
      ensures State() == AfterPops(c, old(State()), env)
      ensures delivered == old(delivered) + vkco
    {
      if buffer != [] {
        vkco := buffer;
        delivered := delivered + vkco;
        buffer := [];
        return;
      }
      vkco := Drain(env);
      delivered := delivered + vkco;
    }

    method Drain(env: seq<seq<Write>>) returns (vkco: seq<Op>)
      requires buffer == []
      modifies this, redis
      ensures delivered == old(delivered) && buffer == []
      ensures State().(buffer := vkco) == DrainEvents(c, old(State()), env)
    {
      vkco := [];
      var rest := env;
      while events != []
        invariant buffer == [] && delivered == old(delivered)
        invariant DrainEvents(c, State().(buffer := vkco), rest) == DrainEvents(c, old(State()), env)
        decreases |events|
      {
        WriteAllFrame(c, State().(buffer := vkco), Head(rest));
        WriteAllFrame(c, State(), Head(rest));
        Interference(Head(rest));
        var event := PopEventBuffer();
        rest := Tail(rest);
        ghost var ops := EventOps(c, redis.db, event.value);
        ghost var before := vkco;
        match EventKey(c, event.value) {
          case None =>
          case Some(key) =>
            if event.value.data == "del" {
              vkco := vkco + [DelOp(key)];
            } else {
              var row := Get(c, redis.db, key);
              if row != map[] {
                vkco := vkco + [SetOp(key, row)];
              }
            }
        }
        assert vkco == before + ops;
      }
    }

    /** ConsumerTableBase::pop: refill the buffer through pops when it is empty. */
    method Pop(env: seq<seq<Write>>) returns (kco: Option<Op>)
      modifies this, redis
      ensures State() == AfterPop(c, old(State()), env)
      ensures kco.None? ==> delivered == old(delivered)
      ensures kco.Some? ==> delivered == old(delivered) + [kco.value]
    {
      hide DrainEvents;
      if buffer == [] {
        buffer := Drain(env);
        if buffer == [] {
          assert delivered + [] == delivered;
          return None;
        }
      }
      kco := Some(buffer[0]);
      delivered := delivered + [buffer[0]];
      buffer := buffer[1..];
    }
  }
}
