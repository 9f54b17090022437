/** The pending state of a state table: what coalesced sets and deletes mean, that popping
    keeps that meaning, and what a view switch leaves behind. */
module ProducerState {
  import opened Tables
  import opened ProducerScripts

  // ---------- Names that cannot clash ----------

  function RowName(n: Names, key: string): string { n.Prefix() + key }
  function StateName(n: Names, key: string): string { n.StatePrefix() + key }
  function KeySetName(n: Names): string { n.KeySet() }
  function DelSetName(n: Names): string { n.DelSet() }

  lemma {:induction false} OnlyUnderscores(n: Names, x: string, i: nat)
    requires "_" + n.table <= n.Prefix() + x && i <= |n.table|
    ensures ("_" + n.table)[i] == '_'
  {
    if i > 0 {
      OnlyUnderscores(n, x, i - 1);
      assert ("_" + n.table)[i] == n.table[i - 1] == (n.Prefix() + x)[i - 1] == ("_" + n.table)[i - 1];
    }
  }

  /** No row's name starts like the name of a pending hash. */
  lemma NotPending(n: Names, x: string)
    requires n.Valid()
    ensures !("_" + n.table <= n.Prefix() + x)
  {
    if "_" + n.table <= n.Prefix() + x {
      assert ("_" + n.table)[|n.table|] == (n.Prefix() + x)[|n.table|] == n.sep;
      OnlyUnderscores(n, x, |n.table|);
      assert false;
    }
  }

  lemma NamesApart(n: Names)
    requires n.Valid()
    ensures KeySetName(n) != DelSetName(n)
    ensures forall a, b :: StateName(n, a) != RowName(n, b)
    ensures forall a, b :: StateName(n, a) == StateName(n, b) ==> a == b
    ensures forall a, b :: RowName(n, a) == RowName(n, b) ==> a == b
    ensures forall a :: n.StateHash("") != StateName(n, a) && n.StateHash("") != RowName(n, a)
  {
    forall a ensures n.StateHash("") != StateName(n, a) && n.StateHash("") != RowName(n, a) {
      PrefixedNames(n, a);
      NotPending(n, a);
    }
    assert n.KeySet()[|n.table|..] == "_KEY_SET" && n.DelSet()[|n.table|..] == "_DEL_SET";
    forall a, b ensures StateName(n, a) != RowName(n, b) {
      NotPending(n, b);
      assert StateName(n, a) == ("_" + n.table) + ([n.sep] + a);
    }
    forall a, b | StateName(n, a) == StateName(n, b) ensures a == b {
      assert StateName(n, a)[|n.StatePrefix()|..] == a && StateName(n, b)[|n.StatePrefix()|..] == b;
    }
    forall a, b | RowName(n, a) == RowName(n, b) ensures a == b {
      assert RowName(n, a)[|n.Prefix()|..] == a && RowName(n, b)[|n.Prefix()|..] == b;
    }
  }

  /** The hash a single operation addresses: the pending row's, except for the empty key. */
  function HashFor(n: Names, key: string): string {
    if key == "" then n.StateHash("") else StateName(n, key)
  }

  /** The single operations, in these names. */
  lemma SingleNames(n: Names, r: Redis, key: string, fvs: FieldValues)
    ensures SetSpec(n, r, key, fvs).redis == HSets(SAdd(r, KeySetName(n), key), HashFor(n, key), fvs)
    ensures DelSpec(n, r, key).redis == DelHash(SAdd(SAdd(r, KeySetName(n), key), DelSetName(n), key), HashFor(n, key))
  {
    HashNames(n, key);
  }

  // ---------- The consumer's pop script ----------

  function TableRow(n: Names, r: Redis, key: string): Row { Lookup(r.hashes, RowName(n, key)) }
  function PendingRow(n: Names, r: Redis, key: string): Row { Lookup(r.hashes, StateName(n, key)) }
  function Keys(n: Names, r: Redis): set<string> { SetOf(r, KeySetName(n)) }
  function Dels(n: Names, r: Redis): set<string> { SetOf(r, DelSetName(n)) }

  /** One key: clear the row if it is marked deleted, merge the pending fields, forget both. */
  function PopKey(n: Names, r: Redis, key: string): Redis {
    var r1 := if key in Dels(n, r) then DelHash(SRem(r, DelSetName(n), key), RowName(n, key)) else r;
    var pending := PendingRow(n, r1, key);
    var r2 := if pending == map[] then r1
              else r1.(hashes := PutRow(r1.hashes, RowName(n, key), TableRow(n, r1, key) + pending));
    DelHash(r2, StateName(n, key))
  }

  function PopLoop(n: Names, r: Redis, keys: seq<string>): Redis
    decreases |keys|
  {
    if keys == [] then r else PopLoop(n, PopKey(n, r, keys[0]), keys[1..])
  }

  /** SPOP takes the keys out of the key set first. */
  function Popping(n: Names, r: Redis, keys: seq<string>): Redis {
    r.(sets := r.sets[KeySetName(n) := Keys(n, r) - (set k | k in keys)])
  }

  function Popped(n: Names, r: Redis, keys: seq<string>): Redis {
    PopLoop(n, Popping(n, r, keys), keys)
  }

  // ---------- The meaning of pending state ----------

  /** The row the table will hold once everything pending has been popped. */
  function Effective(n: Names, r: Redis, key: string): Row {
    (if key in Dels(n, r) then map[] else TableRow(n, r, key)) + PendingRow(n, r, key)
  }

  /** Everything pending is announced in the key set. `popping` are keys already taken out. */
  ghost predicate Coherent(n: Names, r: Redis, popping: set<string>) {
    && WellFormed(r.hashes)
    && Dels(n, r) <= Keys(n, r) + popping
    && forall k | PendingRow(n, r, k) != map[] :: k in Keys(n, r) + popping
  }

  datatype Op = SetOp(key: string, fvs: FieldValues) | DelOp(key: string) | PopOp(keys: seq<string>)

  ghost predicate Enabled(n: Names, r: Redis, op: Op) {
    match op
    case SetOp(_, _) => true
    case DelOp(_) => true
    case PopOp(keys) => forall k | k in keys :: k in Keys(n, r)
  }

  function Step(n: Names, r: Redis, op: Op): Redis {
    match op
    case SetOp(k, fvs) => SetSpec(n, r, k, fvs).redis
    case DelOp(k) => DelSpec(n, r, k).redis
    case PopOp(keys) => Popped(n, r, keys)
  }

  /** The same operation applied straight to a table. */
  function Direct(t: Db, op: Op): Db {
    match op
    case SetOp(k, fvs) => HSet(t, k, fvs)
    case DelOp(k) => Del(t, k)
    case PopOp(_) => t
  }

  ghost predicate IsRun(n: Names, r: Redis, ops: seq<Op>)
    decreases |ops|
  {
    ops == [] || (Enabled(n, r, ops[0]) && IsRun(n, Step(n, r, ops[0]), ops[1..]))
  }

  ghost function Run(n: Names, r: Redis, ops: seq<Op>): Redis
    decreases |ops|
  {
    if ops == [] then r else Run(n, Step(n, r, ops[0]), ops[1..])
  }

  ghost function Replay(t: Db, ops: seq<Op>): Db
    decreases |ops|
  {
    if ops == [] then t else Replay(Direct(t, ops[0]), ops[1..])
  }

  /** The pending state stands for the table `t`. */
  ghost predicate Means(n: Names, r: Redis, t: Db) {
    forall k | k != "" :: Effective(n, r, k) == Lookup(t, k)
  }

  // ---------- What each operation does to the four parts ----------

  lemma SetParts(n: Names, r: Redis, key: string, fvs: FieldValues)
    requires n.Valid() && WellFormed(r.hashes)
    ensures var r' := SetSpec(n, r, key, fvs).redis;
            && WellFormed(r'.hashes)
            && Dels(n, r') == Dels(n, r) && Keys(n, r') == Keys(n, r) + {key}
            && (forall k :: TableRow(n, r', k) == TableRow(n, r, k))
            && (forall k :: PendingRow(n, r', k) == if k == key && key != "" then Merge(PendingRow(n, r, k), fvs) else PendingRow(n, r, k))
  {
    hide RowName, StateName, KeySetName, DelSetName, SetSpec, Merge, HSet;
    NamesApart(n);
    SingleNames(n, r, key, fvs);
    var r1 := SAdd(r, KeySetName(n), key);
    HSetsLookup(r1, HashFor(n, key), fvs);
  }

  lemma HSetsLookup(r: Redis, name: string, fvs: FieldValues)
    requires WellFormed(r.hashes)
    ensures var r' := HSets(r, name, fvs);
            && r'.sets == r.sets && WellFormed(r'.hashes)
            && Lookup(r'.hashes, name) == Merge(Lookup(r.hashes, name), fvs)
            && forall k | k != name :: Lookup(r'.hashes, k) == Lookup(r.hashes, k)
  {
    PutRowLookup(r.hashes, name, Merge(Lookup(r.hashes, name), fvs));
  }

  lemma DelParts(n: Names, r: Redis, key: string)
    requires n.Valid() && WellFormed(r.hashes)
    ensures var r' := DelSpec(n, r, key).redis;
            && WellFormed(r'.hashes)
            && Dels(n, r') == Dels(n, r) + {key} && Keys(n, r') == Keys(n, r) + {key}
            && (forall k :: TableRow(n, r', k) == TableRow(n, r, k))
            && (forall k :: PendingRow(n, r', k) == if k == key && key != "" then map[] else PendingRow(n, r, k))
  {
    hide RowName, StateName, KeySetName, DelSetName, DelSpec;
    NamesApart(n);
    SingleNames(n, r, key, []);
  }

  /** Dropping one hash, and replacing one table row. */
  lemma HashParts(n: Names, r: Redis, key: string, row: Row)
    requires n.Valid() && WellFormed(r.hashes)
    ensures var r' := r.(hashes := PutRow(r.hashes, RowName(n, key), row));
            && WellFormed(r'.hashes)
            && (forall k :: TableRow(n, r', k) == if k == key then row else TableRow(n, r, k))
            && (forall k :: PendingRow(n, r', k) == PendingRow(n, r, k))
    ensures var r' := DelHash(r, StateName(n, key));
            && WellFormed(r'.hashes)
            && (forall k :: TableRow(n, r', k) == TableRow(n, r, k))
            && (forall k :: PendingRow(n, r', k) == if k == key then map[] else PendingRow(n, r, k))
  {
    hide RowName, StateName;
    NamesApart(n);
    PutRowLookup(r.hashes, RowName(n, key), row);
  }

  lemma PopKeyParts(n: Names, r: Redis, key: string)
    requires n.Valid() && WellFormed(r.hashes)
    ensures var r' := PopKey(n, r, key);
            && WellFormed(r'.hashes)
            && Keys(n, r') == Keys(n, r) && Dels(n, r') == Dels(n, r) - {key}
            && (forall k :: TableRow(n, r', k) == if k == key then Effective(n, r, k) else TableRow(n, r, k))
            && (forall k :: PendingRow(n, r', k) == if k == key then map[] else PendingRow(n, r, k))
  {
    hide RowName, StateName, KeySetName, DelSetName, TableRow, PendingRow;
    NamesApart(n);
    var base := if key in Dels(n, r) then map[] else TableRow(n, r, key);
    HashParts(n, r, key, map[]);
    var r1 := if key in Dels(n, r) then DelHash(SRem(r, DelSetName(n), key), RowName(n, key)) else r;
    SameHashes(n, r.(hashes := Del(r.hashes, RowName(n, key))), r1);
    SameHashes(n, r, r1);
    assert TableRow(n, r1, key) == base;
    var pending := PendingRow(n, r1, key);
    HashParts(n, r1, key, base + pending);
    assert base + map[] == base;
    var r2 := if pending == map[] then r1
              else r1.(hashes := PutRow(r1.hashes, RowName(n, key), base + pending));
    HashParts(n, r2, key, map[]);
  }

  lemma SameHashes(n: Names, a: Redis, b: Redis)
    ensures a.hashes == b.hashes ==>
              forall k :: TableRow(n, a, k) == TableRow(n, b, k) && PendingRow(n, a, k) == PendingRow(n, b, k)
  {
  }

  // ---------- Each operation keeps the meaning ----------

  lemma OverlayAssociative(a: Row, b: Row, c: Row)
    ensures a + (b + c) == (a + b) + c
  {
  }

  lemma SetMeans(n: Names, r: Redis, key: string, fvs: FieldValues)
    requires n.Valid() && Coherent(n, r, {})
    ensures var r' := SetSpec(n, r, key, fvs).redis;
            && Coherent(n, r', {})
            && (key != "" ==> Effective(n, r', key) == Merge(Effective(n, r, key), fvs))
            && forall k | k != key || key == "" :: Effective(n, r', k) == Effective(n, r, k)
  {
    hide TableRow, PendingRow, Keys, Dels, SetSpec, Merge;
    SetParts(n, r, key, fvs);
    var h := PendingRow(n, r, key);
    var base := if key in Dels(n, r) then map[] else TableRow(n, r, key);
    MergeOverlay(h, fvs);
    MergeOverlay(base + h, fvs);
    OverlayAssociative(base, h, Merge(map[], fvs));
  }

  lemma DelMeans(n: Names, r: Redis, key: string)
    requires n.Valid() && Coherent(n, r, {})
    ensures var r' := DelSpec(n, r, key).redis;
            && Coherent(n, r', {})
            && Effective(n, r', key) == (if key == "" then PendingRow(n, r, key) else map[])
            && forall k | k != key :: Effective(n, r', k) == Effective(n, r, k)
  {
    hide TableRow, PendingRow, Keys, Dels, DelSpec;
    DelParts(n, r, key);
  }

  lemma {:induction false} PopLoopMeans(n: Names, r: Redis, keys: seq<string>)
    requires n.Valid() && Coherent(n, r, set k | k in keys)
    ensures Coherent(n, PopLoop(n, r, keys), {})
    ensures forall k :: Effective(n, PopLoop(n, r, keys), k) == Effective(n, r, k)
    decreases |keys|
  {
    if keys == [] {
      assert (set k | k in keys) == {};
    } else {
      hide PopKey, TableRow, PendingRow, Keys, Dels;
      PopKeyParts(n, r, keys[0]);
      var r' := PopKey(n, r, keys[0]);
      assert forall k | k in keys :: k == keys[0] || k in keys[1..];
      assert TableRow(n, r', keys[0]) + map[] == TableRow(n, r', keys[0]);
      PopLoopMeans(n, r', keys[1..]);
    }
  }

  lemma StepMeans(n: Names, r: Redis, op: Op, t: Db)
    requires n.Valid() && Coherent(n, r, {}) && Enabled(n, r, op) && Means(n, r, t)
    ensures Coherent(n, Step(n, r, op), {}) && Means(n, Step(n, r, op), Direct(t, op))
  {
    hide Effective, SetSpec, DelSpec, PopLoop;
    match op
    case SetOp(k, fvs) => SetMeans(n, r, k, fvs);
    case DelOp(k) => DelMeans(n, r, k);
    case PopOp(keys) =>
      PoppingMeans(n, r, keys);
      PopLoopMeans(n, Popping(n, r, keys), keys);
  }

  lemma PoppingMeans(n: Names, r: Redis, keys: seq<string>)
    requires n.Valid() && Coherent(n, r, {})
    ensures var r1 := Popping(n, r, keys);
            Coherent(n, r1, set k | k in keys) && forall k :: Effective(n, r1, k) == Effective(n, r, k)
  {
    NamesApart(n);
  }

  /** With nothing pending the table stands for itself: where every run may start. */
  lemma NothingPending(n: Names, r: Redis, t: Db)
    requires WellFormed(r.hashes) && Keys(n, r) == {} && Dels(n, r) == {}
    requires forall k :: PendingRow(n, r, k) == map[]
    ensures Coherent(n, r, {})
    ensures Means(n, r, t) <==> forall k | k != "" :: TableRow(n, r, k) == Lookup(t, k)
  {
    assert forall k :: TableRow(n, r, k) + map[] == TableRow(n, r, k);
  }

  /** Coalescing preserves meaning: however sets, deletes and pops of any keys interleave, the
      table with the pending state applied is the table every operation was replayed on; and
      the delete set and the pending hashes stay inside the key set. */
  lemma {:induction false} CoalescingPreservesMeaning(n: Names, r: Redis, ops: seq<Op>, t: Db)
    requires n.Valid() && Coherent(n, r, {}) && IsRun(n, r, ops) && Means(n, r, t)
    ensures Coherent(n, Run(n, r, ops), {}) && Means(n, Run(n, r, ops), Replay(t, ops))
    decreases |ops|
  {
    hide Means, Step, Coherent;
    if ops != [] {
      StepMeans(n, r, ops[0], t);
      CoalescingPreservesMeaning(n, Step(n, r, ops[0]), ops[1..], Direct(t, ops[0]));
    }
  }

  /** Once the key set is empty the consumer's table itself is the replayed table. */
  lemma PoppedDry(n: Names, r: Redis, t: Db)
    requires Coherent(n, r, {}) && Means(n, r, t) && Keys(n, r) == {}
    ensures forall k | k != "" :: TableRow(n, r, k) == Lookup(t, k)
  {
    forall k | k != "" ensures TableRow(n, r, k) == Lookup(t, k) {
      assert k !in Keys(n, r) + {};
      assert PendingRow(n, r, k) == map[];
      assert TableRow(n, r, k) + map[] == TableRow(n, r, k);
      assert Effective(n, r, k) == Lookup(t, k);
    }
  }

  /** The empty key is outside the promise: a single set writes a hash that no pop looks at. */
  lemma EmptyKeyIsLost(n: Names, field: string, value: string)
    requires n.Valid()
    ensures var r := SetSpec(n, Redis(map[], map[]), "", [(field, value)]).redis;
            && "" in Keys(n, r)
            && TableRow(n, Popped(n, r, [""]), "") == map[]
            && Lookup(Popped(n, r, [""]).hashes, n.StateHash("")) != map[]
  {
    var fvs := [(field, value)];
    var name := n.StateHash("");
    var r := SetSpec(n, Redis(map[], map[]), "", fvs).redis;
    assert Merge(map[], fvs) == map[field := value] by { assert fvs[1..] == []; }
    assert r.hashes == HSet(map[], name, fvs);
    assert field in Merge(map[], fvs);
    assert r.hashes == map[name := map[field := value]];
    assert |name| < |StateName(n, "")|;
    NotPending(n, "");
    assert name != RowName(n, "");
    var r1 := Popping(n, r, [""]);
    assert Dels(n, r1) == {} by { NamesApart(n); }
    assert PopKey(n, r1, "").hashes == r.hashes;
    assert [""][1..] == [] && PopLoop(n, PopKey(n, r1, ""), []) == PopKey(n, r1, "");
    assert Popped(n, r, [""]) == PopKey(n, r1, "");
  }

  // ---------- What the consumer is told ----------

  /** ConsumerStateTable::pops: fields make a SET, no fields a DEL. A consumer that keeps its own
      copy merges a SET and drops the row on a DEL. */
  function Delivered(copy: Row, pending: Row): Row {
    if pending == map[] then map[] else copy + pending
  }

  /** The coalesced operation hides nothing: a delete followed by sets overwrites every old field,
      and a set without fields finds no row. */
  ghost predicate Plain(n: Names, r: Redis, key: string) {
    if PendingRow(n, r, key) == map[] then key in Dels(n, r) || TableRow(n, r, key) == map[]
    else key in Dels(n, r) ==> TableRow(n, r, key).Keys <= PendingRow(n, r, key).Keys
  }

  lemma DeliveryPlain(n: Names, r: Redis, key: string)
    ensures Delivered(TableRow(n, r, key), PendingRow(n, r, key)) == Effective(n, r, key) <==> Plain(n, r, key)
  {
    var row, pending := TableRow(n, r, key), PendingRow(n, r, key);
    assert row + map[] == row && map[] + pending == pending;
    if row.Keys <= pending.Keys {
      assert row + pending == pending;
    } else {
      var f :| f in row.Keys && f !in pending.Keys;
      assert f in row + pending;
    }
  }

  /** The consumer's copy after one popped key. */
  function Told(n: Names, r: Redis, copy: Db, key: string): Db {
    PutRow(copy, key, Delivered(Lookup(copy, key), PendingRow(n, r, key)))
  }

  function ToldAll(n: Names, r: Redis, copy: Db, keys: seq<string>): Db
    decreases |keys|
  {
    if keys == [] then copy else ToldAll(n, PopKey(n, r, keys[0]), Told(n, r, copy, keys[0]), keys[1..])
  }

  /** The copy of a consumer fed by every pop of a run. */
  function Copied(n: Names, r: Redis, copy: Db, ops: seq<Op>): Db
    decreases |ops|
  {
    if ops == [] then copy
    else Copied(n, Step(n, r, ops[0]),
                if ops[0].PopOp? then ToldAll(n, Popping(n, r, ops[0].keys), copy, ops[0].keys) else copy, ops[1..])
  }

  ghost predicate Matches(n: Names, r: Redis, copy: Db) {
    forall k :: Lookup(copy, k) == TableRow(n, r, k)
  }

  /** After each popped key the copy holds the row that the table holds. */
  ghost predicate FollowsPops(n: Names, r: Redis, copy: Db, keys: seq<string>)
    decreases |keys|
  {
    keys == [] ||
    (&& Lookup(Told(n, r, copy, keys[0]), keys[0]) == TableRow(n, PopKey(n, r, keys[0]), keys[0])
     && FollowsPops(n, PopKey(n, r, keys[0]), Told(n, r, copy, keys[0]), keys[1..]))
  }

  ghost predicate Follows(n: Names, r: Redis, copy: Db, ops: seq<Op>)
    decreases |ops|
  {
    ops == [] ||
    if ops[0].PopOp? then
      && FollowsPops(n, Popping(n, r, ops[0].keys), copy, ops[0].keys)
      && Follows(n, Step(n, r, ops[0]), ToldAll(n, Popping(n, r, ops[0].keys), copy, ops[0].keys), ops[1..])
    else Follows(n, Step(n, r, ops[0]), copy, ops[1..])
  }

  /** Every popped key is plain at its pop. */
  ghost predicate PlainPops(n: Names, r: Redis, keys: seq<string>)
    decreases |keys|
  {
    keys == [] || (Plain(n, r, keys[0]) && PlainPops(n, PopKey(n, r, keys[0]), keys[1..]))
  }

  ghost predicate PlainRun(n: Names, r: Redis, ops: seq<Op>)
    decreases |ops|
  {
    ops == [] ||
    (&& (ops[0].PopOp? ==> PlainPops(n, Popping(n, r, ops[0].keys), ops[0].keys))
     && PlainRun(n, Step(n, r, ops[0]), ops[1..]))
  }

  lemma ToldMatches(n: Names, r: Redis, copy: Db, key: string)
    requires n.Valid() && WellFormed(r.hashes) && Matches(n, r, copy)
    ensures Lookup(Told(n, r, copy, key), key) == TableRow(n, PopKey(n, r, key), key) <==> Plain(n, r, key)
    ensures Plain(n, r, key) ==> Matches(n, PopKey(n, r, key), Told(n, r, copy, key))
    ensures WellFormed(PopKey(n, r, key).hashes)
  {
    hide PopKey, TableRow, PendingRow, Effective, Plain, Delivered, PutRow;
    PopKeyParts(n, r, key);
    DeliveryPlain(n, r, key);
    PutRowLookup(copy, key, Delivered(Lookup(copy, key), PendingRow(n, r, key)));
  }

  lemma {:induction false} PopsFollowed(n: Names, r: Redis, copy: Db, keys: seq<string>)
    requires n.Valid() && WellFormed(r.hashes) && Matches(n, r, copy)
    ensures FollowsPops(n, r, copy, keys) <==> PlainPops(n, r, keys)
    ensures PlainPops(n, r, keys) ==> Matches(n, PopLoop(n, r, keys), ToldAll(n, r, copy, keys))
    ensures WellFormed(PopLoop(n, r, keys).hashes)
    decreases |keys|
  {
    hide PopKey, TableRow, Told, Plain, Matches, WellFormed;
    if keys != [] {
      ToldMatches(n, r, copy, keys[0]);
      if Plain(n, r, keys[0]) {
        PopsFollowed(n, PopKey(n, r, keys[0]), Told(n, r, copy, keys[0]), keys[1..]);
      } else {
        PopLoopWellFormed(n, PopKey(n, r, keys[0]), keys[1..]);
      }
    }
  }

  lemma {:induction false} PopLoopWellFormed(n: Names, r: Redis, keys: seq<string>)
    requires n.Valid() && WellFormed(r.hashes)
    ensures WellFormed(PopLoop(n, r, keys).hashes)
    decreases |keys|
  {
    hide PopKey, WellFormed;
    if keys != [] {
      PopKeyParts(n, r, keys[0]);
      PopLoopWellFormed(n, PopKey(n, r, keys[0]), keys[1..]);
    }
  }

  /** Sets and deletes leave the table, and so the match, alone. */
  lemma StepMatches(n: Names, r: Redis, op: Op, copy: Db)
    requires n.Valid() && WellFormed(r.hashes) && Matches(n, r, copy) && !op.PopOp?
    ensures WellFormed(Step(n, r, op).hashes) && Matches(n, Step(n, r, op), copy)
  {
    hide TableRow, PendingRow, SetSpec, DelSpec, WellFormed;
    match op
    case SetOp(k, fvs) => SetParts(n, r, k, fvs);
    case DelOp(k) => DelParts(n, r, k);
  }

  /** A consumer fed by every pop of a run holds the table's row after each of them if and only if
      every popped key is plain at its pop; and then its copy is the table. */
  lemma {:induction false} DeliveryExact(n: Names, r: Redis, copy: Db, ops: seq<Op>)
    requires n.Valid() && WellFormed(r.hashes) && Matches(n, r, copy)
    ensures Follows(n, r, copy, ops) <==> PlainRun(n, r, ops)
    ensures PlainRun(n, r, ops) ==> Matches(n, Run(n, r, ops), Copied(n, r, copy, ops))
    decreases |ops|
  {
    if ops != [] {
      var op, next := ops[0], Step(n, r, ops[0]);
      if op.PopOp? {
        var popping := Popping(n, r, op.keys);
        assert Matches(n, popping, copy);
        hide TableRow, PopLoop, ToldAll, FollowsPops, PlainPops, Matches, WellFormed;
        PopsFollowed(n, popping, copy, op.keys);
        if PlainPops(n, popping, op.keys) {
          DeliveryExact(n, next, ToldAll(n, popping, copy, op.keys), ops[1..]);
        }
      } else {
        hide TableRow, PopLoop, ToldAll, FollowsPops, PlainPops, Matches, WellFormed, Step;
        StepMatches(n, r, op, copy);
        DeliveryExact(n, next, copy, ops[1..]);
      }
    }
  }

  /** What is told and stored when a delete and a set of another field are popped together. */
  lemma MisledRow(n: Names, r: Redis, copy: Db, key: string, f: string, g: string, value: string)
    requires n.Valid() && WellFormed(r.hashes) && Matches(n, r, copy) && key != ""
    requires f in TableRow(n, r, key) && f != g
    ensures var r2 := SetSpec(n, DelSpec(n, r, key).redis, key, [(g, value)]).redis;
            && key in Keys(n, r2)
            && f in Lookup(Told(n, Popping(n, r2, [key]), copy, key), key)
            && f !in TableRow(n, PopKey(n, Popping(n, r2, [key]), key), key)
  {
    hide TableRow, PendingRow, SetSpec, DelSpec, PopKey, Popping, Dels, Keys, Merge, PutRow, Lookup, WellFormed;
    var r1 := DelSpec(n, r, key).redis;
    DelParts(n, r, key);
    SetParts(n, r1, key, [(g, value)]);
    var r2 := SetSpec(n, r1, key, [(g, value)]).redis;
    MergeOne(g, value);
    PoppingParts(n, r2, [key]);
    PopKeyParts(n, Popping(n, r2, [key]), key);
    var row, pending: Row := TableRow(n, r, key), map[g := value];
    assert Lookup(copy, key) == row;
    assert map[] + pending == pending && f in row + pending && g in pending;
    PutRowLookup(copy, key, row + pending);
  }

  /** From every database whose row has a field f, a delete and a set of another field, popped
      together, leave the copy with f while the table has lost it. */
  lemma DelThenSetMisleads(n: Names, r: Redis, copy: Db, key: string, f: string, g: string, value: string)
    requires n.Valid() && WellFormed(r.hashes) && Matches(n, r, copy) && key != ""
    requires f in TableRow(n, r, key) && f != g
    ensures var ops := [DelOp(key), SetOp(key, [(g, value)]), PopOp([key])];
            && IsRun(n, r, ops)
            && f in Lookup(Copied(n, r, copy, ops), key) && f !in TableRow(n, Run(n, r, ops), key)
  {
    MisledRow(n, r, copy, key, f, g, value);
    hide TableRow, SetSpec, DelSpec, Popping, Popped, Keys, Matches, WellFormed, IsRun, Run, Copied, Told, ToldAll, PopKey;
    var r2 := SetSpec(n, DelSpec(n, r, key).redis, key, [(g, value)]).redis;
    OnePop(n, r2, copy, key);
    ThreeSteps(n, r, copy, DelOp(key), SetOp(key, [(g, value)]), PopOp([key]));
  }

  lemma MergeOne(f: string, v: string)
    ensures Merge(map[], [(f, v)]) == map[f := v]
  {
    assert [(f, v)][1..] == [];
  }

  lemma PoppingParts(n: Names, r: Redis, keys: seq<string>)
    requires n.Valid()
    ensures var r1 := Popping(n, r, keys);
            && r1.hashes == r.hashes && Dels(n, r1) == Dels(n, r)
            && forall k :: TableRow(n, r1, k) == TableRow(n, r, k) && PendingRow(n, r1, k) == PendingRow(n, r, k)
  {
    NamesApart(n);
  }

  lemma OnePop(n: Names, r: Redis, copy: Db, key: string)
    ensures Popped(n, r, [key]) == PopKey(n, Popping(n, r, [key]), key)
    ensures ToldAll(n, Popping(n, r, [key]), copy, [key]) == Told(n, Popping(n, r, [key]), copy, key)
  {
    hide PopKey, Told, Popping;
    assert [key][1..] == [];
    var r1 := Popping(n, r, [key]);
    assert PopLoop(n, PopKey(n, r1, key), []) == PopKey(n, r1, key);
    assert ToldAll(n, PopKey(n, r1, key), Told(n, r1, copy, key), []) == Told(n, r1, copy, key);
  }

  lemma ThreeSteps(n: Names, r: Redis, copy: Db, a: Op, b: Op, c: Op)
    requires !a.PopOp? && !b.PopOp? && c.PopOp?
    requires Enabled(n, Step(n, Step(n, r, a), b), c)
    ensures var r2 := Step(n, Step(n, r, a), b);
            && IsRun(n, r, [a, b, c])
            && Run(n, r, [a, b, c]) == Step(n, r2, c)
            && Copied(n, r, copy, [a, b, c]) == ToldAll(n, Popping(n, r2, c.keys), copy, c.keys)
  {
    hide Step, ToldAll, Popping;
    var r1 := Step(n, r, a);
    var r2 := Step(n, r1, b);
    assert [a, b, c][1..] == [b, c] && [b, c][1..] == [c] && [c][1..] == [];
    var r3 := Step(n, r2, c);
    assert IsRun(n, r3, []) && Run(n, r3, []) == r3;
    assert IsRun(n, r2, [c]) && Run(n, r2, [c]) == Step(n, r2, c);
    assert Copied(n, r2, copy, [c]) == ToldAll(n, Popping(n, r2, c.keys), copy, c.keys);
    assert IsRun(n, r1, [b, c]) && Run(n, r1, [b, c]) == Step(n, r2, c);
    assert Copied(n, r1, copy, [b, c]) == ToldAll(n, Popping(n, r2, c.keys), copy, c.keys);
  }
}
