/** The Lua scripts of the state tables, run on Redis sets and hashes: the producer's set and
    del, single and batched, the view switch, and the consumer's pop. KEYS and ARGV are
    addressed as the scripts do, counting from 1. */
module ProducerScripts {
  import opened Tables
  import opened Decimal

  datatype Redis = Redis(sets: map<string, set<string>>, hashes: Db)

  function SetOf(r: Redis, name: string): set<string> {
    if name in r.sets then r.sets[name] else {}
  }

  function SAdd(r: Redis, name: string, member: string): Redis {
    r.(sets := r.sets[name := SetOf(r, name) + {member}])
  }

  function SRem(r: Redis, name: string, member: string): Redis {
    r.(sets := r.sets[name := SetOf(r, name) - {member}])
  }

  /** SADD's reply */
  function Added(r: Redis, name: string, member: string): nat {
    if member in SetOf(r, name) then 0 else 1
  }

  /** One HSET per pair, in order; no pairs, no command. */
  function HSets(r: Redis, name: string, fvs: FieldValues): Redis {
    if fvs == [] then r else r.(hashes := HSet(r.hashes, name, fvs))
  }

  function DelHash(r: Redis, name: string): Redis {
    r.(hashes := Del(r.hashes, name))
  }

  /** The names a table's state lives under. */
  datatype Names = Names(table: string, sep: char, dbId: nat) {
    /** With '_' the names of the sets would be names of rows. */
    ghost predicate Valid() { sep != '_' }
    function Channel(): string { table + "_CHANNEL@" + ToString(dbId) }
    function KeySet(): string { table + "_KEY_SET" }
    function DelSet(): string { table + "_DEL_SET" }
    function Prefix(): string { table + [sep] }
    function StatePrefix(): string { "_" + Prefix() }

    /** getKeyName: no separator for the empty key. */
    function KeyName(key: string): string { if key == "" then table else Prefix() + key }
    function StateHash(key: string): string { "_" + KeyName(key) }
  }

  /** Single operations address the hash through getKeyName, batches and the pop script through
      the prefix; the two names agree exactly for non-empty keys. */
  lemma HashNames(n: Names, key: string)
    ensures n.StateHash(key) == n.StatePrefix() + key <==> key != ""
  {
    assert |n.StateHash("")| < |n.StatePrefix()|;
    assert "_" + (n.Prefix() + key) == ("_" + n.Prefix()) + key;
  }

  // ---------- What a script does, in terms of the operation it carries out ----------

  datatype Result = Result(redis: Redis, added: nat)

  function SetIn(n: Names, r: Redis, key: string, fvs: FieldValues, hash: string): Result {
    Result(HSets(SAdd(r, n.KeySet(), key), hash, fvs), Added(r, n.KeySet(), key))
  }

  function DelIn(n: Names, r: Redis, key: string, hash: string): Result {
    Result(DelHash(SAdd(SAdd(r, n.KeySet(), key), n.DelSet(), key), hash), Added(r, n.KeySet(), key))
  }

  function SetSpec(n: Names, r: Redis, key: string, fvs: FieldValues): Result {
    SetIn(n, r, key, fvs, n.StateHash(key))
  }

  function DelSpec(n: Names, r: Redis, key: string): Result {
    DelIn(n, r, key, n.StateHash(key))
  }

  function SetAllSpec(n: Names, r: Redis, kfvs: seq<(string, FieldValues)>): Result
    decreases |kfvs|
  {
    if kfvs == [] then Result(r, 0)
    else
      var one := SetSpec(n, r, kfvs[0].0, kfvs[0].1);
      var rest := SetAllSpec(n, one.redis, kfvs[1..]);
      Result(rest.redis, one.added + rest.added)
  }

  function DelAllSpec(n: Names, r: Redis, keys: seq<string>): Result
    decreases |keys|
  {
    if keys == [] then Result(r, 0)
    else
      var one := DelSpec(n, r, keys[0]);
      var rest := DelAllSpec(n, one.redis, keys[1..]);
      Result(rest.redis, one.added + rest.added)
  }

  /** A batch does the same under the prefixed names. */
  function BatchSetSpec(n: Names, r: Redis, kfvs: seq<(string, FieldValues)>): Result
    decreases |kfvs|
  {
    if kfvs == [] then Result(r, 0)
    else
      var one := SetIn(n, r, kfvs[0].0, kfvs[0].1, n.StatePrefix() + kfvs[0].0);
      var rest := BatchSetSpec(n, one.redis, kfvs[1..]);
      Result(rest.redis, one.added + rest.added)
  }

  function BatchDelSpec(n: Names, r: Redis, keys: seq<string>): Result
    decreases |keys|
  {
    if keys == [] then Result(r, 0)
    else
      var one := DelIn(n, r, keys[0], n.StatePrefix() + keys[0]);
      var rest := BatchDelSpec(n, one.redis, keys[1..]);
      Result(rest.redis, one.added + rest.added)
  }

  // ---------- The scripts ----------

  function At(xs: seq<string>, i: nat): string {
    if 1 <= i <= |xs| then xs[i - 1] else ""
  }

  function Number(s: string): nat {
    match ToNumber(s) case Some(n) => n case None => 0
  }

  function LuaSetLoop(r: Redis, keys: seq<string>, argv: seq<string>, i: nat): Redis
    decreases |keys| - i
  {
    if i + 3 > |keys| then r
    else LuaSetLoop(HSets(r, At(keys, 3 + i), [(At(argv, 3 + i * 2), At(argv, 4 + i * 2))]), keys, argv, i + 1)
  }

  function LuaSet(r: Redis, keys: seq<string>, argv: seq<string>): Result {
    Result(LuaSetLoop(SAdd(r, At(keys, 2), At(argv, 2)), keys, argv, 0), Added(r, At(keys, 2), At(argv, 2)))
  }

  function LuaDel(r: Redis, keys: seq<string>, argv: seq<string>): Result {
    Result(DelHash(SAdd(SAdd(r, At(keys, 2), At(argv, 2)), At(keys, 4), At(argv, 2)), At(keys, 3)),
           Added(r, At(keys, 2), At(argv, 2)))
  }

  /** `for j = 0, n - 1: HSET name ARGV[base + j * 2] ARGV[base + j * 2 + 1]` */
  function LuaFields(r: Redis, name: string, argv: seq<string>, base: nat, n: nat): Redis
    decreases n
  {
    if n == 0 then r
    else LuaFields(HSets(r, name, [(At(argv, base), At(argv, base + 1))]), name, argv, base + 2, n - 1)
  }

  function LuaBatchedSetLoop(r: Redis, added: nat, keys: seq<string>, argv: seq<string>, i: nat, idx: nat): Result
    decreases |keys| - i
  {
    if i + 4 > |keys| then Result(r, added)
    else
      var key := At(keys, 4 + i);
      var n := Number(At(argv, idx));
      var r1 := SAdd(r, At(keys, 2), key);
      var r2 := LuaFields(r1, At(keys, 3) + key, argv, idx + 1, n);
      LuaBatchedSetLoop(r2, added + Added(r, At(keys, 2), key), keys, argv, i + 1, idx + n * 2 + 1)
  }

  function LuaBatchedSet(r: Redis, keys: seq<string>, argv: seq<string>): Result {
    LuaBatchedSetLoop(r, 0, keys, argv, 0, 2)
  }

  function LuaBatchedDelLoop(r: Redis, added: nat, keys: seq<string>, i: nat): Result
    decreases |keys| - i
  {
    if i + 5 > |keys| then Result(r, added)
    else
      var key := At(keys, 5 + i);
      var r1 := SAdd(SAdd(r, At(keys, 2), key), At(keys, 3), key);
      LuaBatchedDelLoop(DelHash(r1, At(keys, 4) + key), added + Added(r, At(keys, 2), key), keys, i + 1)
  }

  function LuaBatchedDel(r: Redis, keys: seq<string>): Result {
    LuaBatchedDelLoop(r, 0, keys, 0)
  }

  // ---------- The arguments the C++ side assembles ----------

  function Flat(fvs: FieldValues): seq<string> {
    if fvs == [] then [] else [fvs[0].0, fvs[0].1] + Flat(fvs[1..])
  }

  function Repeat(s: string, n: nat): seq<string> {
    if n == 0 then [] else [s] + Repeat(s, n - 1)
  }

  function SetKeys(n: Names, key: string, fvs: FieldValues): seq<string> {
    [n.Channel(), n.KeySet()] + Repeat(n.StateHash(key), |fvs|)
  }

  function SetArgv(key: string, fvs: FieldValues): seq<string> { ["G", key] + Flat(fvs) }

  function DelKeys(n: Names, key: string): seq<string> {
    [n.Channel(), n.KeySet(), n.StateHash(key), n.DelSet()]
  }

  function DelArgv(key: string): seq<string> { ["G", key, "''", "''"] }

  function FlatGroup(fvs: FieldValues): seq<string> { [ToString(|fvs|)] + Flat(fvs) }

  function FlatGroups(kfvs: seq<(string, FieldValues)>): seq<string> {
    if kfvs == [] then [] else FlatGroup(kfvs[0].1) + FlatGroups(kfvs[1..])
  }

  function KeysOf(kfvs: seq<(string, FieldValues)>): seq<string> {
    if kfvs == [] then [] else [kfvs[0].0] + KeysOf(kfvs[1..])
  }

  function BatchedSetKeys(n: Names, kfvs: seq<(string, FieldValues)>): seq<string> {
    [n.Channel(), n.KeySet(), n.StatePrefix()] + KeysOf(kfvs)
  }

  function BatchedSetArgv(kfvs: seq<(string, FieldValues)>): seq<string> { ["G"] + FlatGroups(kfvs) }

  function BatchedDelKeys(n: Names, keys: seq<string>): seq<string> {
    [n.Channel(), n.KeySet(), n.DelSet(), n.StatePrefix()] + keys
  }

  // ---------- Each script carries out its operation ----------

  lemma {:induction false} FlatLength(fvs: FieldValues)
    ensures |Flat(fvs)| == 2 * |fvs|
    decreases |fvs|
  {
    if fvs != [] { FlatLength(fvs[1..]); }
  }

  lemma {:induction false} RepeatAt(s: string, n: nat)
    ensures |Repeat(s, n)| == n && forall i | 0 <= i < n :: Repeat(s, n)[i] == s
  {
    if n > 0 { RepeatAt(s, n - 1); }
  }

  lemma HSetsSplit(r: Redis, name: string, fv: (string, string), rest: FieldValues)
    ensures HSets(HSets(r, name, [fv]), name, rest) == HSets(r, name, [fv] + rest)
  {
    var row := Lookup(r.hashes, name);
    MergeSplit(row, [fv], rest);
    var one := Merge(row, [fv]);
    assert one == row[fv.0 := fv.1] by { assert [fv][1..] == []; }
    assert one != map[] by { assert fv.0 in one; }
    if rest == [] {
      assert [fv] + rest == [fv];
    } else {
      var all := Merge(row, [fv] + rest);
      MergeOverlay(one, rest);
      assert fv.0 in all;
      assert all != map[];
    }
  }

  /** `argv` holds `part` from its `pos`-th element on. */
  ghost predicate Holds(argv: seq<string>, pos: nat, part: seq<string>) {
    1 <= pos && pos - 1 + |part| <= |argv| && argv[pos - 1..pos - 1 + |part|] == part
  }

  lemma HoldsSplit(argv: seq<string>, pos: nat, a: seq<string>, b: seq<string>)
    requires Holds(argv, pos, a + b)
    ensures Holds(argv, pos, a) && Holds(argv, pos + |a|, b)
  {
    var whole := argv[pos - 1..pos - 1 + |a + b|];
    assert whole[..|a|] == a && whole[|a|..] == b;
  }

  lemma {:induction false} LuaFieldsWrites(r: Redis, name: string, argv: seq<string>, base: nat, fvs: FieldValues)
    requires Holds(argv, base, Flat(fvs))
    ensures LuaFields(r, name, argv, base, |fvs|) == HSets(r, name, fvs)
    decreases |fvs|
  {
    if fvs != [] {
      var (f, v) := fvs[0];
      HoldsSplit(argv, base, [f, v], Flat(fvs[1..]));
      assert argv[base - 1..base + 1] == [f, v];
      assert At(argv, base) == f && At(argv, base + 1) == v;
      LuaFieldsWrites(HSets(r, name, [(f, v)]), name, argv, base + 2, fvs[1..]);
      HSetsSplit(r, name, (f, v), fvs[1..]);
      assert [(f, v)] + fvs[1..] == fvs;
    }
  }

  lemma {:induction false} LuaSetLoopWrites(r: Redis, name: string, keys: seq<string>, argv: seq<string>, i: nat, fvs: FieldValues)
    requires |keys| == 2 + i + |fvs|
    requires forall j | 2 <= j < |keys| :: keys[j] == name
    requires Holds(argv, 3 + i * 2, Flat(fvs))
    ensures LuaSetLoop(r, keys, argv, i) == HSets(r, name, fvs)
    decreases |fvs|
  {
    if fvs != [] {
      var (f, v) := fvs[0];
      var pos := 3 + i * 2;
      HoldsSplit(argv, pos, [f, v], Flat(fvs[1..]));
      assert argv[pos - 1..pos + 1] == [f, v];
      assert At(argv, pos) == f && At(argv, pos + 1) == v;
      LuaSetLoopWrites(HSets(r, name, [(f, v)]), name, keys, argv, i + 1, fvs[1..]);
      HSetsSplit(r, name, (f, v), fvs[1..]);
      assert [(f, v)] + fvs[1..] == fvs;
    }
  }

  /** EVALSHA of the set script with the assembled arguments. */
  lemma SetScript(n: Names, r: Redis, key: string, fvs: FieldValues)
    ensures LuaSet(r, SetKeys(n, key, fvs), SetArgv(key, fvs)) == SetSpec(n, r, key, fvs)
  {
    var keys, argv := SetKeys(n, key, fvs), SetArgv(key, fvs);
    RepeatAt(n.StateHash(key), |fvs|);
    assert argv[2..2 + |Flat(fvs)|] == Flat(fvs);
    LuaSetLoopWrites(SAdd(r, n.KeySet(), key), n.StateHash(key), keys, argv, 0, fvs);
  }

  lemma DelScript(n: Names, r: Redis, key: string)
    ensures LuaDel(r, DelKeys(n, key), DelArgv(key)) == DelSpec(n, r, key)
  {
  }

  /** The index walk: a count, that many pairs, then the next group. */
  lemma ReadGroup(argv: seq<string>, idx: nat, fvs: FieldValues, rest: seq<string>)
    requires Holds(argv, idx, FlatGroup(fvs) + rest)
    ensures Number(At(argv, idx)) == |fvs|
    ensures Holds(argv, idx + 1, Flat(fvs))
    ensures |FlatGroup(fvs)| == |fvs| * 2 + 1
    ensures Holds(argv, idx + |FlatGroup(fvs)|, rest)
  {
    hide ToString, Number, Flat, At, Holds;
    HoldsSplit(argv, idx, FlatGroup(fvs), rest);
    ReadKey(argv, idx, ToString(|fvs|), Flat(fvs));
    NumberOf(|fvs|);
    FlatLength(fvs);
  }

  lemma ReadKey(keys: seq<string>, pos: nat, key: string, rest: seq<string>)
    requires Holds(keys, pos, [key] + rest)
    ensures At(keys, pos) == key && Holds(keys, pos + 1, rest)
  {
    HoldsSplit(keys, pos, [key], rest);
    assert keys[pos - 1..pos][0] == key;
  }

  lemma {:induction false} BatchedSetLoopSteps(n: Names, r: Redis, added: nat, keys: seq<string>, argv: seq<string>,
                                               i: nat, idx: nat, kfvs: seq<(string, FieldValues)>)
    requires At(keys, 2) == n.KeySet() && At(keys, 3) == n.StatePrefix()
    requires Holds(keys, 4 + i, KeysOf(kfvs)) && |keys| == 3 + i + |KeysOf(kfvs)|
    requires Holds(argv, idx, FlatGroups(kfvs))
    ensures LuaBatchedSetLoop(r, added, keys, argv, i, idx) ==
            Result(BatchSetSpec(n, r, kfvs).redis, added + BatchSetSpec(n, r, kfvs).added)
    decreases |kfvs|
  {
    hide Number, HSets, SAdd, Added, LuaFields, FlatGroup, Flat, At, Holds;
    if kfvs != [] {
      var (key, fvs) := kfvs[0];
      ReadKey(keys, 4 + i, key, KeysOf(kfvs[1..]));
      ReadGroup(argv, idx, fvs, FlatGroups(kfvs[1..]));
      LuaFieldsWrites(SAdd(r, n.KeySet(), key), n.StatePrefix() + key, argv, idx + 1, fvs);
      var one := SetIn(n, r, key, fvs, n.StatePrefix() + key);
      BatchedSetLoopSteps(n, one.redis, added + one.added, keys, argv, i + 1, idx + |fvs| * 2 + 1, kfvs[1..]);
    }
  }

  lemma NumberOf(n: nat)
    ensures Number(ToString(n)) == n
  {
    ToNumberToString(n);
  }

  /** The index walk over the flattened arguments carries out every set of the batch, in order,
      repeated keys and empty field lists included. */
  lemma BatchedSetScript(n: Names, r: Redis, kfvs: seq<(string, FieldValues)>)
    ensures LuaBatchedSet(r, BatchedSetKeys(n, kfvs), BatchedSetArgv(kfvs)) == BatchSetSpec(n, r, kfvs)
  {
    var keys, argv := BatchedSetKeys(n, kfvs), BatchedSetArgv(kfvs);
    assert keys[3..] == KeysOf(kfvs) && keys[3..3 + |KeysOf(kfvs)|] == KeysOf(kfvs);
    assert argv[1..1 + |FlatGroups(kfvs)|] == FlatGroups(kfvs);
    BatchedSetLoopSteps(n, r, 0, keys, argv, 0, 2, kfvs);
  }

  lemma {:induction false} BatchedDelLoopSteps(n: Names, r: Redis, added: nat, keys: seq<string>, i: nat, rows: seq<string>)
    requires At(keys, 2) == n.KeySet() && At(keys, 3) == n.DelSet() && At(keys, 4) == n.StatePrefix()
    requires Holds(keys, 5 + i, rows) && |keys| == 4 + i + |rows|
    ensures LuaBatchedDelLoop(r, added, keys, i) ==
            Result(BatchDelSpec(n, r, rows).redis, added + BatchDelSpec(n, r, rows).added)
    decreases |rows|
  {
    hide SAdd, Added, DelHash;
    if rows != [] {
      var one := DelIn(n, r, rows[0], n.StatePrefix() + rows[0]);
      assert rows == [rows[0]] + rows[1..];
      ReadKey(keys, 5 + i, rows[0], rows[1..]);
      hide Holds;
      BatchedDelLoopSteps(n, one.redis, added + one.added, keys, i + 1, rows[1..]);
    }
  }

  lemma BatchedDelScript(n: Names, r: Redis, rows: seq<string>)
    ensures LuaBatchedDel(r, BatchedDelKeys(n, rows)) == BatchDelSpec(n, r, rows)
  {
    var keys := BatchedDelKeys(n, rows);
    assert keys[4..4 + |rows|] == rows;
    BatchedDelLoopSteps(n, r, 0, keys, 0, rows);
  }

  // ---------- A batch against its single operations ----------

  /** No set of the batch writes fields under the empty key. */
  ghost predicate NamedSets(kfvs: seq<(string, FieldValues)>) {
    forall i | 0 <= i < |kfvs| :: kfvs[i].0 != "" || kfvs[i].1 == []
  }

  lemma {:induction false} NamedSetsAgree(n: Names, r: Redis, kfvs: seq<(string, FieldValues)>)
    requires NamedSets(kfvs)
    ensures BatchSetSpec(n, r, kfvs) == SetAllSpec(n, r, kfvs)
    decreases |kfvs|
  {
    if kfvs != [] {
      hide SAdd, Added;
      HashNames(n, kfvs[0].0);
      var one := SetSpec(n, r, kfvs[0].0, kfvs[0].1);
      assert one == SetIn(n, r, kfvs[0].0, kfvs[0].1, n.StatePrefix() + kfvs[0].0);
      assert forall i | 0 <= i < |kfvs[1..]| :: kfvs[1..][i] == kfvs[i + 1];
      NamedSetsAgree(n, one.redis, kfvs[1..]);
    }
  }

  lemma PrefixedNames(n: Names, key: string)
    ensures n.StatePrefix() + key != n.StateHash("")
  {
    assert |n.StateHash("")| < |n.StatePrefix() + key|;
  }

  /** A batch never writes the hash that a single set under the empty key writes. */
  lemma {:induction false} BatchSetSpares(n: Names, r: Redis, kfvs: seq<(string, FieldValues)>)
    ensures Lookup(BatchSetSpec(n, r, kfvs).redis.hashes, n.StateHash("")) == Lookup(r.hashes, n.StateHash(""))
    decreases |kfvs|
  {
    if kfvs != [] {
      var (key, fvs) := kfvs[0];
      PrefixedNames(n, key);
      var one := SetIn(n, r, key, fvs, n.StatePrefix() + key);
      BatchSetSpares(n, one.redis, kfvs[1..]);
    }
  }

  lemma {:induction false} SetAllWrites(n: Names, r: Redis, kfvs: seq<(string, FieldValues)>)
    requires Lookup(r.hashes, n.StateHash("")) != map[] || !NamedSets(kfvs)
    ensures Lookup(SetAllSpec(n, r, kfvs).redis.hashes, n.StateHash("")) != map[]
    decreases |kfvs|
  {
    if kfvs != [] {
      var (key, fvs) := kfvs[0];
      var one := SetSpec(n, r, key, fvs);
      MergeKeys(Lookup(r.hashes, n.StateHash(key)), fvs);
      if key == "" && fvs != [] {
        assert Lookup(one.redis.hashes, n.StateHash("")) != map[];
      }
      assert forall i | 0 <= i < |kfvs[1..]| :: kfvs[1..][i] == kfvs[i + 1];
      assert NamedSets(kfvs[1..]) && (key != "" || fvs == []) ==> NamedSets(kfvs) by {
        assert forall i | 1 <= i < |kfvs| :: kfvs[i] == kfvs[1..][i - 1];
      }
      SetAllWrites(n, one.redis, kfvs[1..]);
    }
  }

  /** A batched set leaves the same key set, delete set and hashes as its single sets in order, on
      every database, if and only if none of them writes fields under the empty key. */
  lemma BatchedSetExact(n: Names, kfvs: seq<(string, FieldValues)>)
    ensures (forall r :: LuaBatchedSet(r, BatchedSetKeys(n, kfvs), BatchedSetArgv(kfvs)) == SetAllSpec(n, r, kfvs))
            <==> NamedSets(kfvs)
  {
    hide LuaBatchedSet, BatchSetSpec, SetAllSpec, BatchedSetKeys, BatchedSetArgv, NamedSets;
    forall r
      ensures LuaBatchedSet(r, BatchedSetKeys(n, kfvs), BatchedSetArgv(kfvs)) == BatchSetSpec(n, r, kfvs)
    {
      BatchedSetScript(n, r, kfvs);
    }
    if NamedSets(kfvs) {
      forall r
        ensures BatchSetSpec(n, r, kfvs) == SetAllSpec(n, r, kfvs)
      {
        NamedSetsAgree(n, r, kfvs);
      }
    } else {
      var r := Redis(map[], map[]);
      BatchSetSpares(n, r, kfvs);
      SetAllWrites(n, r, kfvs);
      assert LuaBatchedSet(r, BatchedSetKeys(n, kfvs), BatchedSetArgv(kfvs)) != SetAllSpec(n, r, kfvs);
    }
  }

  lemma {:induction false} NamedDelsAgree(n: Names, r: Redis, rows: seq<string>)
    requires "" !in rows
    ensures BatchDelSpec(n, r, rows) == DelAllSpec(n, r, rows)
    decreases |rows|
  {
    if rows != [] {
      hide SAdd, Added, DelHash;
      assert rows[0] in rows;
      HashNames(n, rows[0]);
      NamedDelsAgree(n, DelSpec(n, r, rows[0]).redis, rows[1..]);
    }
  }

  lemma {:induction false} BatchDelSpares(n: Names, r: Redis, rows: seq<string>)
    ensures Lookup(BatchDelSpec(n, r, rows).redis.hashes, n.StateHash("")) == Lookup(r.hashes, n.StateHash(""))
    decreases |rows|
  {
    if rows != [] {
      PrefixedNames(n, rows[0]);
      var one := DelIn(n, r, rows[0], n.StatePrefix() + rows[0]);
      BatchDelSpares(n, one.redis, rows[1..]);
    }
  }

  lemma {:induction false} DelAllRemoves(n: Names, r: Redis, rows: seq<string>)
    requires n.StateHash("") !in r.hashes || "" in rows
    ensures n.StateHash("") !in DelAllSpec(n, r, rows).redis.hashes
    decreases |rows|
  {
    if rows != [] {
      assert rows == [rows[0]] + rows[1..];
      DelAllRemoves(n, DelSpec(n, r, rows[0]).redis, rows[1..]);
    }
  }

  /** The same for deletes: if and only if the empty key is not among them. */
  lemma BatchedDelExact(n: Names, rows: seq<string>)
    ensures (forall r :: LuaBatchedDel(r, BatchedDelKeys(n, rows)) == DelAllSpec(n, r, rows)) <==> "" !in rows
  {
    hide LuaBatchedDel, BatchDelSpec, DelAllSpec, BatchedDelKeys;
    forall r
      ensures LuaBatchedDel(r, BatchedDelKeys(n, rows)) == BatchDelSpec(n, r, rows)
      ensures "" !in rows ==> BatchDelSpec(n, r, rows) == DelAllSpec(n, r, rows)
    {
      BatchedDelScript(n, r, rows);
      if "" !in rows {
        NamedDelsAgree(n, r, rows);
      }
    }
    if "" in rows {
      var r := Redis(map[], map[n.StateHash("") := map["f" := "v"]]);
      BatchDelSpares(n, r, rows);
      DelAllRemoves(n, r, rows);
      assert "f" in Lookup(r.hashes, n.StateHash(""));
      assert LuaBatchedDel(r, BatchedDelKeys(n, rows)) != DelAllSpec(n, r, rows);
    }
  }

  // ---------- When a batch publishes ----------

  /** The hash names play no part in what is added. */
  lemma {:induction false} SameSetAdditions(n: Names, a: Redis, b: Redis, kfvs: seq<(string, FieldValues)>)
    requires a.sets == b.sets
    ensures BatchSetSpec(n, a, kfvs).added == SetAllSpec(n, b, kfvs).added
    decreases |kfvs|
  {
    if kfvs != [] {
      var (key, fvs) := kfvs[0];
      SameSetAdditions(n, SetIn(n, a, key, fvs, n.StatePrefix() + key).redis, SetSpec(n, b, key, fvs).redis, kfvs[1..]);
    }
  }

  lemma {:induction false} SameDelAdditions(n: Names, a: Redis, b: Redis, rows: seq<string>)
    requires a.sets == b.sets
    ensures BatchDelSpec(n, a, rows).added == DelAllSpec(n, b, rows).added
    decreases |rows|
  {
    if rows != [] {
      SameDelAdditions(n, DelIn(n, a, rows[0], n.StatePrefix() + rows[0]).redis, DelSpec(n, b, rows[0]).redis, rows[1..]);
    }
  }

  /** The i-th single operation, run after those before it, adds a key. */
  ghost predicate SetAddsAt(n: Names, r: Redis, kfvs: seq<(string, FieldValues)>, i: nat)
    requires i < |kfvs|
  {
    SetSpec(n, SetAllSpec(n, r, kfvs[..i]).redis, kfvs[i].0, kfvs[i].1).added > 0
  }

  lemma SetAddsNext(n: Names, r: Redis, kfvs: seq<(string, FieldValues)>, i: nat)
    requires i < |kfvs|
    ensures SetAddsAt(n, r, kfvs, i) <==>
            if i == 0 then SetSpec(n, r, kfvs[0].0, kfvs[0].1).added > 0
            else SetAddsAt(n, SetSpec(n, r, kfvs[0].0, kfvs[0].1).redis, kfvs[1..], i - 1)
  {
    hide SetSpec;
    if i == 0 {
      assert kfvs[..0] == [];
    } else {
      assert kfvs[..i][0] == kfvs[0] && kfvs[..i][1..] == kfvs[1..][..i - 1];
    }
  }

  lemma {:induction false} SetAddsFound(n: Names, r: Redis, kfvs: seq<(string, FieldValues)>) returns (i: nat)
    requires SetAllSpec(n, r, kfvs).added > 0
    ensures i < |kfvs| && SetAddsAt(n, r, kfvs, i)
    decreases |kfvs|
  {
    hide SetSpec, SetAddsAt;
    var one, rest := SetSpec(n, r, kfvs[0].0, kfvs[0].1), kfvs[1..];
    if one.added > 0 {
      i := 0;
    } else {
      i := SetAddsFound(n, one.redis, rest);
      i := i + 1;
    }
    SetAddsNext(n, r, kfvs, i);
  }

  lemma {:induction false} SetAddsCounted(n: Names, r: Redis, kfvs: seq<(string, FieldValues)>, i: nat)
    requires i < |kfvs| && SetAddsAt(n, r, kfvs, i)
    ensures SetAllSpec(n, r, kfvs).added > 0
    decreases |kfvs|
  {
    hide SetSpec, SetAddsAt;
    SetAddsNext(n, r, kfvs, i);
    if i > 0 {
      SetAddsCounted(n, SetSpec(n, r, kfvs[0].0, kfvs[0].1).redis, kfvs[1..], i - 1);
    }
  }

  /** The i-th single operation, run after those before it, adds a key. */
  ghost predicate DelAddsAt(n: Names, r: Redis, rows: seq<string>, i: nat)
    requires i < |rows|
  {
    DelSpec(n, DelAllSpec(n, r, rows[..i]).redis, rows[i]).added > 0
  }

  lemma DelAddsNext(n: Names, r: Redis, rows: seq<string>, i: nat)
    requires i < |rows|
    ensures DelAddsAt(n, r, rows, i) <==>
            if i == 0 then DelSpec(n, r, rows[0]).added > 0
            else DelAddsAt(n, DelSpec(n, r, rows[0]).redis, rows[1..], i - 1)
  {
    hide DelSpec;
    if i == 0 {
      assert rows[..0] == [];
    } else {
      assert rows[..i][0] == rows[0] && rows[..i][1..] == rows[1..][..i - 1];
    }
  }

  lemma {:induction false} DelAddsFound(n: Names, r: Redis, rows: seq<string>) returns (i: nat)
    requires DelAllSpec(n, r, rows).added > 0
    ensures i < |rows| && DelAddsAt(n, r, rows, i)
    decreases |rows|
  {
    hide DelSpec, DelAddsAt;
    var one, rest := DelSpec(n, r, rows[0]), rows[1..];
    if one.added > 0 {
      i := 0;
    } else {
      i := DelAddsFound(n, one.redis, rest);
      i := i + 1;
    }
    DelAddsNext(n, r, rows, i);
  }

  lemma {:induction false} DelAddsCounted(n: Names, r: Redis, rows: seq<string>, i: nat)
    requires i < |rows| && DelAddsAt(n, r, rows, i)
    ensures DelAllSpec(n, r, rows).added > 0
    decreases |rows|
  {
    hide DelSpec, DelAddsAt;
    DelAddsNext(n, r, rows, i);
    if i > 0 {
      DelAddsCounted(n, DelSpec(n, r, rows[0]).redis, rows[1..], i - 1);
    }
  }

  /** The script publishes when it added a key, so a batch publishes exactly when one of the
      single operations, run in its place, would have; whatever the keys. */
  lemma BatchPublishes(n: Names, r: Redis, kfvs: seq<(string, FieldValues)>)
    ensures LuaBatchedSet(r, BatchedSetKeys(n, kfvs), BatchedSetArgv(kfvs)).added > 0
            <==> exists i :: 0 <= i < |kfvs| && SetAddsAt(n, r, kfvs, i)
  {
    hide LuaBatchedSet, BatchSetSpec, SetAllSpec, SetAddsAt, BatchedSetKeys, BatchedSetArgv;
    BatchedSetScript(n, r, kfvs);
    SameSetAdditions(n, r, r, kfvs);
    if SetAllSpec(n, r, kfvs).added > 0 {
      var i := SetAddsFound(n, r, kfvs);
    } else {
      forall i | 0 <= i < |kfvs|
        ensures !SetAddsAt(n, r, kfvs, i)
      {
        if SetAddsAt(n, r, kfvs, i) {
          SetAddsCounted(n, r, kfvs, i);
        }
      }
    }
  }

  lemma BatchedDelPublishes(n: Names, r: Redis, rows: seq<string>)
    ensures LuaBatchedDel(r, BatchedDelKeys(n, rows)).added > 0
            <==> exists i :: 0 <= i < |rows| && DelAddsAt(n, r, rows, i)
  {
    hide LuaBatchedDel, BatchDelSpec, DelAllSpec, DelAddsAt, BatchedDelKeys;
    BatchedDelScript(n, r, rows);
    SameDelAdditions(n, r, r, rows);
    if DelAllSpec(n, r, rows).added > 0 {
      var i := DelAddsFound(n, r, rows);
    } else {
      forall i | 0 <= i < |rows|
        ensures !DelAddsAt(n, r, rows, i)
      {
        if DelAddsAt(n, r, rows, i) {
          DelAddsCounted(n, r, rows, i);
        }
      }
    }
  }
}
