/** The ProducerStateTable object: argument vectors assembled in loops and handed to the
    scripts, or, while a temporary view is open, writes collected in memory. The deferral of
    commands by the pipeline is the subject of module Pipeline. */
module ProducerTable {
  import opened Tables
  import opened Decimal
  import opened ProducerScripts
  import opened ProducerState
  import opened ViewSwitch

  lemma {:induction false} FlatSnoc(fvs: FieldValues, fv: (string, string))
    ensures Flat(fvs + [fv]) == Flat(fvs) + [fv.0, fv.1]
    decreases |fvs|
  {
    if fvs == [] {
      assert fvs + [fv] == [fv] && [fv][1..] == [];
      assert Flat([fv]) == [fv.0, fv.1] + Flat([]);
    } else {
      assert (fvs + [fv])[1..] == fvs[1..] + [fv];
      FlatSnoc(fvs[1..], fv);
    }
  }

  lemma {:induction false} FlatGroupsSnoc(kfvs: seq<(string, FieldValues)>, kfv: (string, FieldValues))
    ensures FlatGroups(kfvs + [kfv]) == FlatGroups(kfvs) + FlatGroup(kfv.1)
    ensures KeysOf(kfvs + [kfv]) == KeysOf(kfvs) + [kfv.0]
    decreases |kfvs|
  {
    hide FlatGroup;
    if kfvs == [] {
      assert kfvs + [kfv] == [kfv] && [kfv][1..] == [];
      assert FlatGroups([kfv]) == FlatGroup(kfv.1) + FlatGroups([]);
      assert KeysOf([kfv]) == [kfv.0] + KeysOf([]);
    } else {
      assert (kfvs + [kfv])[1..] == kfvs[1..] + [kfv];
      FlatGroupsSnoc(kfvs[1..], kfv);
    }
  }

  /** The pairs of one request, appended to an argument vector. */
  method AppendFields(args: seq<string>, fvs: FieldValues) returns (r: seq<string>)
    ensures r == args + Flat(fvs)
  {
    r := args;
    assert fvs[..0] == [] && args + Flat([]) == args;
    for i := 0 to |fvs|
      invariant r == args + Flat(fvs[..i])
    {
      FlatSnoc(fvs[..i], fvs[i]);
      assert fvs[..i + 1] == fvs[..i] + [fvs[i]];
      r := r + [fvs[i].0];
      r := r + [fvs[i].1];
    }
    assert fvs[..|fvs|] == fvs;
  }

  /** The KEYS and ARGV of a batched set. */
  method BatchArguments(n: Names, kfvs: seq<(string, FieldValues)>) returns (keys: seq<string>, argv: seq<string>)
    ensures keys == BatchedSetKeys(n, kfvs) && argv == BatchedSetArgv(kfvs)
  {
    hide Flat, FlatGroup, FlatGroups, ToString;
    keys, argv := [n.Channel(), n.KeySet(), n.StatePrefix()], ["G"];
    assert kfvs[..0] == [];
    EmptyGroups();
    assert keys + [] == keys && argv + [] == argv;
    for i := 0 to |kfvs|
      invariant keys == BatchedSetKeys(n, kfvs[..i]) && argv == BatchedSetArgv(kfvs[..i])
    {
      FlatGroupsSnoc(kfvs[..i], kfvs[i]);
      assert kfvs[..i + 1] == kfvs[..i] + [kfvs[i]];
      keys := keys + [kfvs[i].0];
      ghost var before := argv;
      argv := argv + [ToString(|kfvs[i].1|)];
      argv := AppendFields(argv, kfvs[i].1);
      GroupIs(kfvs[i].1);
      assert argv == before + FlatGroup(kfvs[i].1);
    }
    assert kfvs[..|kfvs|] == kfvs;
  }

  lemma EmptyGroups()
    ensures FlatGroups([]) == [] && KeysOf([]) == []
  {
  }

  lemma GroupIs(fvs: FieldValues)
    ensures FlatGroup(fvs) == [ToString(|fvs|)] + Flat(fvs)
  {
  }

  /** The fields of a row, walked in some order. */
  method ListRow(row: Row) returns (fvs: FieldValues)
    ensures Merge(map[], fvs) == row
  {
    fvs := [];
    var todo := row.Keys;
    while todo != {}
      invariant todo <= row.Keys
      invariant Merge(map[], fvs) == map f | f in row && f !in todo :: row[f]
      decreases |todo|
    {
      var f :| f in todo;
      MergeSplit(map[], fvs, [(f, row[f])]);
      var sofar := Merge(map[], fvs);
      assert Merge(sofar, [(f, row[f])]) == sofar[f := row[f]] by { assert [(f, row[f])][1..] == []; }
      fvs := fvs + [(f, row[f])];
      todo := todo - {f};
    }
  }

  lemma ListsSnoc(kfvs: seq<(string, FieldValues)>, rows: Db, key: string, fvs: FieldValues)
    requires Lists(kfvs, rows) && key !in rows
    ensures Lists(kfvs + [(key, fvs)], rows[key := Merge(map[], fvs)])
  {
    hide Merge, FlatGroups;
    FlatGroupsSnoc(kfvs, (key, fvs));
    KeysOfMember(kfvs);
  }

  lemma ListsNothing()
    ensures Lists([], map[])
  {
  }

  method ListRows(rows: Db) returns (kfvs: seq<(string, FieldValues)>)
    ensures Lists(kfvs, rows)
  {
    hide Lists;
    kfvs := [];
    var todo := rows.Keys;
    ghost var listed: Db := map[];
    ListsNothing();
    while todo != {}
      invariant todo <= rows.Keys && Lists(kfvs, listed)
      invariant forall k :: k in listed <==> k in rows && k !in todo
      invariant forall k | k in listed :: listed[k] == rows[k]
      decreases |todo|
    {
      var k :| k in todo;
      var fvs := ListRow(rows[k]);
      ListsSnoc(kfvs, listed, k, fvs);
      kfvs := kfvs + [(k, fvs)];
      listed := listed[k := rows[k]];
      todo := todo - {k};
    }
    assert listed == rows;
  }

  /** What a batch leaves in an open view. */
  function CollectAll(view: Db, kfvs: seq<(string, FieldValues)>): Db
    decreases |kfvs|
  {
    if kfvs == [] then view
    else
      var (k, fvs) := kfvs[0];
      CollectAll(if fvs == [] then view else HSet(view, k, fvs), kfvs[1..])
  }

  class ProducerStateTable {
    const n: Names
    var redis: Redis
    var tempViewActive: bool
    var tempView: Db

    constructor (n: Names, redis: Redis)
      ensures this.n == n && this.redis == redis && !tempViewActive
    {
      this.n, this.redis := n, redis;
      tempViewActive, tempView := false, map[];
    }

    /** While a view is open a set changes only the view, otherwise only the pending state. */
    method Set(key: string, values: FieldValues)
      modifies this
      ensures tempViewActive == old(tempViewActive)
      ensures redis == if tempViewActive then old(redis) else SetSpec(n, old(redis), key, values).redis
      ensures tempView == if tempViewActive && values != [] then HSet(old(tempView), key, values) else old(tempView)
    {
      if tempViewActive {
        CollectFields(key, values);
        return;
      }
      var keys := [n.Channel(), n.KeySet()] + Repeat(n.StateHash(key), |values|);
      var argv := ["G", key];
      argv := AppendFields(argv, values);
      SetScript(n, redis, key, values);
      redis := LuaSet(redis, keys, argv).redis;
    }

    method CollectFields(key: string, values: FieldValues)
      modifies this`tempView
      ensures tempView == if values == [] then old(tempView) else HSet(old(tempView), key, values)
    {
      ghost var row := Lookup(tempView, key);
      assert values[..0] == [];
      for i := 0 to |values|
        invariant i == 0 ==> tempView == old(tempView)
        invariant i > 0 ==> tempView == old(tempView)[key := Merge(row, values[..i])]
        invariant Lookup(tempView, key) == Merge(row, values[..i])
        invariant i > 0 ==> Merge(row, values[..i]) != map[]
      {
        var (f, v) := values[i];
        assert values[..i + 1] == values[..i] + [(f, v)];
        MergeSplit(row, values[..i], [(f, v)]);
        var now := Lookup(tempView, key);
        assert Merge(now, [(f, v)]) == now[f := v] by { assert [(f, v)][1..] == []; }
        tempView := tempView[key := now[f := v]];
        assert f in tempView[key];
      }
      assert values[..|values|] == values;
    }

    method Delete(key: string)
      modifies this
      ensures tempViewActive == old(tempViewActive)
      ensures redis == if tempViewActive then old(redis) else DelSpec(n, old(redis), key).redis
      ensures tempView == if tempViewActive then Del(old(tempView), key) else old(tempView)
    {
      if tempViewActive {
        tempView := tempView - {key};
        return;
      }
      DelScript(n, redis, key);
      redis := LuaDel(redis, [n.Channel(), n.KeySet(), n.StateHash(key), n.DelSet()], ["G", key, "''", "''"]).redis;
    }

    method SetBatch(kfvs: seq<(string, FieldValues)>)
      modifies this
      ensures tempViewActive == old(tempViewActive)
      ensures tempView == if tempViewActive then CollectAll(old(tempView), kfvs) else old(tempView)
      ensures tempViewActive ==> redis == old(redis)
      ensures !tempViewActive ==> redis == BatchSetSpec(n, old(redis), kfvs).redis
      ensures !tempViewActive && NamedSets(kfvs) ==> redis == SetAllSpec(n, old(redis), kfvs).redis
    {
      if tempViewActive {
        assert kfvs[0..] == kfvs;
        for i := 0 to |kfvs|
          invariant CollectAll(tempView, kfvs[i..]) == CollectAll(old(tempView), kfvs)
          invariant redis == old(redis) && tempViewActive
        {
          assert kfvs[i..][1..] == kfvs[i + 1..];
          CollectFields(kfvs[i].0, kfvs[i].1);
        }
        assert kfvs[|kfvs|..] == [];
        return;
      }
      var keys, argv := BatchArguments(n, kfvs);
      BatchedSetScript(n, redis, kfvs);
      if NamedSets(kfvs) {
        NamedSetsAgree(n, redis, kfvs);
      }
      redis := LuaBatchedSet(redis, keys, argv).redis;
    }

    method DeleteBatch(rows: seq<string>)
      modifies this
      ensures tempViewActive == old(tempViewActive)
      ensures tempView == if tempViewActive then old(tempView) - (set k | k in rows) else old(tempView)
      ensures tempViewActive ==> redis == old(redis)
      ensures !tempViewActive ==> redis == BatchDelSpec(n, old(redis), rows).redis
      ensures !tempViewActive && "" !in rows ==> redis == DelAllSpec(n, old(redis), rows).redis
    {
      if tempViewActive {
        for i := 0 to |rows|
          invariant tempView == old(tempView) - (set k | k in rows[..i])
          invariant redis == old(redis) && tempViewActive
        {
          assert rows[..i + 1] == rows[..i] + [rows[i]];
          tempView := tempView - {rows[i]};
        }
        assert rows[..|rows|] == rows;
        return;
      }
      var keys := [n.Channel(), n.KeySet(), n.DelSet(), n.StatePrefix()] + rows;
      BatchedDelScript(n, redis, rows);
      if "" !in rows {
        NamedDelsAgree(n, redis, rows);
      }
      redis := LuaBatchedDel(redis, keys).redis;
    }

    method CreateTempView()
      modifies this
      ensures tempViewActive && tempView == map[] && redis == old(redis)
    {
      tempViewActive, tempView := true, map[];
    }

    /** apply_temp_view throws without an open view. `dump` is Table::dump's answer after the
        clear; what is sent is the least difference between it and the view. */
    method ApplyTempView(dump: Db)
      returns (ok: bool, toSet: seq<string>, toDel: seq<string>, rows: Db, kfvs: seq<(string, FieldValues)>)
      requires IsDump(n, LuaClear(n, redis), dump)
      modifies this
      ensures ok == old(tempViewActive) && !tempViewActive
      ensures !ok ==> redis == old(redis) && tempView == old(tempView)
      ensures ok ==> && tempView == map[]
                     && IsDiff(dump, old(tempView), toSet, toDel, rows) && Lists(kfvs, rows)
                     && redis == ViewSpec(n, LuaClear(n, old(redis)), toSet, toDel, kfvs)
    {
      if !tempViewActive {
        return false, [], [], map[], [];
      }
      hide LuaClear, LuaApplyView, ViewSpec, ViewKeys, ViewArgv, IsDiff, Lists, IsDump;
      redis := LuaClear(n, redis);
      toSet, toDel, rows := ComputeDiff(dump, tempView);
      kfvs := ListRows(rows);
      ApplyViewScript(n, redis, toSet, toDel, kfvs);
      redis := LuaApplyView(redis, ViewKeys(n, kfvs), ViewArgv(toSet, toDel, kfvs));
      tempViewActive, tempView := false, map[];
      ok := true;
    }
  }
}
