/** ProducerStateTable's temporary view: it collects a target table, compares it with the table
    in the database and queues the least that turns one into the other. */
module ViewSwitch {
  import opened Tables
  import opened Decimal
  import opened ProducerScripts
  import opened ProducerState

  // ---------- The comparison ----------

  /** The rows differ, a missing row and an empty one counting as different. */
  ghost predicate Differs(current: Db, view: Db, key: string) {
    (key in current || key in view) && !(key in current && key in view && current[key] == view[key])
  }

  /** The row has to be cleared first: a field of it is not in the view. */
  ghost predicate Loses(current: Db, view: Db, key: string) {
    key in current && (key !in view || !(current[key].Keys <= view[key].Keys))
  }

  /** What apply_temp_view sends: the keys to announce, the keys to clear, the rows to write. */
  ghost predicate IsDiff(current: Db, view: Db, toSet: seq<string>, toDel: seq<string>, rows: Db) {
    && Distinct(toSet) && Distinct(toDel)
    && (forall k :: k in toSet <==> Differs(current, view, k))
    && (forall k :: k in toDel <==> Loses(current, view, k))
    && (forall k :: k in rows <==> k in view && Differs(current, view, k))
    && (forall k | k in rows :: rows[k] == view[k])
  }

  function RowAfter(current: Db, toDel: seq<string>, rows: Db, key: string): Row {
    (if key in toDel then map[] else Lookup(current, key)) + Lookup(rows, key)
  }

  /** Clearing and then merging gives exactly the target, and only differing rows are touched. */
  lemma DiffGivesTarget(current: Db, view: Db, toSet: seq<string>, toDel: seq<string>, rows: Db)
    requires IsDiff(current, view, toSet, toDel, rows)
    ensures forall k :: RowAfter(current, toDel, rows, k) == Lookup(view, k)
    ensures forall k | k in toDel :: k in toSet
    ensures forall k | k in rows :: k in toSet
  {
    forall k ensures RowAfter(current, toDel, rows, k) == Lookup(view, k) {
      var base := if k in toDel then map[] else Lookup(current, k);
      if k in rows {
        assert base + view[k] == view[k];
      } else {
        assert base + map[] == base;
      }
    }
  }

  lemma SubsetSameSize(a: set<string>, b: set<string>)
    requires a <= b && |b| <= |a|
    ensures a == b
  {
    assert |b - a| == |b| - |a|;
  }

  /** The loop over the fields of one row, with its early exit. */
  method CompareRow(old_: Row, new_: Row) returns (needDel: bool, needSet: bool)
    ensures needDel <==> !(old_.Keys <= new_.Keys)
    ensures needSet <==> old_ != new_
  {
    needDel, needSet := false, false;
    var todo := old_.Keys;
    while todo != {}
      invariant todo <= old_.Keys && !needDel
      invariant old_.Keys - todo <= new_.Keys
      invariant needSet <==> exists f | f in old_.Keys - todo :: new_[f] != old_[f]
      decreases |todo|
    {
      var field :| field in todo;
      if field !in new_ {
        needDel, needSet := true, true;
        return;
      }
      if new_[field] != old_[field] {
        needSet := true;
      }
      todo := todo - {field};
    }
    if |new_| > |old_| {
      needSet := true;
    }
    if !needSet {
      SubsetSameSize(old_.Keys, new_.Keys);
      assert old_ == new_;
    }
  }

  lemma DistinctSnoc(xs: seq<string>, x: string)
    requires Distinct(xs) && x !in xs
    ensures Distinct(xs + [x])
  {
  }

  /** What the comparison of one row says about its key. */
  lemma KeyCases(current: Db, view: Db, key: string)
    ensures key in current && key !in view ==> Differs(current, view, key) && Loses(current, view, key)
    ensures key in current && key in view ==>
              && (Differs(current, view, key) <==> current[key] != view[key])
              && (Loses(current, view, key) <==> !(current[key].Keys <= view[key].Keys))
    ensures key in view && key !in current ==> Differs(current, view, key)
    ensures key !in current ==> !Loses(current, view, key)
    ensures key !in current && key !in view ==> !Differs(current, view, key)
  {
  }

  /** The first loop, over the rows there are; `rows` loses the ones that match. */
  method CompareExisting(current: Db, view: Db) returns (toSet: seq<string>, toDel: seq<string>, rows: Db)
    ensures Distinct(toSet) && Distinct(toDel)
    ensures forall k :: k in toSet <==> k in current && Differs(current, view, k)
    ensures forall k :: k in toDel <==> k in current && Loses(current, view, k)
    ensures forall k :: k in rows <==> k in view && (k in current ==> Differs(current, view, k))
    ensures forall k | k in rows :: rows[k] == view[k]
  {
    hide Differs, Loses, Distinct;
    toSet, toDel, rows := [], [], view;
    assert Distinct([]) by { NothingTwice(); }
    var todo := current.Keys;
    while todo != {}
      invariant todo <= current.Keys
      invariant Distinct(toSet) && Distinct(toDel)
      invariant forall k :: k in toSet <==> k in current && k !in todo && Differs(current, view, k)
      invariant forall k :: k in toDel <==> k in current && k !in todo && Loses(current, view, k)
      invariant forall k :: k in rows <==> k in view && (k in current && k !in todo ==> Differs(current, view, k))
      invariant forall k | k in rows :: rows[k] == view[k]
      decreases |todo|
    {
      var key :| key in todo;
      todo := todo - {key};
      KeyCases(current, view, key);
      DistinctSnoc(toSet, key);
      DistinctSnoc(toDel, key);
      if key !in view {
        toDel := toDel + [key];
        toSet := toSet + [key];
      } else {
        var needDel, needSet := CompareRow(current[key], view[key]);
        if needDel {
          toDel := toDel + [key];
        }
        if needSet {
          toSet := toSet + [key];
        } else {
          rows := rows - {key};
        }
      }
    }
  }

  lemma NothingTwice()
    ensures Distinct([])
  {
  }

  /** The two loops of apply_temp_view, in whatever order the maps are walked. */
  method ComputeDiff(current: Db, view: Db) returns (toSet: seq<string>, toDel: seq<string>, rows: Db)
    ensures IsDiff(current, view, toSet, toDel, rows)
  {
    hide Differs, Loses, Distinct;
    toSet, toDel, rows := CompareExisting(current, view);
    ghost var existing := toSet;
    var left := rows.Keys;
    while left != {}
      invariant left <= rows.Keys
      invariant Distinct(toSet)
      invariant forall k :: k in toSet <==> k in existing || (k in rows && k !in left && k !in current)
      decreases |left|
    {
      var key :| key in left;
      left := left - {key};
      if key !in current {
        DistinctSnoc(toSet, key);
        toSet := toSet + [key];
      }
    }
    forall k
      ensures k in toSet <==> Differs(current, view, k)
      ensures k in toDel <==> Loses(current, view, k)
      ensures k in rows <==> k in view && Differs(current, view, k)
    {
      KeyCases(current, view, k);
    }
  }

  // ---------- The view switch script ----------

  function SAddAll(r: Redis, name: string, members: seq<string>): Redis
    decreases |members|
  {
    if members == [] then r else SAddAll(SAdd(r, name, members[0]), name, members[1..])
  }

  /** `for i = 1, n do SADD name ARGV[start + i]` */
  function LuaAddLoop(r: Redis, name: string, argv: seq<string>, start: nat, i: nat, n: nat): Redis
    decreases n - i
  {
    if i >= n then r else LuaAddLoop(SAdd(r, name, At(argv, start + i + 1)), name, argv, start, i + 1, n)
  }

  function LuaHashLoop(r: Redis, keys: seq<string>, argv: seq<string>, j: nat, start: nat): Redis
    decreases |keys| - j
  {
    if j > |keys| then r
    else
      var n := Number(At(argv, start));
      LuaHashLoop(LuaFields(r, At(keys, j), argv, start + 1, n), keys, argv, j + 1, start + 2 * n + 1)
  }

  function LuaApplyView(r: Redis, keys: seq<string>, argv: seq<string>): Redis {
    var n1 := Number(At(argv, 2));
    var r1 := LuaAddLoop(r, At(keys, 2), argv, 2, 0, n1);
    var s2 := 2 + n1 + 1;
    var n2 := Number(At(argv, s2));
    var r2 := LuaAddLoop(r1, At(keys, 3), argv, s2, 0, n2);
    LuaHashLoop(r2, keys, argv, 4, s2 + n2 + 1)
  }

  /** The rows to write, walked in some order. */
  ghost predicate Lists(kfvs: seq<(string, FieldValues)>, rows: Db) {
    && (forall k :: k in rows <==> k in KeysOf(kfvs))
    && (forall i, j | 0 <= i < j < |kfvs| :: kfvs[i].0 != kfvs[j].0)
    && (forall i | 0 <= i < |kfvs| :: kfvs[i].0 in rows && Merge(map[], kfvs[i].1) == rows[kfvs[i].0])
  }

  function HashesOf(n: Names, kfvs: seq<(string, FieldValues)>): seq<string> {
    if kfvs == [] then [] else [n.StateHash(kfvs[0].0)] + HashesOf(n, kfvs[1..])
  }

  function ViewKeys(n: Names, kfvs: seq<(string, FieldValues)>): seq<string> {
    [n.Channel(), n.KeySet(), n.DelSet()] + HashesOf(n, kfvs)
  }

  function ViewArgv(toSet: seq<string>, toDel: seq<string>, kfvs: seq<(string, FieldValues)>): seq<string> {
    ["G", ToString(|toSet|)] + toSet + [ToString(|toDel|)] + toDel + FlatGroups(kfvs)
  }

  function HashAll(n: Names, r: Redis, kfvs: seq<(string, FieldValues)>): Redis
    decreases |kfvs|
  {
    if kfvs == [] then r else HashAll(n, HSets(r, n.StateHash(kfvs[0].0), kfvs[0].1), kfvs[1..])
  }

  function ViewSpec(n: Names, r: Redis, toSet: seq<string>, toDel: seq<string>, kfvs: seq<(string, FieldValues)>): Redis {
    HashAll(n, SAddAll(SAddAll(r, n.KeySet(), toSet), n.DelSet(), toDel), kfvs)
  }

  lemma {:induction false} AddLoopAdds(r: Redis, name: string, argv: seq<string>, start: nat, i: nat, n: nat, members: seq<string>)
    requires n == i + |members| && Holds(argv, start + i + 1, members)
    ensures LuaAddLoop(r, name, argv, start, i, n) == SAddAll(r, name, members)
    decreases |members|
  {
    hide SAdd, At, Holds;
    if members != [] {
      assert members == [members[0]] + members[1..];
      ReadKey(argv, start + i + 1, members[0], members[1..]);
      AddLoopAdds(SAdd(r, name, members[0]), name, argv, start, i + 1, n, members[1..]);
    }
  }

  lemma {:induction false} HashLoopWrites(n: Names, r: Redis, keys: seq<string>, argv: seq<string>, j: nat, start: nat,
                                          kfvs: seq<(string, FieldValues)>)
    requires Holds(keys, j, HashesOf(n, kfvs)) && |keys| + 1 == j + |HashesOf(n, kfvs)|
    requires Holds(argv, start, FlatGroups(kfvs))
    ensures LuaHashLoop(r, keys, argv, j, start) == HashAll(n, r, kfvs)
    decreases |kfvs|
  {
    hide HSets, At, Holds, LuaFields, Number, FlatGroup, Flat;
    if kfvs != [] {
      var (key, fvs) := kfvs[0];
      ReadKey(keys, j, n.StateHash(key), HashesOf(n, kfvs[1..]));
      ReadGroup(argv, start, fvs, FlatGroups(kfvs[1..]));
      LuaFieldsWrites(r, n.StateHash(key), argv, start + 1, fvs);
      HashLoopWrites(n, HSets(r, n.StateHash(key), fvs), keys, argv, j + 1, start + |FlatGroup(fvs)|, kfvs[1..]);
    }
  }

  /** The script's three index walks recover exactly what was packed. */
  lemma ApplyViewScript(n: Names, r: Redis, toSet: seq<string>, toDel: seq<string>, kfvs: seq<(string, FieldValues)>)
    ensures LuaApplyView(r, ViewKeys(n, kfvs), ViewArgv(toSet, toDel, kfvs)) == ViewSpec(n, r, toSet, toDel, kfvs)
  {
    hide At, Holds, Number, ToString, FlatGroups, HashesOf, LuaAddLoop, LuaHashLoop, SAddAll, HashAll;
    var keys, argv := ViewKeys(n, kfvs), ViewArgv(toSet, toDel, kfvs);
    ViewKeysHold(n, kfvs);
    ViewArgvHolds(toSet, toDel, kfvs);
    var s2 := 2 + |toSet| + 1;
    AddLoopAdds(r, n.KeySet(), argv, 2, 0, |toSet|, toSet);
    var r1 := SAddAll(r, n.KeySet(), toSet);
    AddLoopAdds(r1, n.DelSet(), argv, s2, 0, |toDel|, toDel);
    HashLoopWrites(n, SAddAll(r1, n.DelSet(), toDel), keys, argv, 4, s2 + |toDel| + 1, kfvs);
  }

  lemma ViewKeysHold(n: Names, kfvs: seq<(string, FieldValues)>)
    ensures var keys := ViewKeys(n, kfvs);
            && At(keys, 2) == n.KeySet() && At(keys, 3) == n.DelSet()
            && Holds(keys, 4, HashesOf(n, kfvs)) && |keys| + 1 == 4 + |HashesOf(n, kfvs)|
  {
    hide HashesOf;
    var keys := ViewKeys(n, kfvs);
    assert keys[3..3 + |HashesOf(n, kfvs)|] == HashesOf(n, kfvs);
  }

  lemma ViewArgvHolds(toSet: seq<string>, toDel: seq<string>, kfvs: seq<(string, FieldValues)>)
    ensures var argv := ViewArgv(toSet, toDel, kfvs);
            var s2 := 2 + |toSet| + 1;
            && Number(At(argv, 2)) == |toSet| && Holds(argv, 3, toSet)
            && Number(At(argv, s2)) == |toDel| && Holds(argv, s2 + 1, toDel)
            && Holds(argv, s2 + |toDel| + 1, FlatGroups(kfvs))
  {
    hide Number, ToString, FlatGroups;
    var argv := ViewArgv(toSet, toDel, kfvs);
    var s2 := 2 + |toSet| + 1;
    NumberOf(|toSet|);
    NumberOf(|toDel|);
    assert argv[2..2 + |toSet|] == toSet;
    assert argv[s2..s2 + |toDel|] == toDel;
    assert argv[s2 + |toDel|..s2 + |toDel| + |FlatGroups(kfvs)|] == FlatGroups(kfvs);
  }

  // ---------- The whole switch ----------

  /** The clear script: every pending hash under the table's name goes. */
  function LuaClear(n: Names, r: Redis): Redis {
    var prefix := "_" + n.table;
    Redis(map name | name in r.sets && name != n.KeySet() && name != n.DelSet() && !(prefix <= name) :: r.sets[name],
          map name | name in r.hashes && !(prefix <= name) :: r.hashes[name])
  }

  /** The dump script lists the keys behind a colon, whatever separator the table uses. */
  function DumpName(n: Names, key: string): string { n.table + ":" + key }

  /** Table::dump: the rows so listed, without the placeholder field of an empty row. */
  ghost predicate IsDump(n: Names, r: Redis, dump: Db) {
    && (forall k :: k in dump <==> DumpName(n, k) in r.hashes)
    && (forall k | k in dump :: dump[k] == r.hashes[DumpName(n, k)] - {"NULL"})
  }

  /** What apply_temp_view computes and sends for a view. */
  ghost predicate IsSwitch(n: Names, r: Redis, view: Db, dump: Db,
                           toSet: seq<string>, toDel: seq<string>, rows: Db, kfvs: seq<(string, FieldValues)>) {
    && WellFormed(r.hashes)
    && IsDump(n, LuaClear(n, r), dump)
    && IsDiff(dump, view, toSet, toDel, rows) && Lists(kfvs, rows)
  }

  /** Clearing drops what is pending and spares every row of the table. */
  lemma ClearParts(n: Names, r: Redis)
    requires n.Valid() && WellFormed(r.hashes)
    ensures var r' := LuaClear(n, r);
            && WellFormed(r'.hashes)
            && Keys(n, r') == {} && Dels(n, r') == {}
            && (forall k :: PendingRow(n, r', k) == map[])
            && (forall k :: TableRow(n, r', k) == TableRow(n, r, k) && (RowName(n, k) in r'.hashes <==> RowName(n, k) in r.hashes))
  {
    var prefix := "_" + n.table;
    forall k ensures prefix <= StateName(n, k) && !(prefix <= RowName(n, k)) {
      assert StateName(n, k) == prefix + ([n.sep] + k);
      NotPending(n, k);
    }
  }

  lemma {:induction false} SAddAllParts(r: Redis, name: string, members: seq<string>)
    ensures var r' := SAddAll(r, name, members);
            && r'.hashes == r.hashes
            && SetOf(r', name) == SetOf(r, name) + (set m | m in members)
            && forall other | other != name :: SetOf(r', other) == SetOf(r, other)
    decreases |members|
  {
    if members == [] {
      assert SetOf(r, name) + (set m | m in members) == SetOf(r, name);
    } else {
      SAddAllParts(SAdd(r, name, members[0]), name, members[1..]);
      assert (set m | m in members) == {members[0]} + (set m | m in members[1..]);
    }
  }

  lemma {:induction false} HashAllParts(n: Names, r: Redis, kfvs: seq<(string, FieldValues)>)
    requires n.Valid() && WellFormed(r.hashes)
    requires forall i, j | 0 <= i < j < |kfvs| :: kfvs[i].0 != kfvs[j].0
    ensures var r' := HashAll(n, r, kfvs);
            && r'.sets == r.sets && WellFormed(r'.hashes)
            && (forall k :: TableRow(n, r', k) == TableRow(n, r, k))
            && (forall i | 0 <= i < |kfvs| && kfvs[i].0 != "" ::
                  PendingRow(n, r', kfvs[i].0) == Merge(PendingRow(n, r, kfvs[i].0), kfvs[i].1))
            && (forall k | k !in KeysOf(kfvs) || k == "" :: PendingRow(n, r', k) == PendingRow(n, r, k))
    decreases |kfvs|
  {
    if kfvs != [] {
      var (key, fvs) := kfvs[0];
      var r1 := HSets(r, n.StateHash(key), fvs);
      HashOneParts(n, r, key, fvs);
      HashAllParts(n, r1, kfvs[1..]);
      KeysOfMember(kfvs[1..]);
      assert forall i | 1 <= i < |kfvs| :: kfvs[i] == kfvs[1..][i - 1];
    }
  }

  lemma {:induction false} KeysOfMember(kfvs: seq<(string, FieldValues)>)
    ensures |KeysOf(kfvs)| == |kfvs| && forall i | 0 <= i < |kfvs| :: KeysOf(kfvs)[i] == kfvs[i].0
    decreases |kfvs|
  {
    if kfvs != [] { KeysOfMember(kfvs[1..]); }
  }

  lemma HashOneParts(n: Names, r: Redis, key: string, fvs: FieldValues)
    requires n.Valid() && WellFormed(r.hashes)
    ensures var r' := HSets(r, n.StateHash(key), fvs);
            && r'.sets == r.sets && WellFormed(r'.hashes)
            && (forall k :: TableRow(n, r', k) == TableRow(n, r, k))
            && (forall k :: PendingRow(n, r', k) == if k == key && key != "" then Merge(PendingRow(n, r, k), fvs) else PendingRow(n, r, k))
  {
    HashNames(n, key);
    assert n.StateHash(key) == HashFor(n, key);
    hide RowName, StateName, HSets, Merge;
    NamesApart(n);
    HSetsLookup(r, HashFor(n, key), fvs);
  }

  lemma AnnounceParts(n: Names, r: Redis, toSet: seq<string>, toDel: seq<string>)
    requires n.Valid() && Keys(n, r) == {} && Dels(n, r) == {}
    ensures var r' := SAddAll(SAddAll(r, n.KeySet(), toSet), n.DelSet(), toDel);
            && r'.hashes == r.hashes
            && Keys(n, r') == (set k | k in toSet) && Dels(n, r') == (set k | k in toDel)
  {
    hide SAddAll, SetOf;
    NamesApart(n);
    assert n.KeySet() == KeySetName(n) && n.DelSet() == DelSetName(n);
    SAddAllParts(r, n.KeySet(), toSet);
    SAddAllParts(SAddAll(r, n.KeySet(), toSet), n.DelSet(), toDel);
    assert {} + (set k | k in toSet) == (set k | k in toSet);
    assert {} + (set k | k in toDel) == (set k | k in toDel);
  }

  lemma PendingParts(n: Names, r: Redis, rows: Db, kfvs: seq<(string, FieldValues)>)
    requires n.Valid() && WellFormed(r.hashes) && Lists(kfvs, rows)
    requires forall k :: PendingRow(n, r, k) == map[]
    ensures var r' := HashAll(n, r, kfvs);
            && WellFormed(r'.hashes) && r'.sets == r.sets
            && (forall k :: PendingRow(n, r', k) == if k == "" then map[] else Lookup(rows, k))
            && (forall k :: TableRow(n, r', k) == TableRow(n, r, k))
  {
    hide HashAll, TableRow, PendingRow, Merge;
    KeysOfMember(kfvs);
    HashAllParts(n, r, kfvs);
    var r' := HashAll(n, r, kfvs);
    forall k ensures PendingRow(n, r', k) == if k == "" then map[] else Lookup(rows, k) {
      if k in rows && k != "" {
        var i :| 0 <= i < |kfvs| && KeysOf(kfvs)[i] == k;
        assert kfvs[i].0 == k;
      }
    }
  }

  lemma ViewParts(n: Names, r: Redis, toSet: seq<string>, toDel: seq<string>, rows: Db,
                  kfvs: seq<(string, FieldValues)>)
    requires n.Valid() && WellFormed(r.hashes) && Lists(kfvs, rows)
    ensures var r' := ViewSpec(n, LuaClear(n, r), toSet, toDel, kfvs);
            && WellFormed(r'.hashes)
            && Keys(n, r') == (set k | k in toSet) && Dels(n, r') == (set k | k in toDel)
            && (forall k :: PendingRow(n, r', k) == if k == "" then map[] else Lookup(rows, k))
            && (forall k :: TableRow(n, r', k) == TableRow(n, r, k))
  {
    hide LuaClear, HashAll, SAddAll, TableRow, PendingRow, RowName, StateName, Lists;
    ClearParts(n, r);
    AnnounceParts(n, LuaClear(n, r), toSet, toDel);
    var r2 := SAddAll(SAddAll(LuaClear(n, r), n.KeySet(), toSet), n.DelSet(), toDel);
    SameHashes(n, LuaClear(n, r), r2);
    PendingParts(n, r2, rows, kfvs);
  }

  // ---------- When the switch gives the view ----------

  /** Comparing with the dump gives the view from `row`: it is cleared, or it has no field that the
      view lacks, or it is left alone and is the view's. */
  ghost predicate Reaches(row: Row, view: Db, dump: Db, k: string) {
    || Loses(dump, view, k)
    || if Differs(dump, view, k) then row.Keys <= Lookup(view, k).Keys else row == Lookup(view, k)
  }

  /** What the comparison leaves of a row that the table holds, for any dump. */
  lemma RowSwitched(row: Row, view: Db, dump: Db, toSet: seq<string>, toDel: seq<string>, rows: Db, k: string)
    requires IsDiff(dump, view, toSet, toDel, rows)
    ensures (if k in toDel then map[] else row) + Lookup(rows, k) == Lookup(view, k) <==> Reaches(row, view, dump, k)
    ensures (if k in toDel then map[] else row) + Lookup(rows, k)
            == if Loses(dump, view, k) then Lookup(view, k) else if Differs(dump, view, k) then row + Lookup(view, k) else row
  {
    var target := Lookup(view, k);
    assert map[] + target == target && row + map[] == row;
    if row.Keys <= target.Keys {
      assert row + target == target;
    } else {
      var f :| f in row.Keys && f !in target.Keys;
      assert f in row + target;
    }
  }

  /** The switch, row by row, for every separator: the exact condition on the dump. */
  lemma SwitchRow(n: Names, r: Redis, view: Db, dump: Db,
                  toSet: seq<string>, toDel: seq<string>, rows: Db, kfvs: seq<(string, FieldValues)>, k: string)
    requires n.Valid() && IsSwitch(n, r, view, dump, toSet, toDel, rows, kfvs) && k != ""
    ensures var r', row := ViewSpec(n, LuaClear(n, r), toSet, toDel, kfvs), TableRow(n, r, k);
            && Effective(n, r', k)
               == (if Loses(dump, view, k) then Lookup(view, k) else if Differs(dump, view, k) then row + Lookup(view, k) else row)
            && (Effective(n, r', k) == Lookup(view, k) <==> Reaches(row, view, dump, k))
  {
    hide LuaClear, ViewSpec, TableRow, PendingRow, Keys, Dels, IsDump, IsDiff, Lists, Loses, Differs, Reaches;
    ViewParts(n, r, toSet, toDel, rows, kfvs);
    RowSwitched(TableRow(n, r, k), view, dump, toSet, toDel, rows, k);
  }

  lemma SwitchCoherent(n: Names, r: Redis, view: Db, dump: Db,
                       toSet: seq<string>, toDel: seq<string>, rows: Db, kfvs: seq<(string, FieldValues)>)
    requires n.Valid() && IsSwitch(n, r, view, dump, toSet, toDel, rows, kfvs)
    ensures Coherent(n, ViewSpec(n, LuaClear(n, r), toSet, toDel, kfvs), {})
  {
    hide LuaClear, ViewSpec, TableRow, PendingRow, Keys, Dels, IsDump, IsDiff, Lists;
    ViewParts(n, r, toSet, toDel, rows, kfvs);
    DiffGivesTarget(dump, view, toSet, toDel, rows);
  }

  /** The placeholder stays behind: the row only gains fields, and the view has no such field. */
  ghost predicate Leftover(n: Names, r: Redis, view: Db, k: string) {
    && "NULL" in TableRow(n, r, k)
    && k in view && "NULL" !in view[k]
    && TableRow(n, r, k).Keys - {"NULL"} <= view[k].Keys
  }

  lemma DumpRow(n: Names, r: Redis, dump: Db, k: string)
    requires n.Valid() && n.sep == ':' && WellFormed(r.hashes) && IsDump(n, LuaClear(n, r), dump)
    ensures k in dump <==> TableRow(n, r, k) != map[]
    ensures Lookup(dump, k) == TableRow(n, r, k) - {"NULL"}
  {
    hide LuaClear;
    ClearParts(n, r);
    assert DumpName(n, k) == RowName(n, k);
    var nothing: Row := map[];
    assert nothing - {"NULL"} == nothing;
  }

  lemma LeftoverExact(n: Names, r: Redis, view: Db, dump: Db, k: string)
    requires n.Valid() && n.sep == ':' && WellFormed(r.hashes) && IsDump(n, LuaClear(n, r), dump)
    ensures Leftover(n, r, view, k) <==> !Reaches(TableRow(n, r, k), view, dump, k)
  {
    hide LuaClear, IsDump, TableRow;
    DumpRow(n, r, dump, k);
    var row := TableRow(n, r, k);
    assert (row - {"NULL"}).Keys == row.Keys - {"NULL"};
    if "NULL" !in row {
      assert row - {"NULL"} == row;
    }
  }

  /** With the colon as separator the pending state stands for the view on exactly the rows where
      no placeholder field is left over, and on every row apart from that field. */
  lemma ViewSwitched(n: Names, r: Redis, view: Db, dump: Db,
                     toSet: seq<string>, toDel: seq<string>, rows: Db, kfvs: seq<(string, FieldValues)>)
    requires n.Valid() && n.sep == ':' && IsSwitch(n, r, view, dump, toSet, toDel, rows, kfvs)
    ensures var r' := ViewSpec(n, LuaClear(n, r), toSet, toDel, kfvs);
            && Coherent(n, r', {})
            && (forall k | k != "" :: Effective(n, r', k) == Lookup(view, k) <==> !Leftover(n, r, view, k))
            && (forall k | k != "" :: Effective(n, r', k) - {"NULL"} == Lookup(view, k) - {"NULL"})
  {
    hide LuaClear, ViewSpec, Effective, Leftover, IsDiff, Lists;
    SwitchCoherent(n, r, view, dump, toSet, toDel, rows, kfvs);
    var r' := ViewSpec(n, LuaClear(n, r), toSet, toDel, kfvs);
    forall k | k != ""
      ensures Effective(n, r', k) == Lookup(view, k) <==> !Leftover(n, r, view, k)
      ensures Effective(n, r', k) - {"NULL"} == Lookup(view, k) - {"NULL"}
    {
      SwitchRow(n, r, view, dump, toSet, toDel, rows, kfvs, k);
      LeftoverExact(n, r, view, dump, k);
      DumpRow(n, r, dump, k);
      if !Loses(dump, view, k) {
        OtherFields(TableRow(n, r, k), view, dump, k);
      }
    }
  }

  /** Apart from the placeholder a row that loses nothing is already part of the view. */
  lemma OtherFields(row: Row, view: Db, dump: Db, k: string)
    requires Lookup(dump, k) == row - {"NULL"} && (k in dump <==> row != map[]) && !Loses(dump, view, k)
    ensures var target := Lookup(view, k);
            && (row + target) - {"NULL"} == target - {"NULL"}
            && (!Differs(dump, view, k) ==> row - {"NULL"} == target - {"NULL"})
  {
    var target := Lookup(view, k);
    assert forall f | f in row && f != "NULL" :: f in row - {"NULL"} && f in target;
    assert (row + target) - {"NULL"} == target - {"NULL"};
  }

  /** Whatever the separator, the pending state stands for the whole view if and only if each row
      reaches it; with the colon, if and only if nothing is left over. */
  lemma SwitchMeans(n: Names, r: Redis, view: Db, dump: Db,
                    toSet: seq<string>, toDel: seq<string>, rows: Db, kfvs: seq<(string, FieldValues)>)
    requires n.Valid() && IsSwitch(n, r, view, dump, toSet, toDel, rows, kfvs)
    ensures var r' := ViewSpec(n, LuaClear(n, r), toSet, toDel, kfvs);
            && (Means(n, r', view) <==> forall k | k != "" :: Reaches(TableRow(n, r, k), view, dump, k))
            && (n.sep == ':' ==> (Means(n, r', view) <==> forall k | k != "" :: !Leftover(n, r, view, k)))
  {
    hide LuaClear, ViewSpec, Effective, Leftover, Reaches, IsSwitch, TableRow;
    forall k | k != ""
      ensures Effective(n, ViewSpec(n, LuaClear(n, r), toSet, toDel, kfvs), k) == Lookup(view, k)
              <==> Reaches(TableRow(n, r, k), view, dump, k)
    {
      SwitchRow(n, r, view, dump, toSet, toDel, rows, kfvs, k);
    }
    if n.sep == ':' {
      ViewSwitched(n, r, view, dump, toSet, toDel, rows, kfvs);
    }
  }

  /** From a switch that gives the view on, whatever is set, deleted and popped, a consumer that has
      popped everything holds the view with those later operations applied to it. */
  lemma ViewReachesTable(n: Names, r: Redis, view: Db, dump: Db, toSet: seq<string>, toDel: seq<string>, rows: Db,
                         kfvs: seq<(string, FieldValues)>, later: seq<Op>)
    requires n.Valid() && IsSwitch(n, r, view, dump, toSet, toDel, rows, kfvs)
    requires forall k | k != "" :: Reaches(TableRow(n, r, k), view, dump, k)
    requires IsRun(n, ViewSpec(n, LuaClear(n, r), toSet, toDel, kfvs), later)
    requires Keys(n, Run(n, ViewSpec(n, LuaClear(n, r), toSet, toDel, kfvs), later)) == {}
    ensures forall k | k != "" ::
              TableRow(n, Run(n, ViewSpec(n, LuaClear(n, r), toSet, toDel, kfvs), later), k) == Lookup(Replay(view, later), k)
  {
    hide ViewSpec, LuaClear, TableRow, Run, Replay, IsRun, IsSwitch, Coherent, Reaches, Leftover, Means;
    SwitchCoherent(n, r, view, dump, toSet, toDel, rows, kfvs);
    SwitchMeans(n, r, view, dump, toSet, toDel, rows, kfvs);
    var r' := ViewSpec(n, LuaClear(n, r), toSet, toDel, kfvs);
    CoalescingPreservesMeaning(n, r', later, view);
    PoppedDry(n, Run(n, r', later), Replay(view, later));
  }

  // ---------- Switches that do not give the view ----------

  lemma OneRow(n: Names, key: string, row: Row)
    requires n.Valid() && row != map[]
    ensures var r := Redis(map[], map[RowName(n, key) := row]);
            && WellFormed(r.hashes) && LuaClear(n, r).hashes == r.hashes
            && (forall k :: TableRow(n, r, k) == if k == key then row else map[])
            && (n.sep == ':' ==> IsDump(n, LuaClear(n, r), map[key := row - {"NULL"}]))
            && (n.sep != ':' ==> IsDump(n, LuaClear(n, r), map[]))
  {
    var r := Redis(map[], map[RowName(n, key) := row]);
    NamesApart(n);
    ClearParts(n, r);
    assert RowName(n, key) in LuaClear(n, r).hashes;
    assert LuaClear(n, r).hashes == r.hashes;
    if n.sep == ':' {
      assert forall k :: DumpName(n, k) == RowName(n, k);
    } else {
      forall k ensures DumpName(n, k) != RowName(n, key) {
        assert DumpName(n, k)[|n.table|] == ':' && RowName(n, key)[|n.table|] == n.sep;
      }
    }
  }

  /** A row without fields that gains one. */
  lemma GainDiff(key: string, field: string, value: string)
    ensures var view: Db := map[key := map[field := value]];
            && IsDiff(map[key := map[]], view, [key], [], view)
            && Lists([(key, [(field, value)])], view)
  {
    var row: Row := map[field := value];
    assert field in row;
    MergeOne(field, value);
    var kfvs := [(key, [(field, value)])];
    assert kfvs[1..] == [] && KeysOf(kfvs) == [key];
  }

  lemma NoDiff()
    ensures IsDiff(map[], map[], [], [], map[]) && Lists([], map[])
  {
  }

  /** A row with only the placeholder that gains a field keeps the placeholder. */
  lemma PlaceholderStays(n: Names, key: string, field: string, value: string)
    requires n.Valid() && n.sep == ':' && key != "" && field != "NULL"
    ensures var r := Redis(map[], map[RowName(n, key) := map["NULL" := "NULL"]]);
            var view: Db := map[key := map[field := value]];
            var kfvs := [(key, [(field, value)])];
            && IsSwitch(n, r, view, map[key := map[]], [key], [], view, kfvs)
            && Effective(n, ViewSpec(n, LuaClear(n, r), [key], [], kfvs), key) != Lookup(view, key)
  {
    var empty: Row := map["NULL" := "NULL"];
    var r := Redis(map[], map[RowName(n, key) := empty]);
    var view: Db := map[key := map[field := value]];
    var kfvs := [(key, [(field, value)])];
    assert "NULL" in empty && empty - {"NULL"} == map[];
    OneRow(n, key, empty);
    GainDiff(key, field, value);
    hide LuaClear, ViewSpec, RowName, TableRow, Effective, IsDiff, Lists, IsDump, WellFormed;
    assert IsSwitch(n, r, view, map[key := map[]], [key], [], view, kfvs);
    assert Leftover(n, r, view, key);
    hide IsSwitch, Leftover;
    ViewSwitched(n, r, view, map[key := map[]], [key], [], view, kfvs);
  }

  /** Any other separator: the dump misses the table, so a switch removes nothing. */
  lemma OtherSeparatorKeeps(n: Names, key: string, row: Row)
    requires n.Valid() && n.sep != ':' && key != "" && row != map[]
    ensures var r := Redis(map[], map[RowName(n, key) := row]);
            && IsSwitch(n, r, map[], map[], [], [], map[], [])
            && Effective(n, ViewSpec(n, LuaClear(n, r), [], [], []), key) == row
  {
    var r := Redis(map[], map[RowName(n, key) := row]);
    OneRow(n, key, row);
    NoDiff();
    hide LuaClear, ViewSpec, RowName, TableRow, Effective, IsDiff, Lists, IsDump, WellFormed;
    assert IsSwitch(n, r, map[], map[], [], [], map[], []);
    hide IsSwitch;
    SwitchRow(n, r, map[], map[], [], [], map[], [], key);
  }

  /** Without placeholder fields in the table, every switch gives its view if and only if the
      separator is the colon that the dump script assumes. */
  lemma SeparatorExact(n: Names)
    requires n.Valid()
    ensures n.sep == ':' <==>
            forall r, view, dump, toSet, toDel, rows, kfvs |
              IsSwitch(n, r, view, dump, toSet, toDel, rows, kfvs) && (forall k :: "NULL" !in TableRow(n, r, k)) ::
              Means(n, ViewSpec(n, LuaClear(n, r), toSet, toDel, kfvs), view)
  {
    hide LuaClear, ViewSpec, TableRow, IsSwitch, Means, RowName;
    if n.sep == ':' {
      forall r, view, dump, toSet, toDel, rows, kfvs |
        IsSwitch(n, r, view, dump, toSet, toDel, rows, kfvs) && (forall k :: "NULL" !in TableRow(n, r, k))
        ensures Means(n, ViewSpec(n, LuaClear(n, r), toSet, toDel, kfvs), view)
      {
        SwitchMeans(n, r, view, dump, toSet, toDel, rows, kfvs);
      }
    } else {
      var row: Row := map["f" := "v"];
      var r := Redis(map[], map[RowName(n, "k") := row]);
      assert "f" in row && "NULL" !in row;
      OneRow(n, "k", row);
      OtherSeparatorKeeps(n, "k", row);
      NotTheView(n, ViewSpec(n, LuaClear(n, r), [], [], []), "k");
      assert IsSwitch(n, r, map[], map[], [], [], map[], []);
    }
  }

  lemma NotTheView(n: Names, r: Redis, key: string)
    requires key != "" && Effective(n, r, key) != map[]
    ensures !Means(n, r, map[])
  {
    assert Lookup(map[], key) == map[];
  }
}
