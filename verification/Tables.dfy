/** Rows, tables and the Redis hash commands every component of the library is built on.
    A Redis hash never exists without fields, so a missing row and an empty row are the
    same thing to HGETALL; `Lookup` reads both as the empty map. */
module Tables {

  type Row = map<string, string>
  type FieldValues = seq<(string, string)>
  type Db = map<string, Row>

  datatype Option<+T> = None | Some(value: T)

  ghost predicate Distinct(s: seq<string>) {
    forall i, j | 0 <= i < j < |s| :: s[i] != s[j]
  }

  /** std::string::find of one character; the length if there is none. */
  function Position(s: string, ch: char): (p: nat)
    ensures p <= |s| && ch !in s[..p] && (p < |s| ==> s[p] == ch) && (ch in s <==> p < |s|)
  {
    if s == "" || s[0] == ch then 0
    else
      var p := Position(s[1..], ch);
      assert s == [s[0]] + s[1..] && s[..p + 1] == [s[0]] + s[1..][..p];
      p + 1
  }

  ghost predicate WellFormed(db: Db) {
    forall k | k in db :: db[k] != map[]
  }

  /** HGETALL */
  function Lookup(db: Db, key: string): Row {
    if key in db then db[key] else map[]
  }

  /** A row that loses its last field disappears with it. */
  function PutRow(db: Db, key: string, row: Row): Db {
    if row == map[] then db - {key} else db[key := row]
  }

  /** The fields are written in order, so the last value given for a field wins. */
  function Merge(row: Row, fvs: FieldValues): Row
    decreases |fvs|
  {
    if fvs == [] then row else Merge(row[fvs[0].0 := fvs[0].1], fvs[1..])
  }

  function HSet(db: Db, key: string, fvs: FieldValues): Db {
    PutRow(db, key, Merge(Lookup(db, key), fvs))
  }

  function HDel(db: Db, key: string, field: string): Db {
    PutRow(db, key, Lookup(db, key) - {field})
  }

  function Del(db: Db, key: string): Db {
    db - {key}
  }

  lemma PutRowLookup(db: Db, key: string, row: Row)
    ensures Lookup(PutRow(db, key, row), key) == row
    ensures forall k | k != key :: Lookup(PutRow(db, key, row), k) == Lookup(db, k)
    ensures WellFormed(db) ==> WellFormed(PutRow(db, key, row))
  {
  }

  /** Two well-formed tables that answer every lookup alike are the same table. */
  lemma SameLookups(a: Db, b: Db)
    requires WellFormed(a) && WellFormed(b)
    requires forall k :: Lookup(a, k) == Lookup(b, k)
    ensures a == b
  {
    assert forall k :: k in a <==> Lookup(a, k) != map[];
    assert forall k :: k in b <==> Lookup(b, k) != map[];
    assert forall k | k in a :: a[k] == Lookup(a, k) == Lookup(b, k) == b[k];
  }

  lemma {:induction false} MergeSplit(row: Row, a: FieldValues, b: FieldValues)
    ensures Merge(row, a + b) == Merge(Merge(row, a), b)
    decreases |a|
  {
    if a == [] {
      assert a + b == b;
    } else {
      assert (a + b)[1..] == a[1..] + b;
      MergeSplit(row[a[0].0 := a[0].1], a[1..], b);
    }
  }

  /** What a merge leaves: the old row overlaid by the new fields alone. */
  lemma {:induction false} MergeOverlay(row: Row, fvs: FieldValues)
    ensures Merge(row, fvs) == row + Merge(map[], fvs)
    decreases |fvs|
  {
    if fvs != [] {
      var (f, v) := fvs[0];
      MergeOverlay(row[f := v], fvs[1..]);
      MergeOverlay(map[][f := v], fvs[1..]);
      var rest := Merge(map[], fvs[1..]);
      assert row[f := v] + rest == row + (map[f := v] + rest);
    }
  }

  /** A merge keeps the fields there are, and leaves some if it writes any. */
  lemma {:induction false} MergeKeys(row: Row, fvs: FieldValues)
    ensures fvs != [] ==> Merge(row, fvs) != map[]
    ensures row.Keys <= Merge(row, fvs).Keys
    decreases |fvs|
  {
    if fvs != [] {
      MergeKeys(row[fvs[0].0 := fvs[0].1], fvs[1..]);
      assert fvs[0].0 in Merge(row, fvs);
    }
  }
}
