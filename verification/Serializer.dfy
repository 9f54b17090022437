/** The BinarySerializer object itself: a cursor that writes into a caller's buffer, and the
    two decoding loops, proved against the encoding and decoding functions of Codec. */
module Serializer {
  import opened Tables
  import opened Decimal
  import opened Codec

  lemma {:induction false} EncodePairsSplit(a: FieldValues, b: FieldValues)
    ensures EncodePairs(a + b) == EncodePairs(a) + EncodePairs(b)
    decreases |a|
  {
    hide EncodePair;
    if a == [] {
      assert a + b == b;
    } else {
      assert (a + b)[1..] == a[1..] + b;
      EncodePairsSplit(a[1..], b);
    }
  }

  lemma EncodePairsOne(p: (string, string))
    ensures EncodePairs([p]) == EncodePair(p)
  {
    hide EncodePair;
    assert [p][1..] == [];
    assert EncodePairs([]) == [];
    assert EncodePair(p) + [] == EncodePair(p);
  }

  /** What one more pair adds, and what it leaves to come at least. */
  lemma EncodePairsNext(done: FieldValues, p: (string, string), rest: FieldValues)
    ensures EncodePairs(done + [p]) == EncodePairs(done) + EncodePair(p)
    ensures |EncodePairs(done + [p] + rest)| >= |EncodePairs(done)| + |EncodePair(p)|
  {
    hide EncodePair, EncodePairs;
    EncodePairsSplit(done, [p]);
    EncodePairsOne(p);
    EncodePairsSplit(done + [p], rest);
  }

  ghost function Overwritten(was: string, at: nat, data: string): string
    requires at + |data| <= |was|
  {
    was[..at] + data + was[at + |data|..]
  }

  lemma OverwrittenTwice(was: string, at: nat, a: string, b: string)
    requires at + |a| + |b| <= |was|
    ensures Overwritten(Overwritten(was, at, a), at + |a|, b) == Overwritten(was, at, a + b)
  {
    var mid := Overwritten(was, at, a);
    assert mid[..at + |a|] == was[..at] + a;
    assert mid[at + |a| + |b|..] == was[at + |a| + |b|..];
  }

  class BinarySerializer {
    const buffer: array<char>
    const size: nat
    var position: nat
    var count: nat

    ghost predicate Valid()
      reads this
    {
      size <= buffer.Length && SIZE_T <= position && (position <= size || position == SIZE_T)
    }

    constructor (buffer: array<char>, size: nat)
      requires size <= buffer.Length
      ensures Valid() && this.buffer == buffer && this.size == size
      ensures position == SIZE_T && count == 0
    {
      this.buffer, this.size := buffer, size;
      position, count := SIZE_T, 0;
    }

    /** memcpy */
    method CopyData(at: nat, data: string)
      requires at + |data| <= buffer.Length
      modifies buffer
      ensures buffer[..] == Overwritten(old(buffer[..]), at, data)
    {
      forall i | 0 <= i < |data| {
        buffer[at + i] := data[i];
      }
    }

    /** The data goes in behind its length; without room nothing is written (the source throws). */
    method SetData(data: string) returns (ok: bool)
      requires Valid()
      modifies this`position, buffer
      ensures Valid()
      ensures ok <==> old(position) + |EncodeData(data)| <= size
      ensures ok ==> position == old(position) + |EncodeData(data)|
                     && buffer[..] == Overwritten(old(buffer[..]), old(position), EncodeData(data))
      ensures !ok ==> position == old(position) && buffer[..] == old(buffer[..])
    {
      hide Bytes;
      if position + |data| + SIZE_T > size {
        return false;
      }
      ghost var was := buffer[..];
      OverwrittenTwice(was, position, Bytes(|data|, SIZE_T), data);
      CopyData(position, Bytes(|data|, SIZE_T));
      position := position + SIZE_T;
      CopyData(position, data);
      position := position + |data|;
      ok := true;
    }

    method SetKeyAndValue(p: (string, string)) returns (ok: bool)
      requires Valid()
      modifies this, buffer
      ensures Valid()
      ensures ok <==> old(position) + |EncodePair(p)| <= size
      ensures ok ==> count == old(count) + 1 && position == old(position) + |EncodePair(p)|
                     && buffer[..] == Overwritten(old(buffer[..]), old(position), EncodePair(p))
    {
      hide EncodeData;
      ghost var was := buffer[..];
      ghost var start := position;
      ok := SetData(p.0);
      if ok {
        ok := SetData(p.1);
        if ok {
          OverwrittenTwice(was, start, EncodeData(p.0), EncodeData(p.1));
          count := count + 1;
        }
      }
    }

    /** `*pkvp_count = m_kvp_count` */
    method FinishCount() returns (n: nat)
      requires Valid() && SIZE_T <= size
      modifies buffer
      ensures n == position
      ensures buffer[..] == Bytes(count, SIZE_T) + old(buffer[SIZE_T..])
    {
      CopyData(0, Bytes(count, SIZE_T));
      n := position;
    }

    /** Pairs `done` have been written behind the count; `was` is the buffer before any. */
    ghost predicate Holds(done: FieldValues, was: string)
      reads this, buffer
    {
      && Valid() && count == |done| && |was| == buffer.Length
      && position == SIZE_T + |EncodePairs(done)| <= buffer.Length
      && buffer[SIZE_T..] == EncodePairs(done) + was[position..]
    }

    /** One pair further: it fits, or the whole message does not. */
    method Append(p: (string, string), ghost done: FieldValues, ghost rest: FieldValues, ghost was: string)
      returns (ok: bool)
      requires Holds(done, was)
      modifies this, buffer
      ensures ok ==> Holds(done + [p], was)
      ensures !ok ==> SIZE_T + |EncodePairs(done + [p] + rest)| > size
    {
      hide EncodePair, EncodePairs;
      EncodePairsNext(done, p, rest);
      ghost var start := position;
      ghost var mid := buffer[..];
      ok := SetKeyAndValue(p);
      if ok {
        assert mid[SIZE_T..] == EncodePairs(done) + was[start..];
        assert mid[SIZE_T..start] == EncodePairs(done);
        assert mid[position..] == was[position..];
        assert buffer[SIZE_T..] == buffer[..][SIZE_T..];
        assert buffer[..][SIZE_T..] == mid[SIZE_T..start] + EncodePair(p) + mid[position..];
      }
    }
  }

  /** Writing a message: it succeeds exactly when the buffer is declared large enough for the
      whole encoding, returns its length, and touches nothing behind it. */
  method SerializeBuffer(buffer: array<char>, size: nat, dbName: string, table: string, kcos: seq<Kco>)
    returns (r: Option<nat>)
    requires size <= buffer.Length
    modifies buffer
    ensures r.Some? <==> |Encode(dbName, table, kcos)| <= size
    ensures r.Some? ==>
              && r.value == |Encode(dbName, table, kcos)|
              && buffer[..] == Encode(dbName, table, kcos) + old(buffer[..])[r.value..]
  {
    hide EncodePairs, Bytes, MessagePairs;
    EncodeParts(dbName, table, kcos);
    ghost var was := buffer[..];
    var s := new BinarySerializer(buffer, size);
    if size < SIZE_T {
      // the source's first setData throws
      return None;
    }
    NothingYet();
    var ok := WriteMessage(s, dbName, table, kcos, was);
    if !ok {
      return None;
    }
    ghost var before := buffer[SIZE_T..];
    var n := s.FinishCount();
    Finished(dbName, table, kcos, before, was, n);
    r := Some(n);
  }

  lemma EncodeParts(dbName: string, table: string, kcos: seq<Kco>)
    ensures var all := MessagePairs(dbName, table, kcos);
            && Encode(dbName, table, kcos) == Bytes(|all|, SIZE_T) + EncodePairs(all)
            && |Encode(dbName, table, kcos)| == SIZE_T + |EncodePairs(all)|
  {
    hide EncodePairs, MessagePairs;
  }

  /** The count in front of the pairs makes the encoding, and what was behind them stays. */
  lemma Finished(dbName: string, table: string, kcos: seq<Kco>, before: string, was: string, n: nat)
    requires n <= |was| && before == EncodePairs(MessagePairs(dbName, table, kcos)) + was[n..]
    ensures Bytes(|MessagePairs(dbName, table, kcos)|, SIZE_T) + before == Encode(dbName, table, kcos) + was[n..]
  {
    hide EncodePairs, Bytes, MessagePairs;
    EncodeParts(dbName, table, kcos);
  }

  /** The names first, then the requests. */
  method WriteMessage(s: BinarySerializer, dbName: string, table: string, kcos: seq<Kco>, ghost was: string)
    returns (ok: bool)
    requires s.Holds([], was)
    modifies s, s.buffer
    ensures ok ==> s.Holds(MessagePairs(dbName, table, kcos), was)
    ensures !ok ==> SIZE_T + |EncodePairs(MessagePairs(dbName, table, kcos))| > s.size
  {
    hide EncodePair, EncodePairs, RequestsPairs;
    ghost var names: FieldValues := [(dbName, table)];
    assert [] + names == names;
    ok := s.Append((dbName, table), [], RequestsPairs(kcos), was);
    if ok {
      ok := AppendRequests(s, kcos, names, was);
    }
  }

  method AppendRequests(s: BinarySerializer, kcos: seq<Kco>, ghost done: FieldValues, ghost was: string)
    returns (ok: bool)
    requires s.Holds(done, was)
    modifies s, s.buffer
    ensures ok ==> s.Holds(done + RequestsPairs(kcos), was)
    ensures !ok ==> SIZE_T + |EncodePairs(done + RequestsPairs(kcos))| > s.size
  {
    hide EncodePair, EncodePairs, RequestPairs;
    ghost var all := done + RequestsPairs(kcos);
    ghost var now := done;
    assert kcos[0..] == kcos;
    ok := true;
    var i := 0;
    while ok && i < |kcos|
      invariant i <= |kcos|
      invariant ok ==> s.Holds(now, was) && now + RequestsPairs(kcos[i..]) == all
      invariant !ok ==> SIZE_T + |EncodePairs(all)| > s.size
    {
      ghost var rest := RequestsPairs(kcos[i + 1..]);
      assert kcos[i..][1..] == kcos[i + 1..];
      assert now + RequestPairs(kcos[i]) + rest == now + (RequestPairs(kcos[i]) + rest);
      ok := AppendRequest(s, kcos[i], now, rest, was);
      now := now + RequestPairs(kcos[i]);
      i := i + 1;
    }
    if ok {
      assert kcos[i..] == [] && now + [] == now;
    }
  }

  lemma NothingYet()
    ensures EncodePairs([]) == []
  {
  }

  method AppendRequest(s: BinarySerializer, kco: Kco, ghost done: FieldValues, ghost rest: FieldValues, ghost was: string)
    returns (ok: bool)
    requires s.Holds(done, was)
    modifies s, s.buffer
    ensures ok ==> s.Holds(done + RequestPairs(kco), was)
    ensures !ok ==> SIZE_T + |EncodePairs(done + RequestPairs(kco) + rest)| > s.size
  {
    hide EncodePair, EncodePairs, ToString;
    var header := (kco.key, ToString(|kco.fvs|));
    ghost var all := done + RequestPairs(kco) + rest;
    assert done + [header] + (kco.fvs + rest) == all;
    ok := s.Append(header, done, kco.fvs + rest, was);
    ghost var now := done + [header];
    assert now + kco.fvs[..0] == now;
    var j := 0;
    while ok && j < |kco.fvs|
      invariant j <= |kco.fvs|
      invariant ok ==> s.Holds(done + [header] + kco.fvs[..j], was)
      invariant !ok ==> SIZE_T + |EncodePairs(all)| > s.size
    {
      now := done + [header] + kco.fvs[..j];
      assert now + [kco.fvs[j]] + (kco.fvs[j + 1..] + rest) == all;
      ok := s.Append(kco.fvs[j], now, kco.fvs[j + 1..] + rest, was);
      assert now + [kco.fvs[j]] == done + [header] + kco.fvs[..j + 1];
      j := j + 1;
    }
    if ok {
      assert done + [header] + kco.fvs[..j] == done + RequestPairs(kco);
    }
  }

  /** The accumulating loop of serializedSize predicts the encoded length. */
  method SerializedSize(dbName: string, table: string, kcos: seq<Kco>) returns (n: nat)
    ensures n == |Encode(dbName, table, kcos)|
  {
    hide Bytes, ToString, EncodePairs;
    n := |dbName| + SIZE_T;
    n := n + |table| + SIZE_T;
    ghost var all := MessagePairs(dbName, table, kcos);
    ghost var done := [(dbName, table)];
    EncodePairsOne((dbName, table));
    assert kcos[0..] == kcos;
    var i := 0;
    while i < |kcos|
      invariant i <= |kcos|
      invariant done + RequestsPairs(kcos[i..]) == all
      invariant n == |EncodePairs(done)|
    {
      var m := RequestSize(kcos[i]);
      assert kcos[i..][1..] == kcos[i + 1..];
      EncodePairsSplit(done, RequestPairs(kcos[i]));
      assert done + RequestPairs(kcos[i]) + RequestsPairs(kcos[i + 1..]) == done + RequestsPairs(kcos[i..]);
      done := done + RequestPairs(kcos[i]);
      n := n + m;
      i := i + 1;
    }
    assert kcos[i..] == [] && done + [] == done;
    n := n + SIZE_T;
  }

  method RequestSize(kco: Kco) returns (n: nat)
    ensures n == |EncodePairs(RequestPairs(kco))|
  {
    hide Bytes, ToString, EncodePairs;
    var header := (kco.key, ToString(|kco.fvs|));
    n := |kco.key| + SIZE_T;
    n := n + |ToString(|kco.fvs|)| + SIZE_T;
    EncodePairsOne(header);
    assert [header] + kco.fvs[..0] == [header];
    for j := 0 to |kco.fvs|
      invariant n == |EncodePairs([header] + kco.fvs[..j])|
    {
      EncodePairsNext([header] + kco.fvs[..j], kco.fvs[j], []);
      assert [header] + kco.fvs[..j] + [kco.fvs[j]] == [header] + kco.fvs[..j + 1];
      n := n + |kco.fvs[j].0| + SIZE_T;
      n := n + |kco.fvs[j].1| + SIZE_T;
    }
    assert [header] + kco.fvs[..|kco.fvs|] == RequestPairs(kco);
  }

  /** The pair-reading loop computes exactly DecodeBuffer, on any bytes and any declared size. */
  method DeserializePairs(buffer: array<char>, size: nat) returns (r: Decoded<FieldValues>)
    ensures r == DecodeBuffer(buffer[..], size)
  {
    hide DecodeData, FromBytes;
    if SIZE_T > buffer.Length { return BadAccess; }
    var buf := buffer[..];
    var count := ReadSize(buf, 0);
    var pos := SIZE_T;
    var values: FieldValues := [];
    ghost var whole := DecodePairs(buf, size, pos, count);
    if whole.Ok? { assert [] + whole.value == whole.value; }
    while count > 0
      invariant whole == Prepend(values, DecodePairs(buf, size, pos, count))
    {
      var key := DecodeData(buf, size, pos);
      match key {
        case Truncated => return Truncated;
        case BadAccess => return BadAccess;
        case BadCount => return BadCount;
        case Ok(k) =>
          var mid := pos + SIZE_T + |k|;
          var value := DecodeData(buf, size, mid);
          match value {
            case Truncated => return Truncated;
            case BadAccess => return BadAccess;
            case BadCount => return BadCount;
            case Ok(v) =>
              PrependTwice(values, [(k, v)], DecodePairs(buf, size, mid + SIZE_T + |v|, count - 1));
              values := values + [(k, v)];
              pos := mid + SIZE_T + |v|;
              count := count - 1;
          }
      }
    }
    assert values + [] == values;
    r := Ok(values);
  }

  lemma PrependTwice(a: FieldValues, b: FieldValues, d: Decoded<FieldValues>)
    ensures Prepend(a, Prepend(b, d)) == Prepend(a + b, d)
  {
    if d.Ok? { assert a + (b + d.value) == a + b + d.value; }
  }

  /** The request-assembling loop on top of it computes exactly Decode. */
  method DeserializeBuffer(buffer: array<char>, size: nat) returns (r: Decoded<Message>)
    ensures r == Decode(buffer[..], size)
  {
    hide DecodeBuffer;
    var pairs := DeserializePairs(buffer, size);
    match pairs {
      case Truncated => return Truncated;
      case BadAccess => return BadAccess;
      case BadCount => return BadCount;
      case Ok(values) =>
        var fvsSize, dbName, table := -1, "", "";
        var key, op, fvs: FieldValues := "", "", [];
        var kcos: seq<Kco> := [];
        var i := 0;
        assert values[0..] == values;
        while i < |values|
          invariant i <= |values|
          invariant Assemble(Partial(fvsSize, dbName, table, Kco(key, op, fvs), kcos), values[i..])
                    == Assemble(Start, values)
        {
          hide Stoi;
          var field, value := values[i].0, values[i].1;
          assert values[i..][0] == values[i] && values[i..][1..] == values[i + 1..];
          i := i + 1;
          if fvsSize < 0 {
            dbName, table, fvsSize := field, value, 0;
            continue;
          }
          if fvsSize == 0 {
            key := field;
            var n := Stoi(value);
            if n.None? { return BadCount; }
            fvsSize := n.value;
            op := if fvsSize == 0 then DEL_COMMAND else SET_COMMAND;
            fvs := [];
          } else {
            fvs := fvs + [(field, value)];
            fvsSize := fvsSize - 1;
          }
          if fvsSize == 0 {
            kcos := kcos + [Kco(key, op, fvs)];
          }
        }
        assert values[i..] == [];
        r := Ok(Message(dbName, table, kcos));
    }
  }
}
