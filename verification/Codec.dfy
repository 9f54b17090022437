/** BinarySerializer: the byte format of the ZMQ path. A buffer cell, like a std::string
    element, is one byte and is written as a `char`. A size_t takes eight bytes, least
    significant first. */
module Codec {
  import opened Tables
  import opened Decimal

  const SIZE_T: nat := 8
  const SIZE_LIMIT: nat := 0x1_0000_0000_0000_0000

  const SET_COMMAND: string := "SET"
  const HSET_COMMAND := "HSET"
  const DEL_COMMAND := "DEL"

  /** KeyOpFieldsValuesTuple */
  datatype Kco = Kco(key: string, op: string, fvs: FieldValues)

  // ---------- Specification: the encoding ----------

  function Bytes(n: nat, k: nat): (s: string)
    ensures |s| == k
  {
    if k == 0 then [] else [(n % 256) as char] + Bytes(n / 256, k - 1)
  }

  function FromBytes(s: string): nat {
    if s == [] then 0 else s[0] as int + 256 * FromBytes(s[1..])
  }

  function EncodeData(s: string): string { Bytes(|s|, SIZE_T) + s }

  function EncodePair(p: (string, string)): string { EncodeData(p.0) + EncodeData(p.1) }

  function EncodePairs(ps: FieldValues): string {
    if ps == [] then [] else EncodePair(ps[0]) + EncodePairs(ps[1..])
  }

  function RequestPairs(kco: Kco): FieldValues {
    [(kco.key, ToString(|kco.fvs|))] + kco.fvs
  }

  function RequestsPairs(kcos: seq<Kco>): FieldValues {
    if kcos == [] then [] else RequestPairs(kcos[0]) + RequestsPairs(kcos[1..])
  }

  /** The first pair names the database and the table. */
  function MessagePairs(dbName: string, table: string, kcos: seq<Kco>): FieldValues {
    [(dbName, table)] + RequestsPairs(kcos)
  }

  function Encode(dbName: string, table: string, kcos: seq<Kco>): string {
    var ps := MessagePairs(dbName, table, kcos);
    Bytes(|ps|, SIZE_T) + EncodePairs(ps)
  }

  // ---------- Specification: the decoding ----------

  /** `Truncated`: the decoder's own check fired; `BadAccess`: it would read past the memory it
      was given; `BadCount`: std::stoi threw. */
  datatype Decoded<+T> = Ok(value: T) | Truncated | BadAccess | BadCount

  function ReadSize(buf: string, pos: nat): nat
    requires pos + SIZE_T <= |buf|
  {
    FromBytes(buf[pos..pos + SIZE_T]) % SIZE_LIMIT
  }

  /** One length-prefixed string at `pos`; the sum in the check wraps like a size_t. */
  function DecodeData(buf: string, size: nat, pos: nat): Decoded<string> {
    if pos + SIZE_T > |buf| then BadAccess
    else
      var len := ReadSize(buf, pos);
      if (pos + SIZE_T + len) % SIZE_LIMIT > size then Truncated
      else if pos + SIZE_T + len > |buf| then BadAccess
      else Ok(buf[pos + SIZE_T..pos + SIZE_T + len])
  }

  function DecodePairs(buf: string, size: nat, pos: nat, count: nat): Decoded<FieldValues>
    decreases count
  {
    if count == 0 then Ok([])
    else
      match DecodeData(buf, size, pos)
      case Truncated => Truncated
      case BadAccess => BadAccess
      case BadCount => BadCount
      case Ok(key) =>
        var mid := pos + SIZE_T + |key|;
        match DecodeData(buf, size, mid)
        case Truncated => Truncated
        case BadAccess => BadAccess
        case BadCount => BadCount
        case Ok(value) => Prepend([(key, value)], DecodePairs(buf, size, mid + SIZE_T + |value|, count - 1))
  }

  function Prepend(a: FieldValues, d: Decoded<FieldValues>): Decoded<FieldValues> {
    match d
    case Ok(b) => Ok(a + b)
    case _ => d
  }

  function DecodeBuffer(buf: string, size: nat): Decoded<FieldValues> {
    if SIZE_T > |buf| then BadAccess else DecodePairs(buf, size, SIZE_T, ReadSize(buf, 0))
  }

  /** What the decoder holds between two pairs; `left` counts the attribute pairs still to
      come and is negative before the first pair. */
  datatype Partial = Partial(left: int, dbName: string, table: string, kco: Kco, kcos: seq<Kco>)

  const Start := Partial(-1, "", "", Kco("", "", []), [])

  function Close(p: Partial): Partial {
    if p.left == 0 then p.(kcos := p.kcos + [p.kco]) else p
  }

  function Take(p: Partial, fv: (string, string)): Option<Partial> {
    if p.left < 0 then Some(p.(left := 0, dbName := fv.0, table := fv.1))
    else if p.left == 0 then
      match Stoi(fv.1)
      case None => None
      case Some(n) => Some(Close(p.(left := n, kco := Kco(fv.0, if n == 0 then DEL_COMMAND else SET_COMMAND, []))))
    else Some(Close(p.(left := p.left - 1, kco := p.kco.(fvs := p.kco.fvs + [fv]))))
  }

  function Assemble(p: Partial, ps: FieldValues): Option<Partial>
    decreases |ps|
  {
    if ps == [] then Some(p)
    else
      match Take(p, ps[0])
      case None => None
      case Some(q) => Assemble(q, ps[1..])
  }

  datatype Message = Message(dbName: string, table: string, kcos: seq<Kco>)

  function Finish(p: Option<Partial>): Decoded<Message> {
    match p
    case None => BadCount
    case Some(q) => Ok(Message(q.dbName, q.table, q.kcos))
  }

  function Decode(buf: string, size: nat): Decoded<Message> {
    match DecodeBuffer(buf, size)
    case Ok(ps) => Finish(Assemble(Start, ps))
    case Truncated => Truncated
    case BadAccess => BadAccess
    case BadCount => BadCount
  }

  // ---------- Round trip ----------

  function Pow256(k: nat): nat { if k == 0 then 1 else 256 * Pow256(k - 1) }

  lemma {:induction false} BytesValue(n: nat, k: nat)
    requires n < Pow256(k)
    ensures FromBytes(Bytes(n, k)) == n
  {
    if k > 0 {
      assert n / 256 < Pow256(k - 1);
      BytesValue(n / 256, k - 1);
      assert Bytes(n, k)[1..] == Bytes(n / 256, k - 1);
    }
  }

  lemma SizeBytes(n: nat)
    requires n < SIZE_LIMIT
    ensures FromBytes(Bytes(n, SIZE_T)) == n
  {
    assert Pow256(8) == SIZE_LIMIT by {
      assert Pow256(2) == 0x1_0000;
      assert Pow256(4) == 0x1_0000_0000;
      assert Pow256(6) == 0x1_0000_0000_0000;
    }
    BytesValue(n, SIZE_T);
  }

  /** `part` stands in the buffer at `pos`. */
  ghost predicate At(buf: string, pos: nat, part: string) {
    pos + |part| <= |buf| && buf[pos..pos + |part|] == part
  }

  lemma AtSplit(buf: string, pos: nat, a: string, b: string)
    requires At(buf, pos, a + b)
    ensures At(buf, pos, a) && At(buf, pos + |a|, b)
  {
    var whole := buf[pos..pos + |a + b|];
    assert whole[..|a|] == a && whole[|a|..] == b;
  }

  lemma AtFront(a: string, b: string)
    ensures At(a + b, 0, a)
  {
  }

  /** An encoded string is read back, or rejected when the declared size ends before it. */
  lemma DecodeDataAt(buf: string, pos: nat, s: string, size: nat)
    requires |buf| < SIZE_LIMIT && At(buf, pos, EncodeData(s))
    ensures DecodeData(buf, size, pos) == if pos + |EncodeData(s)| > size then Truncated else Ok(s)
  {
    hide Bytes, FromBytes;
    AtSplit(buf, pos, Bytes(|s|, SIZE_T), s);
    SizeBytes(|s|);
  }

  lemma {:induction false} DecodePairsAt(buf: string, pos: nat, ps: FieldValues, size: nat)
    requires ps != [] && |buf| < SIZE_LIMIT && At(buf, pos, EncodePairs(ps))
    ensures DecodePairs(buf, size, pos, |ps|) ==
            if pos + |EncodePairs(ps)| > size then Truncated else Ok(ps)
    decreases |ps|
  {
    hide Bytes, FromBytes;
    var (k, v) := ps[0];
    AtSplit(buf, pos, EncodePair(ps[0]), EncodePairs(ps[1..]));
    AtSplit(buf, pos, EncodeData(k), EncodeData(v));
    DecodeDataAt(buf, pos, k, size);
    DecodeDataAt(buf, pos + |EncodeData(k)|, v, size);
    if |ps| > 1 {
      DecodePairsAt(buf, pos + |EncodePair(ps[0])|, ps[1..], size);
    }
    assert [(k, v)] + ps[1..] == ps;
  }

  function Normalised(kco: Kco): Kco {
    kco.(op := if kco.fvs == [] then DEL_COMMAND else SET_COMMAND)
  }

  function AllNormalised(kcos: seq<Kco>): seq<Kco> {
    if kcos == [] then [] else [Normalised(kcos[0])] + AllNormalised(kcos[1..])
  }

  ghost predicate CountsFit(kcos: seq<Kco>) {
    kcos == [] || (|kcos[0].fvs| <= INT_MAX && CountsFit(kcos[1..]))
  }

  lemma {:induction false} AssembleSplit(p: Partial, a: FieldValues, b: FieldValues)
    ensures Assemble(p, a + b) ==
            match Assemble(p, a) case None => None case Some(q) => Assemble(q, b)
    decreases |a|
  {
    if a == [] {
      assert a + b == b;
    } else {
      assert (a + b)[1..] == a[1..] + b;
      match Take(p, a[0]) {
        case None =>
        case Some(q) => AssembleSplit(q, a[1..], b);
      }
    }
  }

  /** The attribute pairs of one request, read while that many are expected. */
  lemma {:induction false} AssembleFields(p: Partial, fvs: FieldValues)
    requires p.left == |fvs| > 0
    ensures Assemble(p, fvs) ==
            Some(p.(left := 0, kco := p.kco.(fvs := p.kco.fvs + fvs),
                    kcos := p.kcos + [p.kco.(fvs := p.kco.fvs + fvs)]))
    decreases |fvs|
  {
    assert p.kco.fvs + [fvs[0]] + fvs[1..] == p.kco.fvs + fvs;
    if |fvs| == 1 {
      assert fvs[1..] == [] && p.kco.fvs + [fvs[0]] == p.kco.fvs + fvs;
    } else {
      AssembleFields(p.(left := p.left - 1, kco := p.kco.(fvs := p.kco.fvs + [fvs[0]])), fvs[1..]);
    }
  }

  function WithRequest(p: Partial, kco: Kco): Partial {
    p.(kco := Normalised(kco), kcos := p.kcos + [Normalised(kco)])
  }

  lemma AssembleRequest(p: Partial, kco: Kco)
    requires p.left == 0
    ensures Assemble(p, RequestPairs(kco)) == if |kco.fvs| > INT_MAX then None else Some(WithRequest(p, kco))
  {
    StoiToString(|kco.fvs|);
    assert RequestPairs(kco)[1..] == kco.fvs;
    if 0 < |kco.fvs| <= INT_MAX {
      AssembleFields(p.(left := |kco.fvs|, kco := Kco(kco.key, SET_COMMAND, [])), kco.fvs);
      assert [] + kco.fvs == kco.fvs;
    }
  }

  lemma AssembleNothing(p: Partial)
    ensures Assemble(p, []) == Some(p)
  {
  }

  lemma {:induction false} AssembleRequests(p: Partial, kcos: seq<Kco>)
    requires p.left == 0
    ensures CountsFit(kcos) ==>
              Finish(Assemble(p, RequestsPairs(kcos))) == Ok(Message(p.dbName, p.table, p.kcos + AllNormalised(kcos)))
    ensures !CountsFit(kcos) ==> Assemble(p, RequestsPairs(kcos)) == None
    decreases |kcos|
  {
    hide Assemble, Take;
    if kcos == [] {
      AssembleNothing(p);
      assert p.kcos + [] == p.kcos;
    } else {
      var first, rest := kcos[0], kcos[1..];
      AssembleSplit(p, RequestPairs(first), RequestsPairs(rest));
      AssembleRequest(p, first);
      if |first.fvs| <= INT_MAX {
        AssembleRequests(WithRequest(p, first), rest);
        assert p.kcos + ([Normalised(first)] + AllNormalised(rest)) == p.kcos + [Normalised(first)] + AllNormalised(rest);
      }
    }
  }

  /** Decoding a buffer that starts with an encoded message, whatever follows it: a declared
      size short of the encoding is rejected, a field count beyond an int is rejected, and
      otherwise every name, key, field and value comes back, with SET for a request that has
      fields and DEL for one that has none. */
  lemma RoundTrip(dbName: string, table: string, kcos: seq<Kco>, junk: string, size: nat)
    requires |Encode(dbName, table, kcos) + junk| < SIZE_LIMIT
    ensures Decode(Encode(dbName, table, kcos) + junk, size) ==
            if size < |Encode(dbName, table, kcos)| then Truncated
            else if !CountsFit(kcos) then BadCount
            else Ok(Message(dbName, table, AllNormalised(kcos)))
  {
    var ps := MessagePairs(dbName, table, kcos);
    DecodeBufferAt(ps, junk, size);
    AssembleMessage(dbName, table, kcos);
  }

  lemma AssembleMessage(dbName: string, table: string, kcos: seq<Kco>)
    ensures Finish(Assemble(Start, MessagePairs(dbName, table, kcos))) ==
            if CountsFit(kcos) then Ok(Message(dbName, table, AllNormalised(kcos))) else BadCount
  {
    var ps := MessagePairs(dbName, table, kcos);
    var p := Start.(left := 0, dbName := dbName, table := table);
    assert ps[0] == (dbName, table) && ps[1..] == RequestsPairs(kcos);
    assert Assemble(Start, ps) == Assemble(p, ps[1..]);
    AssembleRequests(p, kcos);
    assert [] + AllNormalised(kcos) == AllNormalised(kcos);
  }

  lemma DecodeBufferAt(ps: FieldValues, junk: string, size: nat)
    requires ps != []
    requires |Bytes(|ps|, SIZE_T) + EncodePairs(ps) + junk| < SIZE_LIMIT
    ensures DecodeBuffer(Bytes(|ps|, SIZE_T) + EncodePairs(ps) + junk, size) ==
            if size < SIZE_T + |EncodePairs(ps)| then Truncated else Ok(ps)
  {
    hide Bytes, FromBytes, DecodePairs, EncodePairs;
    var count := Bytes(|ps|, SIZE_T);
    var buf := count + EncodePairs(ps) + junk;
    PairsFit(ps);
    SizeBytes(|ps|);
    AtFront(count + EncodePairs(ps), junk);
    AtSplit(buf, 0, count, EncodePairs(ps));
    DecodePairsAt(buf, SIZE_T, ps, size);
    assert ReadSize(buf, 0) == |ps|;
  }

  lemma {:induction false} PairsFit(ps: FieldValues)
    ensures |ps| <= |EncodePairs(ps)|
    decreases |ps|
  {
    if ps != [] { PairsFit(ps[1..]); }
  }

  ghost predicate WellTagged(kcos: seq<Kco>) {
    kcos == [] || (&& (if kcos[0].fvs == [] then kcos[0].op == DEL_COMMAND else kcos[0].op == SET_COMMAND)
                   && WellTagged(kcos[1..]))
  }

  lemma {:induction false} NormalisedFixed(kcos: seq<Kco>)
    ensures AllNormalised(kcos) == kcos <==> WellTagged(kcos)
    decreases |kcos|
  {
    if kcos != [] {
      NormalisedFixed(kcos[1..]);
      var rest := AllNormalised(kcos[1..]);
      if AllNormalised(kcos) == kcos {
        assert kcos[0] == AllNormalised(kcos)[0] == Normalised(kcos[0]);
        assert kcos[1..] == AllNormalised(kcos)[1..] == rest;
      }
      if WellTagged(kcos) {
        assert kcos == [kcos[0]] + kcos[1..];
      }
    }
  }

  /** The message survives unchanged exactly when every request is a SET with fields or a DEL
      without, and every field count fits an int. */
  lemma RoundTripExact(dbName: string, table: string, kcos: seq<Kco>, junk: string)
    requires |Encode(dbName, table, kcos) + junk| < SIZE_LIMIT
    ensures var n := |Encode(dbName, table, kcos)|;
            Decode(Encode(dbName, table, kcos) + junk, n) == Ok(Message(dbName, table, kcos))
            <==> CountsFit(kcos) && WellTagged(kcos)
  {
    RoundTrip(dbName, table, kcos, junk, |Encode(dbName, table, kcos)|);
    NormalisedFixed(kcos);
  }

  // ---------- When the decoder leaves its memory ----------

  /** The sum in the check has wrapped around and passes as within the declared size. */
  predicate Wraps(buf: string, size: nat, pos: nat) {
    && pos + SIZE_T <= |buf|
    && pos + SIZE_T + ReadSize(buf, pos) >= SIZE_LIMIT
    && (pos + SIZE_T + ReadSize(buf, pos)) % SIZE_LIMIT <= size
  }

  /** Among the next strings, those before it being in order, is one whose length wraps. */
  ghost predicate MeetsWrap(buf: string, size: nat, pos: nat, strings: nat)
    decreases strings
  {
    && strings > 0
    && (Wraps(buf, size, pos) || match DecodeData(buf, size, pos)
                                 case Ok(s) => MeetsWrap(buf, size, pos + SIZE_T + |s|, strings - 1)
                                 case _ => false)
  }

  /** The memory goes on for a length word behind the declared size and behind the count. */
  ghost predicate Roomy(buf: string, size: nat) {
    size + SIZE_T <= |buf| < SIZE_LIMIT && 2 * SIZE_T <= |buf|
  }

  lemma DecodeDataAccess(buf: string, size: nat, pos: nat)
    requires Roomy(buf, size) && (pos <= size || pos <= SIZE_T)
    ensures var d := DecodeData(buf, size, pos);
            && (d == BadAccess <==> Wraps(buf, size, pos))
            && (d.Ok? ==> pos + SIZE_T + |d.value| <= size)
            && d != BadCount
  {
    hide FromBytes;
  }

  lemma {:induction false} DecodePairsAccess(buf: string, size: nat, pos: nat, count: nat)
    requires Roomy(buf, size) && (pos <= size || pos <= SIZE_T)
    ensures DecodePairs(buf, size, pos, count) == BadAccess <==> MeetsWrap(buf, size, pos, 2 * count)
    decreases count
  {
    if count > 0 {
      hide DecodeData, Wraps;
      DecodeDataAccess(buf, size, pos);
      match DecodeData(buf, size, pos)
      case Ok(key) =>
        var mid := pos + SIZE_T + |key|;
        DecodeDataAccess(buf, size, mid);
        assert MeetsWrap(buf, size, pos, 2 * count) <==> MeetsWrap(buf, size, mid, 2 * count - 1);
        match DecodeData(buf, size, mid) {
          case Ok(value) => DecodePairsAccess(buf, size, mid + SIZE_T + |value|, count - 1);
          case _ =>
        }
      case _ =>
    }
  }

  /** In memory that goes on behind the message, decoding any bytes leaves the memory if and only if
      it comes to a length word whose sum wraps around to no more than the declared size. */
  lemma AccessExact(buf: string, size: nat)
    requires Roomy(buf, size)
    ensures Decode(buf, size) == BadAccess <==> MeetsWrap(buf, size, SIZE_T, 2 * ReadSize(buf, 0))
  {
    hide FromBytes, DecodePairs, MeetsWrap;
    DecodePairsAccess(buf, size, SIZE_T, ReadSize(buf, 0));
  }

  /** Such bytes exist, whatever follows them and whatever the declared size. */
  lemma LengthWraps(rest: string, size: nat)
    requires var buf := Bytes(1, SIZE_T) + Bytes(SIZE_LIMIT - 2 * SIZE_T, SIZE_T) + rest; Roomy(buf, size)
    ensures Decode(Bytes(1, SIZE_T) + Bytes(SIZE_LIMIT - 2 * SIZE_T, SIZE_T) + rest, size) == BadAccess
  {
    hide Bytes, FromBytes;
    var count, length := Bytes(1, SIZE_T), Bytes(SIZE_LIMIT - 2 * SIZE_T, SIZE_T);
    var buf := count + length + rest;
    AtFront(count + length, rest);
    AtSplit(buf, 0, count, length);
    SizeBytes(1);
    SizeBytes(SIZE_LIMIT - 2 * SIZE_T);
    assert Wraps(buf, size, SIZE_T);
    AccessExact(buf, size);
  }
}
