/** The notification queue that keeps one copy of a payload, at its last position. */
module DedupQueue {
  import opened Tables

  // ---------- Keep-last ----------

  function Without(s: seq<string>, m: string): seq<string> {
    if s == [] then [] else (if s[0] == m then [] else [s[0]]) + Without(s[1..], m)
  }

  /** Each payload once, where it occurs last. */
  function KeepLast(s: seq<string>): seq<string> {
    if s == [] then []
    else if s[0] in s[1..] then KeepLast(s[1..])
    else [s[0]] + KeepLast(s[1..])
  }

  lemma {:induction false} WithoutAbsent(s: seq<string>, m: string)
    requires m !in s
    ensures Without(s, m) == s
    decreases |s|
  {
    if s != [] {
      assert s == [s[0]] + s[1..];
      WithoutAbsent(s[1..], m);
    }
  }

  lemma {:induction false} WithoutConcat(a: seq<string>, b: seq<string>, m: string)
    ensures Without(a + b, m) == Without(a, m) + Without(b, m)
    decreases |a|
  {
    if a == [] {
      assert a + b == b;
    } else {
      assert (a + b)[1..] == a[1..] + b;
      WithoutConcat(a[1..], b, m);
    }
  }

  /** Dropping m from a list without repeats takes out its one occurrence. */
  lemma WithoutSplit(u: seq<string>, m: string, v: seq<string>)
    requires m !in u && m !in v
    ensures Without(u + [m] + v, m) == u + v
  {
    assert Without([m], m) == [] by { assert [m][1..] == []; }
    hide Without;
    WithoutConcat(u + [m], v, m);
    WithoutConcat(u, [m], m);
    WithoutAbsent(u, m);
    WithoutAbsent(v, m);
  }

  lemma {:induction false} KeepLastMembers(s: seq<string>)
    ensures forall m :: m in KeepLast(s) <==> m in s
    ensures Distinct(KeepLast(s))
    decreases |s|
  {
    if s != [] {
      KeepLastMembers(s[1..]);
      assert s == [s[0]] + s[1..];
    }
  }

  lemma WithoutFirst(x: string, s: seq<string>, m: string)
    ensures Without([x] + s, m) == if x == m then Without(s, m) else [x] + Without(s, m)
  {
    assert ([x] + s)[1..] == s;
  }

  lemma KeepLastFirst(x: string, s: seq<string>)
    ensures KeepLast([x] + s) == if x in s then KeepLast(s) else [x] + KeepLast(s)
  {
    assert ([x] + s)[1..] == s;
  }

  /** A push: the payload moves to the tail. */
  lemma {:induction false} KeepLastPush(s: seq<string>, m: string)
    ensures KeepLast(s + [m]) == Without(KeepLast(s), m) + [m]
    decreases |s|
  {
    if s == [] {
      assert s + [m] == [m];
    } else {
      hide KeepLast, Without;
      var x, rest := s[0], s[1..];
      assert s == [x] + rest && s + [m] == [x] + (rest + [m]);
      KeepLastPush(rest, m);
      KeepLastFirst(x, rest);
      KeepLastFirst(x, rest + [m]);
      WithoutFirst(x, KeepLast(rest), m);
      if x == m && x !in rest {
        KeepLastMembers(rest);
        WithoutAbsent(KeepLast(rest), m);
      }
    }
  }

  /** The position whose payload is at the head: the first that does not occur again. */
  function HeadPosition(s: seq<string>): (p: nat)
    requires s != []
    ensures p < |s| && forall j | p < j < |s| :: s[j] != s[p]
  {
    if s[0] in s[1..] then
      assert s[1..] != [];
      var p := HeadPosition(s[1..]);
      assert forall j | p + 1 < j < |s| :: s[j] == s[1..][j - 1];
      p + 1
    else
      assert forall j | 0 < j < |s| :: s[j] == s[1..][j - 1];
      0
  }

  /** A pop: what is left is kept from the pushes behind the head's last position. */
  lemma {:induction false} KeepLastPop(s: seq<string>)
    requires s != []
    ensures var p := HeadPosition(s);
            KeepLast(s) == [s[p]] + KeepLast(s[p + 1..])
    decreases |s|
  {
    hide KeepLast;
    var x, rest := s[0], s[1..];
    assert s == [x] + rest;
    KeepLastFirst(x, rest);
    if x in rest {
      assert rest != [];
      KeepLastPop(rest);
      assert HeadPosition(s) == HeadPosition(rest) + 1;
      assert rest[HeadPosition(rest) + 1..] == s[HeadPosition(s) + 1..];
    }
  }

  // ---------- Every run ----------

  /** The queue and its counters. */
  datatype Queue = Queue(contents: seq<string>, pushed: nat, dedupHits: nat, depth: int, highWatermark: int)

  function AfterPush(q: Queue, m: string): Queue {
    var hit := m in q.contents;
    var depth := if hit then q.depth else q.depth + 1;
    Queue(Without(q.contents, m) + [m], q.pushed + 1, if hit then q.dedupHits + 1 else q.dedupHits, depth,
          if depth > q.highWatermark then depth else q.highWatermark)
  }

  function AfterPop(q: Queue): Queue {
    if q.contents == [] then q else q.(contents := q.contents[1..], depth := q.depth - 1)
  }

  datatype Op = PushOp(msg: string) | PopOp

  /** What was pushed; what was popped, each with the number of pushes before it; the deepest the
      queue has been; and the position behind the last push of the payload popped last, as it
      stood at that pop (zero before the first one). */
  datatype History = History(pushes: seq<string>, popped: seq<(string, nat)>, deepest: nat, cut: nat)

  datatype System = System(queue: Queue, history: History)

  const START := System(Queue([], 0, 0, 0, 0), History([], [], 0, 0))

  /** How many of the first n pushes there are up to the last of m, m included. */
  function Behind(s: seq<string>, m: string, n: nat): nat
    requires n <= |s|
  {
    if n == 0 then 0 else if s[n - 1] == m then n else Behind(s, m, n - 1)
  }

  function Max(a: nat, b: nat): nat { if a < b then b else a }

  function Step(s: System, op: Op): System {
    match op
    case PushOp(m) =>
      var q := AfterPush(s.queue, m);
      System(q, s.history.(pushes := s.history.pushes + [m], deepest := Max(s.history.deepest, |q.contents|)))
    case PopOp =>
      if s.queue.contents == [] then s.(queue := AfterPop(s.queue))
      else
        var m, pushes := s.queue.contents[0], s.history.pushes;
        System(AfterPop(s.queue), s.history.(popped := s.history.popped + [(m, |pushes|)],
                                        cut := Behind(pushes, m, |pushes|)))
  }

  function Run(s: System, ops: seq<Op>): System
    decreases |ops|
  {
    if ops == [] then s else Run(Step(s, ops[0]), ops[1..])
  }

  ghost predicate Refines(q: Queue, h: History) {
    && h.cut <= |h.pushes|
    && q.contents == KeepLast(h.pushes[h.cut..])
  }

  ghost predicate Counted(q: Queue, h: History) {
    && q.depth == |q.contents| == q.pushed - q.dedupHits - |h.popped|
    && q.pushed == |h.pushes|
    && q.highWatermark == h.deepest
    && Distinct(q.contents)
  }

  /** Each push is still queued or was followed by a pop of its payload. */
  ghost predicate NoneLost(q: Queue, h: History) {
    forall i | 0 <= i < |h.pushes| :: h.pushes[i] in q.contents || PoppedAfter(h.popped, h.pushes[i], i)
  }

  ghost predicate PoppedAfter(popped: seq<(string, nat)>, m: string, i: nat) {
    exists k :: 0 <= k < |popped| && popped[k].0 == m && popped[k].1 > i
  }

  lemma PoppedMore(popped: seq<(string, nat)>, p: (string, nat), m: string, i: nat)
    ensures PoppedAfter(popped, m, i) ==> PoppedAfter(popped + [p], m, i)
    ensures p.0 == m && p.1 > i ==> PoppedAfter(popped + [p], m, i)
  {
    var more := popped + [p];
    assert more[|popped|] == p;
    if PoppedAfter(popped, m, i) {
      var k :| 0 <= k < |popped| && popped[k].0 == m && popped[k].1 > i;
      assert more[k] == popped[k];
    }
  }

  ghost predicate Inv(s: System) {
    Refines(s.queue, s.history) && Counted(s.queue, s.history) && NoneLost(s.queue, s.history)
  }

  lemma {:induction false} BehindLast(s: seq<string>, m: string, n: nat, p: nat)
    requires p < n <= |s| && s[p] == m && forall j | p < j < n :: s[j] != m
    ensures Behind(s, m, n) == p + 1
    decreases n
  {
    if p < n - 1 {
      BehindLast(s, m, n - 1, p);
    }
  }

  lemma {:induction false} WithoutMembers(s: seq<string>, m: string)
    ensures forall x :: x in Without(s, m) <==> x in s && x != m
    decreases |s|
  {
    if s != [] {
      WithoutMembers(s[1..], m);
      assert s == [s[0]] + s[1..];
    }
  }

  lemma {:induction false} WithoutLength(s: seq<string>, m: string)
    requires Distinct(s)
    ensures |Without(s, m)| == |s| - if m in s then 1 else 0
    decreases |s|
  {
    if s != [] {
      var rest := s[1..];
      assert s == [s[0]] + rest && forall i | 0 <= i < |rest| :: rest[i] == s[i + 1];
      WithoutLength(rest, m);
    }
  }

  lemma PushRefines(s: System, m: string)
    requires Refines(s.queue, s.history)
    ensures var t := Step(s, PushOp(m));
            && Refines(t.queue, t.history) && Distinct(t.queue.contents)
            && t.history.pushes == s.history.pushes + [m] && t.history.cut == s.history.cut && t.history.popped == s.history.popped
  {
    var h := s.history;
    KeepLastPush(h.pushes[h.cut..], m);
    assert (h.pushes + [m])[h.cut..] == h.pushes[h.cut..] + [m];
    KeepLastMembers(h.pushes[h.cut..] + [m]);
  }

  lemma PushInv(s: System, m: string)
    requires Inv(s)
    ensures Inv(Step(s, PushOp(m)))
  {
    PushRefines(s, m);
    hide Refines, KeepLast, Without;
    WithoutLength(s.queue.contents, m);
    WithoutMembers(s.queue.contents, m);
    var t := Step(s, PushOp(m));
    assert Counted(t.queue, t.history);
    hide PoppedAfter;
    assert forall i | 0 <= i < |s.history.pushes| :: t.history.pushes[i] == s.history.pushes[i];
  }

  /** The cut moves behind the head's last push. */
  lemma PopKept(pushes: seq<string>, cut: nat)
    requires cut < |pushes|
    ensures var kept := KeepLast(pushes[cut..]);
            && kept != []
            && var next := Behind(pushes, kept[0], |pushes|);
               && cut < next <= |pushes| && pushes[next - 1] == kept[0]
               && (forall j | next <= j < |pushes| :: pushes[j] != kept[0])
               && kept == [kept[0]] + KeepLast(pushes[next..])
  {
    hide KeepLast, HeadPosition, Behind;
    var suffix := pushes[cut..];
    KeepLastPop(suffix);
    var p := HeadPosition(suffix);
    assert suffix[p + 1..] == pushes[cut + p + 1..];
    assert forall j | cut + p < j < |pushes| :: pushes[j] == suffix[j - cut];
    BehindLast(pushes, suffix[p], |pushes|, cut + p);
  }

  lemma PopRefines(s: System)
    requires Refines(s.queue, s.history) && s.queue.contents != []
    ensures var t := Step(s, PopOp);
            && Refines(t.queue, t.history)
            && t.history.cut > s.history.cut && t.history.pushes[t.history.cut - 1] == s.queue.contents[0]
            && forall j | t.history.cut <= j < |t.history.pushes| :: t.history.pushes[j] != s.queue.contents[0]
  {
    var h := s.history;
    assert h.cut < |h.pushes|;
    hide KeepLast, Behind;
    PopKept(h.pushes, h.cut);
    var m, rest := s.queue.contents[0], KeepLast(h.pushes[Behind(h.pushes, s.queue.contents[0], |h.pushes|)..]);
    assert ([m] + rest)[1..] == rest;
  }

  lemma PopInv(s: System)
    requires Inv(s)
    ensures Inv(Step(s, PopOp))
  {
    if s.queue.contents != [] {
      PopRefines(s);
      hide Refines, KeepLast, Behind, PoppedAfter;
      var t, h, m := Step(s, PopOp), s.history, s.queue.contents[0];
      assert s.queue.contents == [m] + t.queue.contents;
      assert Distinct(t.queue.contents) by {
        assert forall i | 0 <= i < |t.queue.contents| :: t.queue.contents[i] == s.queue.contents[i + 1];
      }
      hide Distinct;
      forall i | 0 <= i < |h.pushes|
        ensures h.pushes[i] in t.queue.contents || PoppedAfter(t.history.popped, h.pushes[i], i)
      {
        PoppedMore(h.popped, (m, |h.pushes|), h.pushes[i], i);
      }
    }
  }

  /** The queue refines keep-last at every point of every run: its contents are the pushes behind
      the cut, each payload at its last occurrence; depth is pushed minus hits minus pops; the
      high watermark is the greatest depth; and no payload is lost. */
  lemma {:induction false} RunInv(s: System, ops: seq<Op>)
    requires Inv(s)
    ensures Inv(Run(s, ops))
    decreases |ops|
  {
    hide Inv, Step;
    if ops != [] {
      match ops[0] {
        case PushOp(m) => PushInv(s, m);
        case PopOp => PopInv(s);
      }
      RunInv(Step(s, ops[0]), ops[1..]);
    }
  }

  lemma StartInv()
    ensures Inv(START)
  {
  }

  // ---------- Meaning for the consumer ----------

  /** Handling a list of notifications in order. */
  ghost function Fold<S>(f: (S, string) -> S, s: S, msgs: seq<string>): S
    decreases |msgs|
  {
    if msgs == [] then s else Fold(f, f(s, msgs[0]), msgs[1..])
  }

  lemma {:induction false} FoldConcat<S>(f: (S, string) -> S, s: S, a: seq<string>, b: seq<string>)
    ensures Fold(f, s, a + b) == Fold(f, Fold(f, s, a), b)
    decreases |a|
  {
    if a == [] {
      assert a + b == b;
    } else {
      assert (a + b)[1..] == a[1..] + b;
      FoldConcat(f, f(s, a[0]), a[1..], b);
    }
  }

  /** End-state-idempotent: handling m before other payloads makes no difference if m is handled
      again after them. */
  ghost predicate Idempotent<S(!new)>(f: (S, string) -> S) {
    forall s, m, others | Distinct(others) && m !in others ::
      Fold(f, f(s, m), others + [m]) == Fold(f, s, others + [m])
  }

  /** The payloads popped, in order. */
  function Payloads(popped: seq<(string, nat)>): seq<string> {
    if popped == [] then [] else [popped[0].0] + Payloads(popped[1..])
  }

  lemma {:induction false} PayloadsConcat(popped: seq<(string, nat)>, p: (string, nat))
    ensures Payloads(popped + [p]) == Payloads(popped) + [p.0]
    decreases |popped|
  {
    if popped == [] {
      assert popped + [p] == [p] && [p][1..] == [];
    } else {
      assert (popped + [p])[1..] == popped[1..] + [p];
      PayloadsConcat(popped[1..], p);
    }
  }

  /** Everything the consumer has handled and will handle. */
  function Delivered(s: System): seq<string> {
    Payloads(s.history.popped) + s.queue.contents
  }

  lemma {:induction false} FindPayload(s: seq<string>, m: string) returns (u: seq<string>, v: seq<string>)
    requires Distinct(s) && m in s
    ensures s == u + [m] + v && m !in u && m !in v && Distinct(v)
  {
    var i :| 0 <= i < |s| && s[i] == m;
    u, v := s[..i], s[i + 1..];
    assert forall j | 0 <= j < |v| :: v[j] == s[i + 1 + j];
  }

  lemma MoveToTail<S(!new)>(f: (S, string) -> S, s: S, contents: seq<string>, m: string)
    requires Idempotent(f) && Distinct(contents)
    ensures Fold(f, s, Without(contents, m) + [m]) == Fold(f, s, contents + [m])
  {
    hide Fold, Without;
    if m in contents {
      var u, v := FindPayload(contents, m);
      WithoutSplit(u, m, v);
      var t := Fold(f, s, u);
      assert (u + v) + [m] == u + (v + [m]);
      FoldConcat(f, s, u, v + [m]);
      assert contents + [m] == (u + [m]) + (v + [m]);
      FoldConcat(f, s, u + [m], v + [m]);
      FoldLast(f, s, u, m);
    } else {
      WithoutAbsent(contents, m);
    }
  }

  lemma FoldLast<S>(f: (S, string) -> S, s: S, msgs: seq<string>, m: string)
    ensures Fold(f, s, msgs + [m]) == f(Fold(f, s, msgs), m)
  {
    FoldConcat(f, s, msgs, [m]);
    assert [m][1..] == [];
  }

  /** Nothing pushed is lost in meaning: what was handled, then what is queued, has the effect of
      every push. */
  ghost predicate SameMeaning<S(!new)>(f: (S, string) -> S, start: S, s: System) {
    Fold(f, start, Delivered(s)) == Fold(f, start, s.history.pushes)
  }

  lemma StepMeaning<S(!new)>(f: (S, string) -> S, start: S, s: System, op: Op)
    requires Idempotent(f) && Inv(s) && SameMeaning(f, start, s)
    ensures SameMeaning(f, start, Step(s, op))
  {
    hide Idempotent, Without, Behind, KeepLast, Payloads, Fold;
    var t, done := Step(s, op), Payloads(s.history.popped);
    match op {
      case PushOp(m) =>
        var before := Fold(f, start, done);
        assert Delivered(t) == done + (Without(s.queue.contents, m) + [m]);
        FoldConcat(f, start, done, Without(s.queue.contents, m) + [m]);
        MoveToTail(f, before, s.queue.contents, m);
        assert done + (s.queue.contents + [m]) == Delivered(s) + [m];
        FoldConcat(f, start, done, s.queue.contents + [m]);
        FoldLast(f, start, Delivered(s), m);
        FoldLast(f, start, s.history.pushes, m);
      case PopOp =>
        if s.queue.contents != [] {
          var m := s.queue.contents[0];
          PayloadsConcat(s.history.popped, (m, |s.history.pushes|));
          assert Delivered(t) == Delivered(s);
        }
    }
  }

  lemma {:induction false} RunMeaning<S(!new)>(f: (S, string) -> S, start: S, s: System, ops: seq<Op>)
    requires Idempotent(f) && Inv(s) && SameMeaning(f, start, s)
    ensures SameMeaning(f, start, Run(s, ops))
    decreases |ops|
  {
    hide Idempotent, Inv, Step, SameMeaning;
    if ops != [] {
      RunInv(s, [ops[0]]);
      assert Run(s, [ops[0]]) == Step(s, ops[0]) by { assert [ops[0]][1..] == []; }
      StepMeaning(f, start, s, ops[0]);
      RunMeaning(f, start, Step(s, ops[0]), ops[1..]);
    }
  }

  function Pushes(msgs: seq<string>): seq<Op> {
    if msgs == [] then [] else [PushOp(msgs[0])] + Pushes(msgs[1..])
  }

  /** Pushes alone: the queue holds what keep-last leaves. */
  lemma {:induction false} RunPushes(s: System, msgs: seq<string>)
    requires Refines(s.queue, s.history) && s.history.cut == 0 && s.history.popped == []
    ensures var t := Run(s, Pushes(msgs));
            Delivered(t) == KeepLast(s.history.pushes + msgs) && t.history.pushes == s.history.pushes + msgs
    decreases |msgs|
  {
    hide Without, KeepLast;
    if msgs == [] {
      assert s.history.pushes + msgs == s.history.pushes == s.history.pushes[0..];
      assert [] + s.queue.contents == s.queue.contents;
    } else {
      var m, rest := msgs[0], msgs[1..];
      PushRefines(s, m);
      var t := Step(s, PushOp(m));
      assert Run(s, Pushes(msgs)) == Run(t, Pushes(rest)) by { assert Pushes(msgs)[1..] == Pushes(rest); }
      hide Run, Pushes, Step, Delivered;
      RunPushes(t, rest);
      assert (s.history.pushes + [m]) + rest == s.history.pushes + msgs by { assert msgs == [m] + rest; }
    }
  }

  lemma {:induction false} KeepLastDistinct(s: seq<string>)
    requires Distinct(s)
    ensures KeepLast(s) == s
    decreases |s|
  {
    if s != [] {
      var rest := s[1..];
      assert forall i | 0 <= i < |rest| :: rest[i] == s[i + 1];
      KeepLastDistinct(rest);
      assert s[0] !in rest && s == [s[0]] + rest;
    }
  }

  lemma KeepLastAround(m: string, others: seq<string>)
    requires Distinct(others) && m !in others
    ensures KeepLast([m] + others + [m]) == others + [m]
  {
    KeepLastDistinct([m] + others);
    KeepLastPush([m] + others, m);
    hide KeepLast, Without;
    WithoutSplit([], m, others);
    assert [] + [m] + others == [m] + others && [] + others == others;
  }

  /** A handler that is not end-state-idempotent is told apart from the plain queue by some run. */
  lemma DifferentMeaning<S(!new)>(f: (S, string) -> S, start: S, m: string, others: seq<string>)
    requires Distinct(others) && m !in others
    requires Fold(f, f(start, m), others + [m]) != Fold(f, start, others + [m])
    ensures !SameMeaning(f, start, Run(START, Pushes([m] + others + [m])))
  {
    var msgs := [m] + others + [m];
    StartInv();
    KeepLastAround(m, others);
    hide Inv, Run, Delivered, Pushes, KeepLast;
    RunPushes(START, msgs);
    assert START.history.pushes + msgs == msgs;
    assert msgs[0] == m && msgs[1..] == others + [m];
  }

  /** Deduplication is invisible in the end state of every run exactly when the consumer's handler
      is end-state-idempotent. */
  lemma DedupExact<S(!new)>(f: (S, string) -> S)
    ensures Idempotent(f) <==> forall start, ops :: SameMeaning(f, start, Run(START, ops))
  {
    if Idempotent(f) {
      StartInv();
      forall start, ops
        ensures SameMeaning(f, start, Run(START, ops))
      {
        assert SameMeaning(f, start, START) by { assert Delivered(START) == []; }
        RunMeaning(f, start, START, ops);
      }
    } else {
      var s, m, others :| Distinct(others) && m !in others
                          && Fold(f, f(s, m), others + [m]) != Fold(f, s, others + [m]);
      DifferentMeaning(f, s, m, others);
    }
  }

  // ---------- The object ----------

  /** A list node; `id` is its address, which an iterator holds. */
  datatype Node = Node(id: nat, msg: string)

  function Messages(nodes: seq<Node>): seq<string> {
    if nodes == [] then [] else [nodes[0].msg] + Messages(nodes[1..])
  }

  function Erased(nodes: seq<Node>, id: nat): seq<Node> {
    if nodes == [] then [] else (if nodes[0].id == id then [] else [nodes[0]]) + Erased(nodes[1..], id)
  }

  /** Every node is indexed under its payload, no two share an address, and the index holds nothing
      else. */
  ghost predicate Indexed(nodes: seq<Node>, index: map<string, nat>) {
    && (forall n | n in nodes :: n.msg in index && index[n.msg] == n.id)
    && (forall m | m in index :: Node(index[m], m) in nodes)
    && DistinctIds(nodes)
  }

  lemma {:induction false} MessagesIn(nodes: seq<Node>, index: map<string, nat>)
    requires forall n | n in nodes :: n.msg in index && index[n.msg] == n.id
    ensures forall m :: m in Messages(nodes) <==> m in index && Node(index[m], m) in nodes
    decreases |nodes|
  {
    if nodes != [] {
      var n := nodes[0];
      assert nodes == [n] + nodes[1..] && n in nodes;
      assert n == Node(n.id, n.msg);
      MessagesIn(nodes[1..], index);
    }
  }

  lemma {:induction false} ErasedMembers(nodes: seq<Node>, id: nat)
    ensures forall n :: n in Erased(nodes, id) <==> n in nodes && n.id != id
    decreases |nodes|
  {
    if nodes != [] {
      assert nodes == [nodes[0]] + nodes[1..];
      ErasedMembers(nodes[1..], id);
    }
  }

  ghost predicate DistinctIds(nodes: seq<Node>) {
    forall i, j | 0 <= i < j < |nodes| :: nodes[i].id != nodes[j].id
  }

  lemma DistinctFirst(n: Node, nodes: seq<Node>)
    ensures DistinctIds([n] + nodes) <==> DistinctIds(nodes) && forall x | x in nodes :: x.id != n.id
  {
    var all := [n] + nodes;
    assert forall i | 0 <= i < |nodes| :: nodes[i] == all[i + 1];
    if DistinctIds(all) {
      forall x | x in nodes
        ensures x.id != n.id
      {
        var i :| 0 <= i < |nodes| && nodes[i] == x;
        assert all[0].id != all[i + 1].id;
      }
    }
    if DistinctIds(nodes) && forall x | x in nodes :: x.id != n.id {
      forall i, j | 0 <= i < j < |all|
        ensures all[i].id != all[j].id
      {
        assert all[j] == nodes[j - 1] && nodes[j - 1] in nodes;
      }
    }
  }

  lemma {:induction false} ErasedDistinct(nodes: seq<Node>, id: nat)
    requires DistinctIds(nodes)
    ensures DistinctIds(Erased(nodes, id))
    decreases |nodes|
  {
    if nodes != [] {
      var n, rest := nodes[0], nodes[1..];
      assert nodes == [n] + rest;
      DistinctFirst(n, rest);
      ErasedDistinct(rest, id);
      ErasedMembers(rest, id);
      DistinctFirst(n, Erased(rest, id));
      assert Erased(nodes, id) == if n.id == id then Erased(rest, id) else [n] + Erased(rest, id);
    }
  }

  lemma MessagesFirst(n: Node, nodes: seq<Node>)
    ensures Messages([n] + nodes) == [n.msg] + Messages(nodes)
  {
    assert ([n] + nodes)[1..] == nodes;
  }

  /** Erasing the node an iterator points at erases that payload. */
  lemma {:induction false} ErasedMessages(nodes: seq<Node>, id: nat, m: string)
    requires forall n | n in nodes :: n.id == id <==> n.msg == m
    ensures Messages(Erased(nodes, id)) == Without(Messages(nodes), m)
    decreases |nodes|
  {
    if nodes != [] {
      var n, rest := nodes[0], nodes[1..];
      assert nodes == [n] + rest;
      assert n in nodes;
      ErasedMessages(rest, id, m);
      var erased := Erased(rest, id);
      assert Erased(nodes, id) == if n.id == id then erased else [n] + erased;
      hide Messages, Without, Erased;
      MessagesFirst(n, rest);
      MessagesFirst(n, erased);
      WithoutFirst(n.msg, Messages(rest), m);
    }
  }

  lemma {:induction false} MessagesLast(nodes: seq<Node>, n: Node)
    ensures Messages(nodes + [n]) == Messages(nodes) + [n.msg]
    decreases |nodes|
  {
    if nodes == [] {
      assert nodes + [n] == [n] && [n][1..] == [];
    } else {
      assert (nodes + [n])[1..] == nodes[1..] + [n];
      MessagesLast(nodes[1..], n);
    }
  }

  lemma IndexPointsAt(nodes: seq<Node>, index: map<string, nat>, m: string)
    requires Indexed(nodes, index) && m in index
    ensures forall n | n in nodes :: n.id == index[m] <==> n.msg == m
  {
    var i :| 0 <= i < |nodes| && nodes[i] == Node(index[m], m);
    forall n | n in nodes && n.id == index[m]
      ensures n.msg == m
    {
      var j :| 0 <= j < |nodes| && nodes[j] == n;
      assert i == j || i < j || j < i;
    }
  }

  lemma EraseIndexed(nodes: seq<Node>, index: map<string, nat>, m: string)
    requires Indexed(nodes, index) && m in index
    ensures Indexed(Erased(nodes, index[m]), index - {m})
    ensures Messages(Erased(nodes, index[m])) == Without(Messages(nodes), m)
    ensures forall n | n in Erased(nodes, index[m]) :: n in nodes
  {
    hide Messages, Without, Erased;
    IndexPointsAt(nodes, index, m);
    ErasedMembers(nodes, index[m]);
    ErasedDistinct(nodes, index[m]);
    ErasedMessages(nodes, index[m], m);
  }

  lemma AppendIndexed(nodes: seq<Node>, index: map<string, nat>, n: Node)
    requires Indexed(nodes, index) && n.msg !in index && forall x | x in nodes :: x.id != n.id
    ensures Indexed(nodes + [n], index[n.msg := n.id])
    ensures Messages(nodes + [n]) == Messages(nodes) + [n.msg]
  {
    MessagesLast(nodes, n);
    forall i, j | 0 <= i < j < |nodes + [n]|
      ensures (nodes + [n])[i].id != (nodes + [n])[j].id
    {
      assert nodes[i] in nodes;
    }
  }

  class LruDedupNotificationQueue {
    var dq: seq<Node>
    var idx: map<string, nat>
    var nextId: nat
    var pushed: nat
    var dedupHits: nat
    var depth: int
    var highWatermark: int

    /** The index matches the list exactly. */
    ghost predicate Valid()
      reads this
    {
      Indexed(dq, idx) && forall n | n in dq :: n.id < nextId
    }

    ghost function View(): Queue
      reads this
    {
      Queue(Messages(dq), pushed, dedupHits, depth, highWatermark)
    }

    constructor ()
      ensures Valid() && View() == START.queue
    {
      dq, idx, nextId := [], map[], 0;
      pushed, dedupHits, depth, highWatermark := 0, 0, 0, 0;
    }

    method Push(msg: string)
      requires Valid()
      modifies this
      ensures Valid() && View() == AfterPush(old(View()), msg)
    {
      hide Indexed, Messages, Without;
      var hit := msg in idx;
      Relink(msg);
      pushed := pushed + 1;
      if hit {
        dedupHits := dedupHits + 1;
      } else {
        depth := depth + 1;
      }
      if depth > highWatermark {
        highWatermark := depth;
      }
    }

    /** The payload's node goes from where it was, if anywhere, to the tail. */
    method Relink(msg: string)
      requires Valid()
      modifies this`dq, this`idx, this`nextId
      ensures Valid() && Messages(dq) == Without(Messages(old(dq)), msg) + [msg]
      ensures msg in old(idx) <==> msg in Messages(old(dq))
    {
      hide Messages, Without, Erased;
      MessagesIn(dq, idx);
      if msg in idx {
        EraseIndexed(dq, idx, msg);
        dq := Erased(dq, idx[msg]);
        idx := idx - {msg};
      } else {
        WithoutAbsent(Messages(dq), msg);
      }
      AppendIndexed(dq, idx, Node(nextId, msg));
      dq := dq + [Node(nextId, msg)];
      idx := idx[msg := nextId];
      nextId := nextId + 1;
    }

    method Front() returns (msg: string)
      requires dq != []
      ensures View().contents != [] && msg == View().contents[0]
    {
      msg := dq[0].msg;
    }

    method Pop()
      requires Valid()
      modifies this
      ensures Valid() && View() == AfterPop(old(View()))
    {
      hide Indexed, Messages;
      MessagesEmpty(dq);
      if dq == [] {
        return;
      }
      Unlink();
      depth := depth - 1;
    }

    /** The first node goes, and its index entry with it. */
    method Unlink()
      requires Valid() && dq != []
      modifies this`dq, this`idx
      ensures Valid() && Messages(old(dq)) != [] && Messages(dq) == Messages(old(dq))[1..]
    {
      hide Indexed, Messages;
      assert dq == [dq[0]] + dq[1..];
      HeadIndexed(dq[0], dq[1..], idx);
      MessagesFirst(dq[0], dq[1..]);
      if dq[0].msg in idx {
        idx := idx - {dq[0].msg};
      }
      dq := dq[1..];
    }
  }

  lemma MessagesEmpty(nodes: seq<Node>)
    ensures Messages(nodes) == [] <==> nodes == []
  {
  }

  lemma HeadIndexed(n: Node, rest: seq<Node>, index: map<string, nat>)
    requires Indexed([n] + rest, index)
    ensures n.msg in index && Indexed(rest, index - {n.msg})
  {
    var all := [n] + rest;
    assert forall x :: x in all <==> x == n || x in rest;
    DistinctFirst(n, rest);
    hide DistinctIds;
    forall m | m in index - {n.msg}
      ensures Node(index[m], m) in rest
    {
      assert Node(index[m], m) in all;
    }
  }
}
