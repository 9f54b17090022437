/** AsyncDBUpdater: a queue that a background thread drains into a table. One updater may sit
    at the producer and one at the consumer of the ZMQ path; the second sees each operation
    after it has been encoded and decoded. */
module Mirror {
  import opened Tables
  import opened Codec

  /** Table::set returns early when there are no fields. */
  function TableSet(t: Db, key: string, fvs: FieldValues): Db {
    if fvs == [] then t else HSet(t, key, fvs)
  }

  /** One operation of dbUpdateThread; an unknown operation is only logged. */
  function Apply(t: Db, kco: Kco): Db {
    if kco.op == SET_COMMAND then TableSet(Del(t, kco.key), kco.key, kco.fvs)
    else if kco.op == HSET_COMMAND then TableSet(t, kco.key, kco.fvs)
    else if kco.op == DEL_COMMAND then Del(t, kco.key)
    else t
  }

  function ApplyAll(t: Db, kcos: seq<Kco>): Db {
    if kcos == [] then t else Apply(ApplyAll(t, kcos[..|kcos| - 1]), kcos[|kcos| - 1])
  }

  lemma ApplyAllSnoc(t: Db, kcos: seq<Kco>, kco: Kco)
    ensures ApplyAll(t, kcos + [kco]) == Apply(ApplyAll(t, kcos), kco)
  {
    assert (kcos + [kco])[..|kcos|] == kcos;
  }

  // ---------- The updater as a state machine ----------

  /** The writing thread. `Idle`: about to count; `Empty`: it counted none and has not yet read the
      stop flag; `Drowsy`: told to go on, not yet waiting; `Batch(n)`: n operations of the counted
      batch are still to be written; `Written(n)`: the front one of them is in the table and not yet
      off the queue. */
  datatype Phase = Idle | Batch(n: nat) | Written(n: nat) | Empty | Drowsy | Waiting | Exited

  /** `running`: m_runThread. `notifying`: calls that have queued an operation or cleared the flag and
      have not yet notified. */
  datatype Updater = Updater(queue: seq<Kco>, phase: Phase, table: Db, running: bool, notifying: nat,
                             submitted: seq<Kco>, popped: seq<Kco>)

  datatype Step = Submit(kco: Kco) | Stop | Notify | Count | ReadFlag | Wait | Write | Pop

  /** Nothing is submitted once the destructor has begun. */
  ghost predicate Enabled(u: Updater, s: Step) {
    match s
    case Submit(_) => u.running
    case Stop => u.running
    case Notify => u.notifying > 0
    case Count => u.phase.Idle?
    case ReadFlag => u.phase.Empty?
    case Wait => u.phase.Drowsy?
    case Write => u.phase.Batch? && u.queue != []
    case Pop => u.phase.Written? && u.phase.n > 0 && u.queue != []
  }

  /** The condition variable has a mutex of its own, so a notification wakes only a thread that is
      already waiting. */
  function Do(u: Updater, s: Step): Updater
    requires Enabled(u, s)
  {
    match s
    case Submit(kco) => u.(queue := u.queue + [kco], submitted := u.submitted + [kco], notifying := u.notifying + 1)
    case Stop => u.(running := false, notifying := u.notifying + 1)
    case Notify => u.(notifying := u.notifying - 1, phase := if u.phase.Waiting? then Idle else u.phase)
    case Count => u.(phase := if u.queue == [] then Empty else Batch(|u.queue|))
    case ReadFlag => u.(phase := if u.running then Drowsy else Exited)
    case Wait => u.(phase := Waiting)
    case Write => u.(table := Apply(u.table, u.queue[0]), phase := Written(u.phase.n))
    case Pop =>
      u.(queue := u.queue[1..], popped := u.popped + [u.queue[0]],
         phase := if u.phase.n == 1 then Idle else Batch(u.phase.n - 1))
  }

  ghost predicate IsRun(u: Updater, steps: seq<Step>)
    decreases |steps|
  {
    steps == [] || (Enabled(u, steps[0]) && IsRun(Do(u, steps[0]), steps[1..]))
  }

  ghost function Run(u: Updater, steps: seq<Step>): Updater
    requires IsRun(u, steps)
    decreases |steps|
  {
    if steps == [] then u else Run(Do(u, steps[0]), steps[1..])
  }

  function Fresh(t: Db): Updater { Updater([], Idle, t, true, 0, [], []) }

  ghost function InTable(u: Updater): seq<Kco> {
    if u.phase.Written? && u.queue != [] then u.popped + [u.queue[0]] else u.popped
  }

  /** Nothing is lost, doubled or reordered; the table is the replay of what was written; a
      counted batch never runs the queue dry, so the thread never reads an empty front. */
  ghost predicate Inv(u: Updater, start: Db) {
    && u.popped + u.queue == u.submitted
    && u.table == ApplyAll(start, InTable(u))
    && (u.phase.Batch? || u.phase.Written? ==> 0 < u.phase.n <= |u.queue|)
    && (u.phase.Exited? ==> !u.running)
  }

  lemma DoInv(u: Updater, s: Step, start: Db)
    requires Inv(u, start) && Enabled(u, s)
    ensures Inv(Do(u, s), start)
  {
    hide Apply, ApplyAll;
    var u' := Do(u, s);
    match s
    case Submit(kco) =>
      assert u'.popped + u'.queue == u.popped + u.queue + [kco];
    case Write => ApplyAllSnoc(start, u.popped, u.queue[0]);
    case Pop => assert u'.popped + u'.queue == u.popped + u.queue;
    case _ =>
  }

  /** Conservation, over every interleaving of the submitting and the writing thread. */
  lemma {:induction false} RunInv(u: Updater, steps: seq<Step>, start: Db)
    requires Inv(u, start) && IsRun(u, steps)
    ensures Inv(Run(u, steps), start)
    decreases |steps|
  {
    if steps != [] {
      DoInv(u, steps[0], start);
      RunInv(Do(u, steps[0]), steps[1..], start);
    }
  }

  // ---------- Waiting and leaving ----------

  /** The thread waits, nobody is about to notify it, and it has something to do: operations to write,
      or to leave for the destructor that waits for it. */
  ghost predicate Stalled(u: Updater) {
    u.phase.Waiting? && u.notifying == 0 && (u.queue != [] || !u.running)
  }

  /** The thread has left with operations unwritten. */
  ghost predicate Lost(u: Updater) {
    u.phase.Exited? && u.queue != []
  }

  /** The thread begins to wait with nothing to do or a notification to come, and leaves with nothing
      queued: no call has queued, or stopped, and notified since it counted. */
  ghost predicate InTime(u: Updater, s: Step) {
    match s
    case Wait => u.notifying > 0 || (u.queue == [] && u.running)
    case ReadFlag => u.running || u.queue == []
    case _ => true
  }

  lemma StepInTime(u: Updater, s: Step, start: Db)
    requires Inv(u, start) && Enabled(u, s) && !Stalled(u) && !Lost(u)
    ensures !Stalled(Do(u, s)) && !Lost(Do(u, s)) <==> InTime(u, s)
  {
    hide Apply, ApplyAll;
  }

  ghost predicate NeverAstray(u: Updater, steps: seq<Step>)
    requires IsRun(u, steps)
    decreases |steps|
  {
    !Stalled(u) && !Lost(u) && (steps == [] || NeverAstray(Do(u, steps[0]), steps[1..]))
  }

  ghost predicate AlwaysInTime(u: Updater, steps: seq<Step>)
    requires IsRun(u, steps)
    decreases |steps|
  {
    steps == [] || (InTime(u, steps[0]) && AlwaysInTime(Do(u, steps[0]), steps[1..]))
  }

  lemma {:induction false} RunInTime(u: Updater, steps: seq<Step>, start: Db)
    requires Inv(u, start) && IsRun(u, steps) && !Stalled(u) && !Lost(u)
    ensures NeverAstray(u, steps) <==> AlwaysInTime(u, steps)
    decreases |steps|
  {
    hide Inv, Do, Stalled, Lost, InTime;
    if steps != [] {
      var t := Do(u, steps[0]);
      DoInv(u, steps[0], start);
      StepInTime(u, steps[0], start);
      if !Stalled(t) && !Lost(t) {
        RunInTime(t, steps[1..], start);
      }
    }
  }

  /** Over every interleaving the thread never waits with something to do, nor leaves with operations
      unwritten, if and only if it always begins to wait, and leaves, in time. */
  lemma WriterExact(start: Db, steps: seq<Step>)
    requires IsRun(Fresh(start), steps)
    ensures NeverAstray(Fresh(start), steps) <==> AlwaysInTime(Fresh(start), steps)
  {
    RunInTime(Fresh(start), steps, start);
  }

  /** No step of the thread or of a call that has begun is possible. */
  ghost predicate AtRest(u: Updater) {
    forall s | Enabled(u, s) :: s.Submit? || s.Stop?
  }

  /** In every such run, when everything has come to rest all that was submitted is in the table; and
      after the destructor has begun the thread has left. */
  lemma AllWritten(start: Db, steps: seq<Step>)
    requires IsRun(Fresh(start), steps) && AlwaysInTime(Fresh(start), steps) && AtRest(Run(Fresh(start), steps))
    ensures var u := Run(Fresh(start), steps);
            u.table == ApplyAll(start, u.submitted) && (!u.running ==> u.phase.Exited?)
  {
    RunInv(Fresh(start), steps, start);
    WriterExact(start, steps);
    NotAstray(Fresh(start), steps);
    var u := Run(Fresh(start), steps);
    RestingPhase(u, start);
    assert u.popped + [] == u.popped;
  }

  lemma RestingPhase(u: Updater, start: Db)
    requires Inv(u, start) && AtRest(u)
    ensures u.notifying == 0 && (u.phase.Waiting? || u.phase.Exited?)
  {
    hide Apply, ApplyAll;
    assert !Enabled(u, Notify) && !Enabled(u, Count) && !Enabled(u, ReadFlag);
    assert !Enabled(u, Wait) && !Enabled(u, Write) && !Enabled(u, Pop);
  }

  lemma {:induction false} NotAstray(u: Updater, steps: seq<Step>)
    requires IsRun(u, steps) && NeverAstray(u, steps)
    ensures !Stalled(Run(u, steps)) && !Lost(Run(u, steps))
    decreases |steps|
  {
    hide Do, Stalled, Lost;
    if steps != [] {
      NotAstray(Do(u, steps[0]), steps[1..]);
    }
  }

  lemma FirstStep(u: Updater, s: Step, rest: seq<Step>)
    requires Enabled(u, s) && IsRun(Do(u, s), rest)
    ensures IsRun(u, [s] + rest) && Run(u, [s] + rest) == Run(Do(u, s), rest)
  {
    assert ([s] + rest)[1..] == rest;
  }

  /** From every state in which the thread is about to count and finds nothing: an operation that is
      queued and notified before the thread waits is not written until another call comes. */
  lemma WakeUpMissed(u: Updater, kco: Kco)
    requires u.phase.Idle? && u.queue == [] && u.running && u.notifying == 0
    ensures var steps := [Count] + ([ReadFlag] + ([Submit(kco)] + ([Notify] + ([Wait] + []))));
            IsRun(u, steps) && Stalled(Run(u, steps)) && Run(u, steps).queue == [kco]
  {
    assert u.queue + [kco] == [kco];
    var u1 := u.(phase := Drowsy, queue := [kco], submitted := u.submitted + [kco], notifying := 1);
    FirstStep(u1.(notifying := 0), Wait, []);
    FirstStep(u1, Notify, [Wait] + []);
    FirstStep(u.(phase := Drowsy), Submit(kco), [Notify] + ([Wait] + []));
    FirstStep(u.(phase := Empty), ReadFlag, [Submit(kco)] + ([Notify] + ([Wait] + [])));
    FirstStep(u, Count, [ReadFlag] + ([Submit(kco)] + ([Notify] + ([Wait] + []))));
  }

  /** A destructor that clears the flag and notifies in that time waits for ever. */
  lemma DestructorHangs(u: Updater)
    requires u.phase.Idle? && u.queue == [] && u.running && u.notifying == 0
    ensures var steps := [Count] + ([ReadFlag] + ([Stop] + ([Notify] + ([Wait] + []))));
            IsRun(u, steps) && AtRest(Run(u, steps)) && !Run(u, steps).running && !Run(u, steps).phase.Exited?
  {
    var u1 := u.(phase := Drowsy, running := false, notifying := 1);
    FirstStep(u1.(notifying := 0), Wait, []);
    FirstStep(u1, Notify, [Wait] + []);
    FirstStep(u.(phase := Drowsy), Stop, [Notify] + ([Wait] + []));
    FirstStep(u.(phase := Empty), ReadFlag, [Stop] + ([Notify] + ([Wait] + [])));
    FirstStep(u, Count, [ReadFlag] + ([Stop] + ([Notify] + ([Wait] + []))));
  }

  /** An operation queued, and the flag cleared, between the count and the reading of the flag is never
      written. */
  lemma LastWriteLost(u: Updater, kco: Kco)
    requires u.phase.Idle? && u.queue == [] && u.running
    ensures var steps := [Count] + ([Submit(kco)] + ([Stop] + ([ReadFlag] + [])));
            IsRun(u, steps) && Lost(Run(u, steps)) && Run(u, steps).queue == [kco]
  {
    assert u.queue + [kco] == [kco];
    var u1 := u.(phase := Empty, queue := [kco], submitted := u.submitted + [kco], notifying := u.notifying + 1);
    FirstStep(u1.(running := false, notifying := u.notifying + 2), ReadFlag, []);
    FirstStep(u1, Stop, [ReadFlag] + []);
    FirstStep(u.(phase := Empty), Submit(kco), [Stop] + ([ReadFlag] + []));
    FirstStep(u, Count, [Submit(kco)] + ([Stop] + ([ReadFlag] + [])));
  }

  // ---------- The two mirrors ----------

  ghost predicate Survives(kco: Kco) {
    kco.op == SET_COMMAND || (kco.op == DEL_COMMAND && kco.fvs == [])
  }

  lemma {:induction false} LongerThanAll(names: set<string>) returns (n: nat)
    ensures forall x | x in names :: |x| < n
    decreases names
  {
    if names == {} {
      n := 0;
    } else {
      var x :| x in names;
      n := LongerThanAll(names - {x});
      n := if n > |x| then n else |x| + 1;
    }
  }

  lemma ApplyNormalised(t: Db, kco: Kco)
    requires Survives(kco)
    ensures Apply(t, Normalised(kco)) == Apply(t, kco)
  {
  }

  /** The codec keeps an operation's meaning on every table exactly for SET and for DEL without
      fields; SET without fields becomes DEL and still means the same. */
  lemma NormalisedMeaning(kco: Kco)
    ensures (forall t | WellFormed(t) :: Apply(t, Normalised(kco)) == Apply(t, kco)) <==> Survives(kco)
  {
    if Survives(kco) {
      forall t | WellFormed(t) ensures Apply(t, Normalised(kco)) == Apply(t, kco) {
        ApplyNormalised(t, kco);
      }
    } else if kco.op == DEL_COMMAND {
      MergeKeys(map[], kco.fvs);
      assert kco.key in Apply(map[], Normalised(kco)) && kco.key !in Apply(map[], kco);
      assert WellFormed(map[]);
    } else {
      var written := Merge(map[], kco.fvs);
      var n := LongerThanAll(written.Keys);
      var field := seq(n, i => 'x');
      assert field !in written;
      var row: Row := map[field := ""];
      var t: Db := map[kco.key := row];
      MergeKeys(row, kco.fvs);
      assert field in Lookup(Apply(t, kco), kco.key);
      assert field !in Lookup(Apply(t, Normalised(kco)), kco.key);
      assert WellFormed(t);
    }
  }

  function Flatten(msgs: seq<seq<Kco>>): seq<Kco> {
    if msgs == [] then [] else Flatten(msgs[..|msgs| - 1]) + msgs[|msgs| - 1]
  }

  /** What the consumer's registry is handed for one message on the wire. */
  function Received(dbName: string, table: string, msg: seq<Kco>): seq<Kco> {
    var wire := Encode(dbName, table, msg);
    match Decode(wire, |wire|)
    case Ok(m) => m.kcos
    case _ => []
  }

  function AllReceived(dbName: string, table: string, msgs: seq<seq<Kco>>): seq<seq<Kco>> {
    if msgs == [] then []
    else AllReceived(dbName, table, msgs[..|msgs| - 1]) + [Received(dbName, table, msgs[|msgs| - 1])]
  }

  ghost predicate Sendable(dbName: string, table: string, msg: seq<Kco>) {
    && |Encode(dbName, table, msg)| < SIZE_LIMIT
    && CountsFit(msg)
    && forall kco | kco in msg :: Survives(kco)
  }

  lemma ReceivedNormalised(dbName: string, table: string, msg: seq<Kco>)
    requires Sendable(dbName, table, msg)
    ensures Received(dbName, table, msg) == AllNormalised(msg)
  {
    hide Encode, Decode;
    var wire := Encode(dbName, table, msg);
    assert wire + [] == wire;
    RoundTrip(dbName, table, msg, [], |wire|);
  }

  lemma {:induction false} ApplyAllSplit(t: Db, a: seq<Kco>, b: seq<Kco>)
    ensures ApplyAll(t, a + b) == ApplyAll(ApplyAll(t, a), b)
    decreases |b|
  {
    if b == [] {
      assert a + b == a;
    } else {
      assert (a + b)[..|a + b| - 1] == a + b[..|b| - 1];
      ApplyAllSplit(t, a, b[..|b| - 1]);
    }
  }

  lemma {:induction false} ApplyAllNormalised(t: Db, msg: seq<Kco>)
    requires forall kco | kco in msg :: Survives(kco)
    ensures ApplyAll(t, AllNormalised(msg)) == ApplyAll(t, msg)
    decreases |msg|
  {
    if msg != [] {
      var first, rest := msg[0], msg[1..];
      assert msg == [first] + rest;
      ApplyAllSplit(t, [first], rest);
      ApplyAllSplit(t, [Normalised(first)], AllNormalised(rest));
      assert [first][..0] == [] && [Normalised(first)][..0] == [];
      ApplyNormalised(t, first);
      ApplyAllNormalised(ApplyAll(t, [first]), rest);
    }
  }

  lemma {:induction false} SameMeaning(dbName: string, table: string, t: Db, msgs: seq<seq<Kco>>)
    requires forall msg | msg in msgs :: Sendable(dbName, table, msg)
    ensures ApplyAll(t, Flatten(AllReceived(dbName, table, msgs))) == ApplyAll(t, Flatten(msgs))
    decreases |msgs|
  {
    hide Received;
    if msgs != [] {
      var front, last := msgs[..|msgs| - 1], msgs[|msgs| - 1];
      var r := AllReceived(dbName, table, msgs);
      SameMeaning(dbName, table, t, front);
      assert r[..|r| - 1] == AllReceived(dbName, table, front);
      ReceivedNormalised(dbName, table, last);
      ApplyAllSplit(t, Flatten(front), last);
      ApplyAllSplit(t, Flatten(r[..|r| - 1]), Received(dbName, table, last));
      ApplyAllNormalised(ApplyAll(t, Flatten(front)), last);
    }
  }

  /** Both persistence mirrors agree: with in-order delivery and from equal tables, the
      producer's updater and the consumer's, each run in its own interleaving, hold equal
      tables once drained. */
  lemma MirrorsAgree(dbName: string, table: string, start: Db, msgs: seq<seq<Kco>>,
                     atProducer: seq<Step>, atConsumer: seq<Step>)
    requires forall msg | msg in msgs :: Sendable(dbName, table, msg)
    ensures DrainedRun(start, atProducer, Flatten(msgs))
            && DrainedRun(start, atConsumer, Flatten(AllReceived(dbName, table, msgs)))
            ==> Run(Fresh(start), atProducer).table == Run(Fresh(start), atConsumer).table
  {
    hide AllReceived;
    if DrainedRun(start, atProducer, Flatten(msgs)) && DrainedRun(start, atConsumer, Flatten(AllReceived(dbName, table, msgs))) {
      RunInv(Fresh(start), atProducer, start);
      RunInv(Fresh(start), atConsumer, start);
      var p, q := Run(Fresh(start), atProducer), Run(Fresh(start), atConsumer);
      assert p.popped + [] == p.popped && q.popped + [] == q.popped;
      SameMeaning(dbName, table, start, msgs);
    }
  }

  /** A run of an updater that starts on a table and ends with all that was submitted written. */
  ghost predicate DrainedRun(start: Db, steps: seq<Step>, submitted: seq<Kco>) {
    IsRun(Fresh(start), steps) && Run(Fresh(start), steps).submitted == submitted && Run(Fresh(start), steps).queue == []
  }

  // ---------- The object ----------

  class AsyncDBUpdater {
    var queue: seq<Kco>
    var table: Db
    var running: bool

    constructor (table: Db)
      ensures queue == [] && this.table == table && running
    {
      queue, this.table, running := [], table, true;
    }

    /** The destructor's first step, before it notifies and joins. */
    method Stop()
      modifies this`running
      ensures !running
    {
      running := false;
    }

    method Update(kco: Kco)
      modifies this`queue
      ensures queue == old(queue) + [kco]
    {
      queue := queue + [kco];
    }

    /** Submissions by another thread. */
    method Arrivals(kcos: seq<Kco>)
      modifies this`queue
      ensures queue == old(queue) + kcos
    {
      for i := 0 to |kcos|
        invariant queue == old(queue) + kcos[..i]
      {
        Update(kcos[i]);
      }
    }

    /** One operation: SET deletes the row first, because Table::set only adds fields. */
    method WriteToTable(kco: Kco)
      modifies this`table
      ensures table == Apply(old(table), kco)
    {
      if kco.op == SET_COMMAND {
        table := Del(table, kco.key);
        table := TableSet(table, kco.key, kco.fvs);
      } else if kco.op == HSET_COMMAND {
        table := TableSet(table, kco.key, kco.fvs);
      } else if kco.op == DEL_COMMAND {
        table := Del(table, kco.key);
      }
    }

    /** One turn of the thread's loop, up to the wait or the exit: the thread counts; if there is
        nothing it leaves when it finds the flag cleared, and waits otherwise, whatever `meanwhile`
        has queued in between; else it writes the counted operations. `stops`: the flag is cleared
        between the count and the reading of the flag. */
    method Turn(arriving: seq<seq<Kco>>, meanwhile: seq<Kco>, stops: bool) returns (next: Phase)
      requires |arriving| == |queue|
      modifies this
      ensures old(queue) == [] ==> queue == meanwhile && table == old(table) && running == (old(running) && !stops)
                                   && next == if running then Waiting else Exited
      ensures old(queue) != [] ==> table == ApplyAll(old(table), old(queue)) && queue == Flatten(arriving)
                                   && running == old(running) && next == Idle
    {
      hide ApplyAll, Flatten;
      var count := |queue|;
      if count == 0 {
        Arrivals(meanwhile);
        if stops {
          Stop();
        }
        if !running {
          return Exited;
        }
        return Waiting;
      }
      UpdateBatch(arriving);
      next := Idle;
    }

    /** The counted operations are written in order; `arriving[i]` joins the queue while the i-th of
        them is being written. */
    method UpdateBatch(arriving: seq<seq<Kco>>)
      requires |arriving| == |queue|
      modifies this`queue, this`table
      ensures table == ApplyAll(old(table), old(queue))
      ensures queue == Flatten(arriving)
    {
      hide Apply, ApplyAll, Flatten;
      var count := |queue|;
      ghost var was := queue;
      NothingYet(table);
      assert was[..0] == [] && arriving[..0] == [];
      assert was[0..] + [] == queue;
      for i := 0 to count
        invariant table == ApplyAll(old(table), was[..i])
        invariant queue == was[i..] + Flatten(arriving[..i])
      {
        ghost var arrived := Flatten(arriving[..i]);
        WriteToTable(queue[0]);
        assert was[..i + 1] == was[..i] + [was[i]];
        ApplyAllSnoc(old(table), was[..i], was[i]);
        FlattenSnoc(arriving, i);
        Arrivals(arriving[i]);
        queue := queue[1..];
        assert queue == was[i + 1..] + (arrived + arriving[i]);
      }
      assert was[..count] == was && arriving[..count] == arriving;
      assert was[count..] == [];
    }
  }

  lemma FlattenSnoc(msgs: seq<seq<Kco>>, i: nat)
    requires i < |msgs|
    ensures Flatten(msgs[..i + 1]) == Flatten(msgs[..i]) + msgs[i]
  {
    assert msgs[..i + 1][..i] == msgs[..i];
  }

  lemma NothingYet(table: Db)
    ensures ApplyAll(table, []) == table && Flatten([]) == []
  {
  }
}
