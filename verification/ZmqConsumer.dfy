/** ZmqConsumerStateTable: the ZMQ thread pushes received operations and signals an eventfd;
    the consumer thread wakes on the eventfd and pops a bounded batch. */
module ZmqConsumer {
  import opened Tables
  import opened Codec
  import HandlerRegistry
  import Mirror

  const DEFAULT_POP_BATCH_SIZE: nat := 128

  function BatchSize(popBatchSize: int): (b: nat)
    ensures b >= 1
  {
    if popBatchSize > 0 then popBatchSize else DEFAULT_POP_BATCH_SIZE
  }

  function Min(a: nat, b: nat): nat { if a < b then a else b }

  // ---------- The two threads as atomic steps ----------

  datatype Receiver = Resting | Pushing(rest: seq<Kco>)

  /** `Popping(count, done, held)`: `count` was read under the lock, `done` items are off the
      queue, and `held` is the front read before the lock is taken to pop it. */
  datatype Consumer = Asleep | Awake | Popping(count: nat, done: nat, held: Option<Kco>)

  datatype State = State(queue: seq<Kco>, signals: nat, receiver: Receiver, consumer: Consumer,
                         received: seq<Kco>, popped: seq<Kco>)

  datatype Step = Receive(kcos: seq<Kco>) | Push | Notify | ReadData | CountQueue | Front | Pop | Finish

  ghost predicate Enabled(s: State, batch: nat, step: Step) {
    match step
    case Receive(_) => s.receiver.Resting?
    case Push => s.receiver.Pushing? && s.receiver.rest != []
    case Notify => s.receiver == Pushing([])
    case ReadData => s.consumer.Asleep? && s.signals > 0
    case CountQueue => s.consumer.Awake?
    case Front => s.consumer.Popping? && s.consumer.held.None? && s.consumer.done < Min(s.consumer.count, batch)
                  && s.queue != []
    case Pop => s.consumer.Popping? && s.consumer.held.Some? && s.queue != []
    case Finish => s.consumer.Popping? && s.consumer.held.None? && s.consumer.done == Min(s.consumer.count, batch)
  }

  function Do(s: State, batch: nat, step: Step): State
    requires Enabled(s, batch, step)
  {
    match step
    case Receive(kcos) => s.(receiver := Pushing(kcos))
    case Push =>
      var kco := s.receiver.rest[0];
      s.(queue := s.queue + [kco], received := s.received + [kco], receiver := Pushing(s.receiver.rest[1..]))
    case Notify => s.(signals := s.signals + 1, receiver := Resting)
    case ReadData => s.(signals := 0, consumer := Awake)
    case CountQueue => s.(consumer := if s.queue == [] then Asleep else Popping(|s.queue|, 0, None))
    case Front => s.(consumer := s.consumer.(held := Some(s.queue[0])))
    case Pop =>
      s.(queue := s.queue[1..], popped := s.popped + [s.consumer.held.value],
         consumer := Popping(s.consumer.count, s.consumer.done + 1, None))
    case Finish =>
      s.(signals := if s.consumer.count > batch then s.signals + 1 else s.signals, consumer := Asleep)
  }

  ghost predicate IsRun(s: State, batch: nat, steps: seq<Step>)
    decreases |steps|
  {
    steps == [] || (Enabled(s, batch, steps[0]) && IsRun(Do(s, batch, steps[0]), batch, steps[1..]))
  }

  ghost function Run(s: State, batch: nat, steps: seq<Step>): State
    requires IsRun(s, batch, steps)
    decreases |steps|
  {
    if steps == [] then s else Run(Do(s, batch, steps[0]), batch, steps[1..])
  }

  const Initial := State([], 0, Resting, Asleep, [], [])

  /** Somebody will signal, or has. */
  ghost predicate SignalComing(s: State) {
    s.signals > 0 || s.receiver.Pushing?
  }

  ghost predicate Inv(s: State, batch: nat) {
    && s.popped + s.queue == s.received
    && match s.consumer
       case Asleep => s.queue != [] ==> SignalComing(s)
       case Awake => true
       case Popping(count, done, held) =>
         && done <= Min(count, batch)
         && count - done <= |s.queue|
         && (held.Some? ==> s.queue != [] && held.value == s.queue[0] && done < Min(count, batch))
         && (count - done < |s.queue| ==> SignalComing(s))
  }

  lemma DoInv(s: State, batch: nat, step: Step)
    requires Inv(s, batch) && Enabled(s, batch, step)
    ensures Inv(Do(s, batch, step), batch)
  {
    var t := Do(s, batch, step);
    match step
    case Push => assert t.popped + t.queue == s.popped + s.queue + [s.receiver.rest[0]];
    case Pop => assert t.popped + t.queue == s.popped + s.queue;
    case _ =>
  }

  lemma {:induction false} RunInv(s: State, batch: nat, steps: seq<Step>)
    requires Inv(s, batch) && IsRun(s, batch, steps)
    ensures Inv(Run(s, batch, steps), batch)
    decreases |steps|
  {
    if steps != [] {
      DoInv(s, batch, steps[0]);
      RunInv(Do(s, batch, steps[0]), batch, steps[1..]);
    }
  }

  /** No lost wake-up, in every interleaving: queued work while both threads rest means the
      event is signalled; and popping then queue is always what was received, in order. */
  lemma NoLostWakeUp(batch: nat, steps: seq<Step>)
    requires IsRun(Initial, batch, steps)
    ensures var s := Run(Initial, batch, steps);
            && s.popped + s.queue == s.received
            && (s.receiver.Resting? && s.consumer.Asleep? && s.queue != [] ==> s.signals > 0)
  {
    RunInv(Initial, batch, steps);
  }

  // ---------- Draining: how many wake-ups it takes ----------

  /** One wake-up with the receiver at rest. */
  function Woken(s: State, batch: nat): State {
    var n := Min(|s.queue|, batch);
    s.(queue := s.queue[n..], popped := s.popped + s.queue[..n],
       signals := if |s.queue| > batch then 1 else 0)
  }

  lemma {:induction false} RunAndThen(s: State, batch: nat, steps: seq<Step>, step: Step)
    requires IsRun(s, batch, steps) && Enabled(Run(s, batch, steps), batch, step)
    ensures IsRun(s, batch, steps + [step])
    ensures Run(s, batch, steps + [step]) == Do(Run(s, batch, steps), batch, step)
    decreases |steps|
  {
    if steps == [] {
      assert steps + [step] == [step] && [step][1..] == [];
    } else {
      assert (steps + [step])[1..] == steps[1..] + [step];
      RunAndThen(Do(s, batch, steps[0]), batch, steps[1..], step);
    }
  }

  function Wakes(steps: seq<Step>): nat {
    if steps == [] then 0 else Wakes(steps[..|steps| - 1]) + (if steps[|steps| - 1].ReadData? then 1 else 0)
  }

  lemma WakesSnoc(steps: seq<Step>, step: Step)
    ensures Wakes(steps + [step]) == Wakes(steps) + (if step.ReadData? then 1 else 0)
  {
    assert (steps + [step])[..|steps|] == steps;
  }

  lemma {:induction false} RunTwice(s: State, batch: nat, a: seq<Step>, b: seq<Step>)
    requires IsRun(s, batch, a) && IsRun(Run(s, batch, a), batch, b)
    ensures IsRun(s, batch, a + b) && Run(s, batch, a + b) == Run(Run(s, batch, a), batch, b)
    ensures Wakes(a + b) == Wakes(a) + Wakes(b)
    decreases |b|
  {
    if b == [] {
      assert a + b == a;
    } else {
      var front, last := b[..|b| - 1], b[|b| - 1];
      var mid := Run(s, batch, a);
      assert b == front + [last] && a + b == (a + front) + [last];
      Shorter(mid, batch, front, last);
      RunTwice(s, batch, a, front);
      RunAndThen(s, batch, a + front, last);
      RunAndThen(mid, batch, front, last);
      WakesSnoc(a + front, last);
      WakesSnoc(front, last);
    }
  }

  lemma {:induction false} Shorter(s: State, batch: nat, steps: seq<Step>, step: Step)
    requires IsRun(s, batch, steps + [step])
    ensures IsRun(s, batch, steps) && Enabled(Run(s, batch, steps), batch, step)
    decreases |steps|
  {
    if steps == [] {
      assert steps + [step] == [step];
    } else {
      assert (steps + [step])[1..] == steps[1..] + [step];
      Shorter(Do(s, batch, steps[0]), batch, steps[1..], step);
    }
  }

  /** `Woken` is what the steps of one wake-up do. */
  lemma WakeUp(s: State, batch: nat) returns (steps: seq<Step>)
    requires Inv(s, batch) && s.receiver.Resting? && s.consumer.Asleep? && s.signals > 0
    ensures IsRun(s, batch, steps) && Run(s, batch, steps) == Woken(s, batch) && Wakes(steps) == 1
  {
    hide Wakes, IsRun, Run;
    steps := Opening(s, batch);
    if s.queue == [] {
      assert s.popped + [] == s.popped;
      return;
    }
    var count := |s.queue|;
    var i := 0;
    while i < Min(count, batch)
      invariant i <= Min(count, batch) && IsRun(s, batch, steps) && Wakes(steps) == 1
      invariant Run(s, batch, steps) == s.(signals := 0, consumer := Popping(count, i, None), queue := s.queue[i..],
                                           popped := s.popped + s.queue[..i])
    {
      RunAndThen(s, batch, steps, Front);
      WakesSnoc(steps, Front);
      steps := steps + [Front];
      RunAndThen(s, batch, steps, Pop);
      WakesSnoc(steps, Pop);
      steps := steps + [Pop];
      assert s.queue[i..][1..] == s.queue[i + 1..] && s.queue[..i] + [s.queue[i]] == s.queue[..i + 1];
      i := i + 1;
    }
    RunAndThen(s, batch, steps, Finish);
    WakesSnoc(steps, Finish);
    steps := steps + [Finish];
  }

  lemma Opening(s: State, batch: nat) returns (steps: seq<Step>)
    requires s.consumer.Asleep? && s.signals > 0
    ensures IsRun(s, batch, steps) && Wakes(steps) == 1
    ensures Run(s, batch, steps) ==
            s.(signals := 0, consumer := if s.queue == [] then Asleep else Popping(|s.queue|, 0, None))
  {
    RunAndThen(s, batch, [], ReadData);
    RunAndThen(s, batch, [] + [ReadData], CountQueue);
    steps := [] + [ReadData] + [CountQueue];
    WakesSnoc([], ReadData);
    WakesSnoc([] + [ReadData], CountQueue);
  }

  /** With nothing more arriving, k wake-ups empty any queue of at most k batches, each of
      them signalled, and hand over exactly what was queued. */
  lemma {:induction false} WakeUpsDrain(s: State, batch: nat, k: nat) returns (steps: seq<Step>)
    requires Inv(s, batch) && s.receiver.Resting? && s.consumer.Asleep?
    requires batch >= 1 && |s.queue| <= k * batch
    ensures IsRun(s, batch, steps) && Wakes(steps) <= k
    ensures Run(s, batch, steps).queue == [] && Run(s, batch, steps).popped == s.popped + s.queue
    decreases k
  {
    if s.queue == [] {
      assert s.popped + [] == s.popped;
      steps := [];
    } else {
      var first := WakeUp(s, batch);
      var t := Woken(s, batch);
      RunInv(s, batch, first);
      assert k > 0 && |t.queue| <= (k - 1) * batch by {
        assert k * batch == (k - 1) * batch + batch;
      }
      var rest := WakeUpsDrain(t, batch, k - 1);
      RunTwice(s, batch, first, rest);
      steps := first + rest;
      assert t.popped + t.queue == s.popped + s.queue;
    }
  }

  // ---------- Whole calls as runs of steps ----------

  /** handleReceivedData, from start to end. */
  function Received(s: State, kcos: seq<Kco>): State {
    s.(queue := s.queue + kcos, received := s.received + kcos, signals := s.signals + 1)
  }

  lemma ReceivedRun(s: State, batch: nat, before: seq<Step>, kcos: seq<Kco>) returns (steps: seq<Step>)
    requires IsRun(s, batch, before) && Run(s, batch, before).receiver.Resting?
    ensures IsRun(s, batch, steps) && Run(s, batch, steps) == Received(Run(s, batch, before), kcos)
  {
    hide IsRun, Run;
    var start := Run(s, batch, before);
    RunAndThen(s, batch, before, Receive(kcos));
    steps := before + [Receive(kcos)];
    assert start.queue + kcos[..0] == start.queue && start.received + kcos[..0] == start.received;
    for i := 0 to |kcos|
      invariant IsRun(s, batch, steps)
      invariant Run(s, batch, steps) == start.(queue := start.queue + kcos[..i], received := start.received + kcos[..i],
                                               receiver := Pushing(kcos[i..]))
    {
      RunAndThen(s, batch, steps, Push);
      steps := steps + [Push];
      assert kcos[..i + 1] == kcos[..i] + [kcos[i]] && kcos[i..][1..] == kcos[i + 1..];
      assert (start.queue + kcos[..i]) + [kcos[i]] == start.queue + kcos[..i + 1];
      assert (start.received + kcos[..i]) + [kcos[i]] == start.received + kcos[..i + 1];
    }
    assert kcos[..|kcos|] == kcos && kcos[|kcos|..] == [];
    RunAndThen(s, batch, steps, Notify);
    steps := steps + [Notify];
  }

  /** pops after a wake-up; `arriving[i]` is handled while the i-th item is being popped. */
  function PopsDone(s: State, batch: nat, arriving: seq<seq<Kco>>): State {
    var n := Min(|s.queue|, batch);
    s.(queue := s.queue[n..] + Mirror.Flatten(arriving), received := s.received + Mirror.Flatten(arriving),
       popped := s.popped + s.queue[..n], consumer := Asleep,
       signals := s.signals + n + if |s.queue| > batch then 1 else 0)
  }

  /** Both calls are runs of the atomic steps, so what is proved of every run holds of them. */
  lemma PopsRun(s: State, batch: nat, arriving: seq<seq<Kco>>) returns (steps: seq<Step>)
    requires s.receiver.Resting? && s.consumer.Awake? && |arriving| == Min(|s.queue|, batch)
    ensures IsRun(s, batch, steps) && Run(s, batch, steps) == PopsDone(s, batch, arriving)
  {
    RunAndThen(s, batch, [], CountQueue);
    steps := [] + [CountQueue];
    FlattenNone();
    hide IsRun, Run, Mirror.Flatten;
    var n, count := |arriving|, |s.queue|;
    if s.queue == [] {
      assert arriving == [] && s.queue[0..] + [] == s.queue;
      assert s.received + [] == s.received && s.popped + [] == s.popped;
      return;
    }
    assert arriving[..0] == [];
    assert s.queue[0..] + [] == s.queue && s.received + [] == s.received && s.popped + s.queue[..0] == s.popped;
    for i := 0 to n
      invariant IsRun(s, batch, steps)
      invariant Run(s, batch, steps) == PopsMiddle(s, arriving, i)
    {
      steps := PopsStep(s, batch, arriving, i, steps);
    }
    assert arriving[..n] == arriving;
    RunAndThen(s, batch, steps, Finish);
    steps := steps + [Finish];
  }

  function PopsMiddle(s: State, arriving: seq<seq<Kco>>, i: nat): State
    requires i <= |arriving| && i <= |s.queue|
  {
    s.(queue := s.queue[i..] + Mirror.Flatten(arriving[..i]), received := s.received + Mirror.Flatten(arriving[..i]),
       popped := s.popped + s.queue[..i], consumer := Popping(|s.queue|, i, None), signals := s.signals + i)
  }

  lemma PopsStep(s: State, batch: nat, arriving: seq<seq<Kco>>, i: nat, before: seq<Step>) returns (steps: seq<Step>)
    requires s.receiver.Resting? && i < |arriving| && |arriving| == Min(|s.queue|, batch)
    requires IsRun(s, batch, before) && Run(s, batch, before) == PopsMiddle(s, arriving, i)
    ensures IsRun(s, batch, steps) && Run(s, batch, steps) == PopsMiddle(s, arriving, i + 1)
  {
    hide IsRun, Run, Mirror.Flatten;
    RunAndThen(s, batch, before, Front);
    steps := ReceivedRun(s, batch, before + [Front], arriving[i]);
    PopsMiddleNext(s, arriving, i);
    RunAndThen(s, batch, steps, Pop);
    steps := steps + [Pop];
  }

  lemma FlattenNone()
    ensures Mirror.Flatten([]) == []
  {
  }

  // ---------- The object ----------

  class ZmqConsumerStateTable {
    const popBatchSize: nat
    const updater: Mirror.AsyncDBUpdater?
    const registry: HandlerRegistry.ZmqHandlerRegistry
    const dbName: string
    const table: string
    var queue: seq<Kco>
    var signals: nat
    ghost var received: seq<Kco>
    ghost var popped: seq<Kco>

    ghost function View(consumer: Consumer): State
      reads this
    {
      State(queue, signals, Resting, consumer, received, popped)
    }

    /** The object registers itself, as `self`, for its names. */
    constructor (popBatchSize: int, updater: Mirror.AsyncDBUpdater?, registry: HandlerRegistry.ZmqHandlerRegistry,
                 dbName: string, table: string, self: HandlerRegistry.Handler)
      modifies registry
      ensures View(Asleep) == Initial && this.updater == updater
      ensures this.popBatchSize == BatchSize(popBatchSize)
      ensures this.registry == registry && this.dbName == dbName && this.table == table
      ensures registry.handlers == HandlerRegistry.Registered(old(registry.handlers), dbName, table, self)
    {
      this.popBatchSize := BatchSize(popBatchSize);
      this.updater, this.registry, this.dbName, this.table := updater, registry, dbName, table;
      queue, signals, received, popped := [], 0, [], [];
      new;
      registry.RegisterHandler(dbName, table, self);
    }

    /** The destructor: the registry forgets the names before anything else goes. */
    method Detach()
      modifies registry
      ensures registry.handlers == HandlerRegistry.Removed(old(registry.handlers), dbName, table)
    {
      registry.RemoveHandler(dbName, table);
    }

    /** Every operation reaches the queue, and the persistence queue when there is one, in the
        order received; one signal for the whole message. */
    method HandleReceivedData(kcos: seq<Kco>, ghost consumer: Consumer)
      modifies this, updater
      ensures View(consumer) == Received(old(View(consumer)), kcos)
      ensures updater != null ==> updater.queue == old(updater.queue) + kcos && updater.table == old(updater.table)
    {
      for i := 0 to |kcos|
        invariant queue == old(queue) + kcos[..i] && signals == old(signals)
        invariant received == old(received) + kcos[..i] && popped == old(popped)
        invariant updater != null ==>
                    updater.queue == old(updater.queue) + kcos[..i] && updater.table == old(updater.table)
      {
        assert kcos[..i + 1] == kcos[..i] + [kcos[i]];
        queue, received := queue + [kcos[i]], received + [kcos[i]];
        if updater != null {
          updater.Update(kcos[i]);
        }
      }
      signals := signals + 1;
    }

    /** The event is read when the consumer wakes. */
    method ReadData()
      requires signals > 0
      modifies this`signals
      ensures View(Awake) == Do(old(View(Asleep)), popBatchSize, Step.ReadData)
    {
      signals := 0;
    }

    /** `arriving[i]` is a message handled while the i-th item is popped. An empty queue leaves
        the caller's list as it was. */
    method Pops(vkco: seq<Kco>, arriving: seq<seq<Kco>>) returns (result: seq<Kco>)
      requires |arriving| == Min(|queue|, popBatchSize)
      modifies this, updater
      ensures View(Asleep) == PopsDone(old(View(Awake)), popBatchSize, arriving)
      ensures result == (if old(queue) == [] then vkco else popped[|old(popped)|..])
    {
      hide Mirror.Flatten;
      var count := |queue|;
      FlattenNone();
      if count == 0 {
        assert arriving == [] && received + [] == received && popped + queue[..0] == popped && queue[0..] + [] == queue;
        return vkco;
      }
      result := [];
      var limit := Min(count, popBatchSize);
      ghost var was := View(Popping(count, 0, None));
      assert arriving[..0] == [] && was.received + [] == was.received;
      assert was.popped + was.queue[..0] == was.popped && was.queue[0..] + [] == was.queue;
      for i := 0 to limit
        invariant result == was.queue[..i]
        invariant View(Popping(count, i, None)) == PopsMiddle(was, arriving, i)
      {
        ghost var consumer := Popping(count, i, None);
        var kco := queue[0];
        result := result + [kco];
        HandleReceivedData(arriving[i], consumer);
        queue := queue[1..];
        popped := popped + [kco];
        PopsMiddleNext(was, arriving, i);
      }
      assert arriving[..limit] == arriving;
      if count > popBatchSize {
        signals := signals + 1;
      }
    }
  }

  lemma PopsMiddleNext(s: State, arriving: seq<seq<Kco>>, i: nat)
    requires i < |arriving| && i < |s.queue|
    ensures var t := Received(PopsMiddle(s, arriving, i), arriving[i]);
            && t.queue != [] && t.queue[0] == s.queue[i]
            && PopsMiddle(s, arriving, i + 1)
               == t.(queue := t.queue[1..], popped := t.popped + [s.queue[i]], consumer := Popping(|s.queue|, i + 1, None))
  {
    hide Mirror.Flatten;
    var was := Mirror.Flatten(arriving[..i]);
    Mirror.FlattenSnoc(arriving, i);
    assert (s.queue[i..] + was + arriving[i])[1..] == s.queue[i + 1..] + (was + arriving[i]);
    assert s.received + was + arriving[i] == s.received + (was + arriving[i]);
    assert s.popped + s.queue[..i] + [s.queue[i]] == s.popped + s.queue[..i + 1];
  }
}
