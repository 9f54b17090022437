/** ConsumerStateTable: the loop that counts the pending keys and subscribes, and then one pop of at
    most POP_BATCH_SIZE keys for each notification. Producers, another consumer or a clear may act
    between any two commands. */
module ConsumerState {
  import opened Tables

  /** Where the constructor is; `dirty`: the watched key set has changed since WATCH. */
  datatype Setup = Idle | Watching(dirty: bool) | Subscribed(dirty: bool) | Live

  /** `keys`: the key set. `socket`: messages on the subscription, not yet read. `queueLength`: the
      notifications read and the initial count. `owed`: selects whose pops is still to come.
      `debt`: keys entered by scripts that leave publishing to a flush, since the last flush.
      `extra`: flushes that published since SUBSCRIBE. */
  datatype State = State(keys: set<string>, socket: nat, queueLength: nat, owed: nat, debt: nat, extra: nat, setup: Setup) {
    function Notifications(): nat { queueLength + socket + owed }
  }

  /** `Enter`: a set or del script, single or batched, with or without its own PUBLISH; `Publish`: the
      publish of a flush; `Gone`: keys taken by another consumer or a clear. `Pops` is given what SPOP
      chooses. */
  datatype Step =
    | Enter(names: set<string>, publishes: bool)
    | Publish
    | Gone(names: set<string>)
    | Watch
    | Subscribe
    | Exec
    | Read(n: nat)
    | Selected
    | Pops(names: set<string>)

  /** A step of someone else. */
  predicate Outside(step: Step) { step.Enter? || step.Publish? || step.Gone? }

  function Least(a: nat, b: nat): nat { if a <= b then a else b }

  ghost predicate Enabled(batch: nat, s: State, step: Step) {
    match step
    case Enter(_, _) => true
    case Publish => true
    case Gone(_) => true
    case Watch => s.setup.Idle?
    case Subscribe => s.setup.Watching?
    case Exec => s.setup.Subscribed?
    case Read(n) => s.setup.Live? && n <= s.socket
    case Selected => s.setup.Live? && s.queueLength > 0
    case Pops(names) => s.setup.Live? && s.owed > 0 && names <= s.keys && |names| == Least(batch, |s.keys|)
  }

  predicate Listening(s: State) { s.setup.Subscribed? || s.setup.Live? }

  /** A message reaches the subscription if there is one. */
  function Heard(s: State): State { if Listening(s) then s.(socket := s.socket + 1) else s }

  /** The key set has changed. */
  function Touched(s: State): State {
    match s.setup
    case Watching(_) => s.(setup := Watching(true))
    case Subscribed(_) => s.(setup := Subscribed(true))
    case _ => s
  }

  /** A script publishes when it has added a key. */
  function Entered(s: State, names: set<string>, publishes: bool): State {
    var added := names - s.keys;
    if added == {} then s
    else
      var t := Touched(s.(keys := s.keys + names));
      if publishes then Heard(t) else t.(debt := t.debt + |added|)
  }

  /** EXEC fails when the watched set has changed, and the loop starts again; the next SUBSCRIBE is on
      a new connection. */
  function Do(s: State, step: Step): State {
    match step
    case Enter(names, publishes) => Entered(s, names, publishes)
    case Publish => Heard(s).(debt := 0, extra := if Listening(s) then s.extra + 1 else s.extra)
    case Gone(names) => if names * s.keys == {} then s else Touched(s.(keys := s.keys - names))
    case Watch => s.(setup := Watching(false))
    case Subscribe => s.(setup := Subscribed(s.setup.Watching? && s.setup.dirty), socket := 0, extra := 0)
    case Exec =>
      if s.setup.Subscribed? && s.setup.dirty then s.(setup := Idle)
      else s.(setup := Live, queueLength := |s.keys|)
    case Read(n) => s.(queueLength := s.queueLength + n, socket := if n <= s.socket then s.socket - n else 0)
    case Selected => s.(queueLength := if s.queueLength > 0 then s.queueLength - 1 else 0, owed := s.owed + 1)
    case Pops(names) => s.(keys := s.keys - names, owed := if s.owed > 0 then s.owed - 1 else 0)
  }

  ghost predicate IsRun(batch: nat, s: State, steps: seq<Step>)
    decreases |steps|
  {
    steps == [] || (Enabled(batch, s, steps[0]) && IsRun(batch, Do(s, steps[0]), steps[1..]))
  }

  function Run(s: State, steps: seq<Step>): State
    decreases |steps|
  {
    if steps == [] then s else Run(Do(s, steps[0]), steps[1..])
  }

  /** Before the constructor: any keys pending, any of them still to be published by a flush. */
  function Start(keys: set<string>, debt: nat): State { State(keys, 0, 0, 0, debt, 0, Idle) }

  // ---------- The initial queue length ----------

  /** Between SUBSCRIBE and an EXEC that will succeed only flushes have published. */
  ghost predicate Counted(s: State) {
    && (!s.setup.Live? ==> s.queueLength == 0 && s.owed == 0)
    && (s.setup.Subscribed? && !s.setup.dirty ==> s.socket == s.extra)
  }

  lemma {:induction false} RunCounted(batch: nat, s: State, steps: seq<Step>)
    requires Counted(s) && IsRun(batch, s, steps)
    ensures Counted(Run(s, steps))
    decreases |steps|
  {
    if steps != [] {
      RunCounted(batch, Do(s, steps[0]), steps[1..]);
    }
  }

  /** In every interleaving, when the loop ends there is one notification for each pending key, none
      counted twice, and one for each flush since the subscription. */
  lemma InitialLengthExact(batch: nat, keys: set<string>, debt: nat, steps: seq<Step>)
    requires IsRun(batch, Start(keys, debt), steps) && Enabled(batch, Run(Start(keys, debt), steps), Exec)
    ensures var s := Run(Start(keys, debt), steps);
            var t := Do(s, Exec);
            && (t.setup.Live? <==> !s.setup.dirty)
            && (t.setup.Live? ==> t.Notifications() == |t.keys| + t.extra)
  {
    RunCounted(batch, Start(keys, debt), steps);
  }

  // ---------- No key is left behind ----------

  /** The keys that this many notifications take. */
  function Budget(batch: nat, notifications: nat): nat {
    if notifications == 0 then 0 else Budget(batch, notifications - 1) + batch
  }

  lemma {:induction false} BudgetTimes(batch: nat, n: nat)
    ensures Budget(batch, n) == batch * n
  {
    if n > 0 {
      BudgetTimes(batch, n - 1);
    }
  }

  lemma {:induction false} BudgetSuffices(batch: nat, n: nat)
    requires batch >= 1
    ensures Budget(batch, n) >= n
  {
    if n > 0 {
      BudgetSuffices(batch, n - 1);
    }
  }

  lemma {:induction false} BudgetGrows(batch: nat, n: nat, m: nat)
    requires n <= m
    ensures Budget(batch, n) <= Budget(batch, m)
    decreases m
  {
    if n < m {
      BudgetGrows(batch, n, m - 1);
    }
  }

  /** Every pending key is covered by a notification, or by a flush to come. */
  ghost predicate Covered(batch: nat, s: State) {
    s.setup.Live? ==> |s.keys| <= Budget(batch, s.Notifications()) + s.debt
  }

  /** A publish announces at most `most` keys. */
  ghost predicate Within(s: State, step: Step, most: nat) {
    match step
    case Enter(names, publishes) => publishes ==> |names - s.keys| <= most
    case Publish => s.debt <= most
    case _ => true
  }

  ghost predicate AlwaysWithin(s: State, steps: seq<Step>, most: nat)
    decreases |steps|
  {
    steps == [] || (Within(s, steps[0], most) && AlwaysWithin(Do(s, steps[0]), steps[1..], most))
  }

  lemma AddedSize(keys: set<string>, names: set<string>)
    ensures |keys + names| == |keys| + |names - keys|
  {
    assert keys + names == keys + (names - keys);
  }

  lemma RemovedSize(keys: set<string>, names: set<string>)
    ensures |keys - names| == |keys| - |names * keys| && |names * keys| <= |keys|
  {
    assert keys == (keys - names) + (names * keys);
  }

  lemma EnterCovered(batch: nat, s: State, names: set<string>, publishes: bool)
    requires Covered(batch, s) && (publishes ==> |names - s.keys| <= batch)
    ensures Covered(batch, Entered(s, names, publishes))
  {
    var n := s.Notifications();
    AddedSize(s.keys, names);
    assert Budget(batch, n + 1) == Budget(batch, n) + batch;
  }

  lemma PopsCovered(batch: nat, s: State, names: set<string>)
    requires Covered(batch, s) && Enabled(batch, s, Pops(names))
    ensures Covered(batch, Do(s, Pops(names)))
  {
    RemovedSize(s.keys, names);
    assert names * s.keys == names;
    assert Budget(batch, s.Notifications()) == Budget(batch, s.Notifications() - 1) + batch;
  }

  lemma ExecCovered(batch: nat, s: State)
    requires batch >= 1 && Enabled(batch, s, Exec)
    ensures Covered(batch, Do(s, Exec))
  {
    BudgetSuffices(batch, Do(s, Exec).Notifications());
  }

  lemma DoCovered(batch: nat, s: State, step: Step)
    requires batch >= 1 && Covered(batch, s) && Enabled(batch, s, step) && Within(s, step, batch)
    ensures Covered(batch, Do(s, step))
  {
    match step
    case Enter(names, publishes) => EnterCovered(batch, s, names, publishes);
    case Publish => assert Budget(batch, s.Notifications() + 1) == Budget(batch, s.Notifications()) + batch;
    case Gone(names) => RemovedSize(s.keys, names);
    case Exec => ExecCovered(batch, s);
    case Pops(names) => PopsCovered(batch, s, names);
    case _ =>
  }

  lemma {:induction false} RunCovered(batch: nat, s: State, steps: seq<Step>)
    requires batch >= 1 && Covered(batch, s) && IsRun(batch, s, steps) && AlwaysWithin(s, steps, batch)
    ensures Covered(batch, Run(s, steps))
    decreases |steps|
  {
    hide Covered, Do, Enabled, Within;
    if steps != [] {
      DoCovered(batch, s, steps[0]);
      RunCovered(batch, Do(s, steps[0]), steps[1..]);
    }
  }

  /** Keys pending that no notification announces and no flush will. */
  ghost predicate Stranded(s: State) {
    s.setup.Live? && s.Notifications() == 0 && s.debt == 0 && s.keys != {}
  }

  /** No key that enters before, while or after the consumer subscribes is left both uncounted and
      unannounced, as long as no publish announces more keys than one pop takes. */
  lemma NoKeyLeftBehind(batch: nat, keys: set<string>, debt: nat, steps: seq<Step>)
    requires batch >= 1 && IsRun(batch, Start(keys, debt), steps) && AlwaysWithin(Start(keys, debt), steps, batch)
    ensures !Stranded(Run(Start(keys, debt), steps))
  {
    RunCovered(batch, Start(keys, debt), steps);
  }

  // ---------- What the notifications drain ----------

  predicate Own(step: Step) { step.Read? || step.Selected? || step.Pops? }

  function Remaining(keys: nat, taken: nat): nat { if keys <= taken then 0 else keys - taken }

  /** With nobody else acting, exactly `batch` keys go for each notification used, until none is left. */
  lemma {:induction false} DrainExact(batch: nat, s: State, steps: seq<Step>)
    requires s.setup.Live? && IsRun(batch, s, steps) && forall step | step in steps :: Own(step)
    ensures var t := Run(s, steps);
            && t.setup.Live? && t.Notifications() <= s.Notifications()
            && |t.keys| == Remaining(|s.keys|, Budget(batch, s.Notifications() - t.Notifications()))
    decreases |steps|
  {
    if steps != [] {
      assert steps[0] in steps && forall step | step in steps[1..] :: step in steps;
      var u := Do(s, steps[0]);
      OwnStep(batch, s, steps[0]);
      DrainExact(batch, u, steps[1..]);
    }
  }

  lemma OwnStep(batch: nat, s: State, step: Step)
    requires s.setup.Live? && Enabled(batch, s, step) && Own(step)
    ensures var t := Do(s, step);
            && t.setup.Live?
            && if step.Pops? then t.Notifications() == s.Notifications() - 1 && |t.keys| == Remaining(|s.keys|, batch)
               else t.Notifications() == s.Notifications() && t.keys == s.keys
  {
    if step.Pops? {
      RemovedSize(s.keys, step.names);
      assert step.names * s.keys == step.names;
    }
  }

  /** So the notifications in hand empty the key set if and only if there is one for every `batch`
      keys. */
  lemma DrainsExact(batch: nat, s: State, steps: seq<Step>)
    requires s.setup.Live? && IsRun(batch, s, steps) && (forall step | step in steps :: Own(step))
    requires Run(s, steps).Notifications() == 0
    ensures Run(s, steps).keys == {} <==> |s.keys| <= batch * s.Notifications()
  {
    DrainExact(batch, s, steps);
    BudgetTimes(batch, s.Notifications());
  }

  // ---------- Publishes that announce more than one pop takes ----------

  function Name(i: nat): string { seq(i, _ => 'k') }

  function FirstNames(n: nat): set<string> { if n == 0 then {} else FirstNames(n - 1) + {Name(n - 1)} }

  lemma {:induction false} FirstNamesSize(n: nat)
    ensures |FirstNames(n)| == n && forall x | x in FirstNames(n) :: |x| < n
  {
    if n > 0 {
      FirstNamesSize(n - 1);
      assert |Name(n - 1)| == n - 1 && Name(n - 1) !in FirstNames(n - 1);
    }
  }

  lemma {:induction false} FirstNamesGrow(n: nat, m: nat)
    requires n <= m
    ensures FirstNames(n) <= FirstNames(m)
    decreases m
  {
    if n < m {
      FirstNamesGrow(n, m - 1);
    }
  }

  /** A batch of more keys than one pop takes, published once: what the pop leaves is stranded. */
  lemma OneBatchStrands(batch: nat, size: nat) returns (steps: seq<Step>)
    requires size > batch
    ensures IsRun(batch, Start({}, 0), steps) && AlwaysWithin(Start({}, 0), steps, size)
    ensures Stranded(Run(Start({}, 0), steps)) && |Run(Start({}, 0), steps).keys| == size - batch
  {
    var all, some := FirstNames(size), FirstNames(batch);
    FirstNamesSize(size);
    FirstNamesSize(batch);
    FirstNamesGrow(batch, size);
    RemovedSize(all, some);
    assert some * all == some;
    hide FirstNames, Run, IsRun, AlwaysWithin;
    var rest := PoppedOnce(batch, all, some);
    ConnectedFirst(batch, rest, size);
    steps := [Watch] + ([Subscribe] + ([Exec] + rest));
  }

  const Connected := Start({}, 0).(setup := Live)

  lemma PoppedOnce(batch: nat, all: set<string>, some: set<string>) returns (steps: seq<Step>)
    requires some < all && |some| == batch < |all|
    ensures IsRun(batch, Connected, steps) && AlwaysWithin(Connected, steps, |all|)
    ensures Run(Connected, steps) == Connected.(keys := all - some)
  {
    var s1 := Connected.(keys := all, socket := 1);
    var s2, s3, s4 := s1.(socket := 0, queueLength := 1), s1.(socket := 0, owed := 1), Connected.(keys := all - some);
    assert all - {} == all && {} + all == all && all != {};
    hide Run, IsRun, AlwaysWithin;
    LastStep(batch, s3, Pops(some), s4, |all|);
    MoreSteps(batch, s2, Selected, s3, [Pops(some)], |all|);
    MoreSteps(batch, s1, Read(1), s2, [Selected] + [Pops(some)], |all|);
    assert Entered(Connected, all, true) == s1;
    MoreSteps(batch, Connected, Enter(all, true), s1, [Read(1)] + ([Selected] + [Pops(some)]), |all|);
    steps := [Enter(all, true)] + ([Read(1)] + ([Selected] + [Pops(some)]));
  }

  lemma ConnectedFirst(batch: nat, rest: seq<Step>, most: nat)
    requires IsRun(batch, Connected, rest) && AlwaysWithin(Connected, rest, most)
    ensures var steps := [Watch] + ([Subscribe] + ([Exec] + rest));
            && IsRun(batch, Start({}, 0), steps) && AlwaysWithin(Start({}, 0), steps, most)
            && Run(Start({}, 0), steps) == Run(Connected, rest)
  {
    var s := Start({}, 0);
    hide Run, IsRun, AlwaysWithin;
    MoreSteps(batch, s.(setup := Subscribed(false)), Exec, Connected, rest, most);
    MoreSteps(batch, s.(setup := Watching(false)), Subscribe, s.(setup := Subscribed(false)), [Exec] + rest, most);
    MoreSteps(batch, s, Watch, s.(setup := Watching(false)), [Subscribe] + ([Exec] + rest), most);
  }

  lemma LastStep(batch: nat, s: State, step: Step, t: State, most: nat)
    requires Enabled(batch, s, step) && Within(s, step, most) && t == Do(s, step)
    ensures IsRun(batch, s, [step]) && AlwaysWithin(s, [step], most) && Run(s, [step]) == t
  {
    hide Enabled, Within, Do;
    assert [step][1..] == [];
    assert Run(t, []) == t && IsRun(batch, t, []);
  }

  lemma MoreSteps(batch: nat, s: State, step: Step, t: State, rest: seq<Step>, most: nat)
    requires Enabled(batch, s, step) && Within(s, step, most) && t == Do(s, step)
    requires IsRun(batch, t, rest) && AlwaysWithin(t, rest, most)
    ensures IsRun(batch, s, [step] + rest) && AlwaysWithin(s, [step] + rest, most) && Run(s, [step] + rest) == Run(t, rest)
  {
    hide Enabled, Within, Do;
    assert ([step] + rest)[1..] == rest;
  }

  /** No run strands a key if and only if no publish announces more keys than one pop takes. */
  lemma BatchExact(batch: nat, most: nat)
    requires batch >= 1
    ensures most <= batch <==>
            forall keys, debt, steps | IsRun(batch, Start(keys, debt), steps) && AlwaysWithin(Start(keys, debt), steps, most) ::
              !Stranded(Run(Start(keys, debt), steps))
  {
    if most <= batch {
      forall keys, debt, steps | IsRun(batch, Start(keys, debt), steps) && AlwaysWithin(Start(keys, debt), steps, most)
        ensures !Stranded(Run(Start(keys, debt), steps))
      {
        WithinMore(Start(keys, debt), steps, most, batch);
        NoKeyLeftBehind(batch, keys, debt, steps);
      }
    } else {
      var steps := OneBatchStrands(batch, most);
    }
  }

  lemma {:induction false} WithinMore(s: State, steps: seq<Step>, a: nat, b: nat)
    requires a <= b && AlwaysWithin(s, steps, a)
    ensures AlwaysWithin(s, steps, b)
    decreases |steps|
  {
    if steps != [] {
      WithinMore(Do(s, steps[0]), steps[1..], a, b);
    }
  }

  // ---------- The constructor ----------

  /** One turn of the loop: what others do after WATCH and after SUBSCRIBE. */
  datatype Attempt = Attempt(watching: seq<Step>, subscribed: seq<Step>)

  function TurnSteps(a: Attempt): seq<Step> {
    [Watch] + a.watching + [Subscribe] + a.subscribed + [Exec]
  }

  function Trace(attempts: seq<Attempt>): seq<Step> {
    if attempts == [] then [] else TurnSteps(attempts[0]) + Trace(attempts[1..])
  }

  ghost predicate ByOthers(steps: seq<Step>) { forall step | step in steps :: Outside(step) }

  ghost predicate AllByOthers(attempts: seq<Attempt>) {
    forall a | a in attempts :: ByOthers(a.watching) && ByOthers(a.subscribed)
  }

  /** The last turn is the first one whose EXEC succeeds. */
  predicate Succeeds(s: State, attempts: seq<Attempt>)
    decreases |attempts|
  {
    && attempts != []
    && if Run(s, TurnSteps(attempts[0])).setup.Live? then |attempts| == 1
       else Succeeds(Run(s, TurnSteps(attempts[0])), attempts[1..])
  }

  lemma {:induction false} RunAppend(batch: nat, s: State, a: seq<Step>, b: seq<Step>)
    ensures Run(s, a + b) == Run(Run(s, a), b)
    ensures IsRun(batch, s, a + b) <==> IsRun(batch, s, a) && IsRun(batch, Run(s, a), b)
    decreases |a|
  {
    if a == [] {
      assert a + b == b;
    } else {
      hide Do, Enabled;
      assert (a + b)[1..] == a[1..] + b;
      RunAppend(batch, Do(s, a[0]), a[1..], b);
    }
  }

  lemma {:induction false} OthersRun(batch: nat, s: State, steps: seq<Step>)
    requires ByOthers(steps)
    ensures IsRun(batch, s, steps)
    ensures var t := Run(s, steps);
            && (s.setup.Watching? ==> t.setup.Watching?) && (s.setup.Subscribed? ==> t.setup.Subscribed?)
    decreases |steps|
  {
    if steps != [] {
      assert steps[0] in steps && forall step | step in steps[1..] :: step in steps;
      OthersRun(batch, Do(s, steps[0]), steps[1..]);
    }
  }

  lemma OneStep(batch: nat, s: State, step: Step)
    ensures Run(s, [step]) == Do(s, step) && (IsRun(batch, s, [step]) <==> Enabled(batch, s, step))
  {
    hide Do, Enabled;
    assert [step][1..] == [];
    assert Run(Do(s, step), []) == Do(s, step) && IsRun(batch, Do(s, step), []);
  }

  /** A turn is a run of the state machine. */
  lemma TurnRun(batch: nat, s: State, a: Attempt)
    requires s.setup.Idle? && ByOthers(a.watching) && ByOthers(a.subscribed)
    ensures var s1 := Run(Do(s, Watch), a.watching);
            var s2 := Run(Do(s1, Subscribe), a.subscribed);
            && s1.setup.Watching? && s2.setup.Subscribed?
            && IsRun(batch, s, TurnSteps(a)) && Run(s, TurnSteps(a)) == Do(s2, Exec)
  {
    hide Run, IsRun;
    var s1 := Run(Do(s, Watch), a.watching);
    var s2 := Run(Do(s1, Subscribe), a.subscribed);
    OneStep(batch, s, Watch);
    OthersRun(batch, Do(s, Watch), a.watching);
    RunAppend(batch, s, [Watch], a.watching);
    OneStep(batch, s1, Subscribe);
    RunAppend(batch, s, [Watch] + a.watching, [Subscribe]);
    OthersRun(batch, Do(s1, Subscribe), a.subscribed);
    RunAppend(batch, s, [Watch] + a.watching + [Subscribe], a.subscribed);
    OneStep(batch, s2, Exec);
    RunAppend(batch, s, [Watch] + a.watching + [Subscribe] + a.subscribed, [Exec]);
  }

  /** `world` is the server's side, the subscription and the watch. */
  class ConsumerStateTable {
    var queueLength: nat
    var world: State

    /** The loop runs until an EXEC succeeds; the count it returned becomes the queue length. */
    constructor (batch: nat, keys: set<string>, debt: nat, attempts: seq<Attempt>)
      requires AllByOthers(attempts) && Succeeds(Start(keys, debt), attempts)
      ensures IsRun(batch, Start(keys, debt), Trace(attempts)) && world == Run(Start(keys, debt), Trace(attempts))
      ensures world.setup.Live? && queueLength == world.queueLength
      ensures queueLength + world.socket == |world.keys| + world.extra
    {
      queueLength, world := 0, Start(keys, debt);
      new;
      var i, reply := 0, None;
      assert attempts[0..] == attempts;
      while reply.None?
        invariant i <= |attempts| && Counted(world)
        invariant reply.None? ==> world.setup.Idle? && Succeeds(world, attempts[i..])
        invariant reply.Some? ==> i == |attempts| && world.setup.Live? && reply.value == world.queueLength == |world.keys|
        invariant reply.Some? ==> world.socket == world.extra && world.owed == 0
        invariant IsRun(batch, world, Trace(attempts[i..])) ==> IsRun(batch, Start(keys, debt), Trace(attempts))
        invariant Run(world, Trace(attempts[i..])) == Run(Start(keys, debt), Trace(attempts))
        decreases |attempts| - i
      {
        ghost var was := world;
        assert attempts[i..][0] == attempts[i] && attempts[i..][1..] == attempts[i + 1..] && attempts[i] in attempts;
        TurnRun(batch, was, attempts[i]);
        RunAppend(batch, was, TurnSteps(attempts[i]), Trace(attempts[i + 1..]));
        RunCounted(batch, was, TurnSteps(attempts[i]));
        reply := Turn(batch, attempts[i]);
        i := i + 1;
      }
      assert attempts[i..] == [];
      queueLength := reply.value;
    }

    /** WATCH, MULTI, SUBSCRIBE on a new connection, EXEC of the SCARD. */
    method Turn(ghost batch: nat, a: Attempt) returns (reply: Option<nat>)
      requires world.setup.Idle? && Counted(world) && ByOthers(a.watching) && ByOthers(a.subscribed)
      modifies this`world
      ensures world == Run(old(world), TurnSteps(a))
      ensures reply.None? ==> world.setup.Idle?
      ensures reply.Some? ==> world.setup.Live? && reply.value == world.queueLength == |world.keys|
                              && world.socket == world.extra && world.owed == 0
    {
      hide Run, IsRun;
      TurnRun(batch, old(world), a);
      world := Do(world, Watch);
      OthersRun(batch, world, a.watching);
      RunCounted(batch, world, a.watching);
      Others(a.watching);
      world := Do(world, Subscribe);
      OthersRun(batch, world, a.subscribed);
      RunCounted(batch, world, a.subscribed);
      Others(a.subscribed);
      if world.setup.dirty {
        world := world.(setup := Idle);
        return None;
      }
      reply := Some(|world.keys|);
      world := world.(setup := Live, queueLength := |world.keys|);
    }

    method Others(steps: seq<Step>)
      modifies this`world
      ensures world == Run(old(world), steps)
    {
      assert steps[0..] == steps;
      for i := 0 to |steps|
        invariant Run(world, steps[i..]) == Run(old(world), steps)
      {
        assert steps[i..][0] == steps[i] && steps[i..][1..] == steps[i + 1..];
        world := Do(world, steps[i]);
      }
      assert steps[|steps|..] == [];
    }
  }
}
