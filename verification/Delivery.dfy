/** Producers on a pipeline and a ConsumerStateTable on their channel: single writes never strand a key
    when one pop takes as many keys as one flush may announce. */
module Delivery {
  import opened Pipeline
  import C = ConsumerState

  // ---------- How many keys a publish announces ----------

  /** Keys entered on a channel since its last publish. */
  function Owed(log: seq<Event>, c: string): nat {
    if log == [] then 0 else OwedAfter(Owed(log[..|log| - 1], c), log[|log| - 1], c)
  }

  function OwedAfter(owed: nat, e: Event, c: string): nat {
    if e.channel != c then owed else if e.Entered? then owed + 1 else 0
  }

  /** No publish on the channel announces more keys than `most`. */
  ghost predicate Fits(log: seq<Event>, c: string, most: nat) {
    log == [] || (Fits(log[..|log| - 1], c, most) && (log[|log| - 1] == Published(c) ==> Owed(log[..|log| - 1], c) <= most))
  }

  lemma LogSnoc(log: seq<Event>, e: Event, c: string, most: nat)
    ensures Owed(log + [e], c) == OwedAfter(Owed(log, c), e, c)
    ensures Fits(log + [e], c, most) <==> Fits(log, c, most) && (e == Published(c) ==> Owed(log, c) <= most)
  {
    assert (log + [e])[..|log|] == log;
  }

  lemma {:induction false} OwedSilent(log: seq<Event>, c: string)
    ensures c in Silent(log) <==> Owed(log, c) > 0
    decreases |log|
  {
    if log != [] {
      OwedSilent(log[..|log| - 1], c);
    }
  }

  /** A write of at most one key. */
  predicate Single(cmd: Command) { cmd.Write? ==> |cmd.keys| <= 1 }

  lemma EnterOwed(p: Pipe, channel: string, keys: seq<string>, c: string, most: nat)
    requires |keys| <= 1 && Fits(p.log, c, most)
    ensures var q := EnterAll(p, channel, keys);
            Fits(q.log, c, most) && Owed(q.log, c) <= Owed(p.log, c) + 1
  {
    hide Owed, Fits;
    if keys != [] {
      assert keys[1..] == [];
      var q := Enter(p, channel, keys[0]);
      assert EnterAll(q, channel, []) == q;
      LogSnoc(p.log, Entered(channel, keys[0]), c, most);
    }
  }

  lemma ExecuteOwed(p: Pipe, cmd: Command, c: string, most: nat)
    requires Single(cmd) && Fits(p.log, c, most) && Owed(p.log, c) + 1 <= most
    ensures var q := Execute(p, cmd);
            Fits(q.log, c, most) && Owed(q.log, c) <= Owed(p.log, c) + 1
  {
    hide Owed, Fits, EnterAll;
    if cmd.Write? {
      EnterOwed(p, cmd.channel, cmd.keys, c, most);
      LogSnoc(EnterAll(p, cmd.channel, cmd.keys).log, Published(cmd.channel), c, most);
    }
  }

  /** What the outstanding commands may still add, and what is owed already, make at most `most`. */
  ghost predicate Loaded(p: Pipe, c: string, most: nat) {
    && InStep(p) && (forall cmd | cmd in p.sent :: Single(cmd))
    && Fits(p.log, c, most)
    && Owed(p.log, c) + (|p.sent| - p.executed) <= most
  }

  lemma RunAheadOwed(p: Pipe, c: string, most: nat)
    requires Loaded(p, c, most)
    ensures Loaded(RunAhead(p), c, most) && Owed(RunAhead(p).log, c) - RunAhead(p).executed <= Owed(p.log, c) - p.executed
  {
    if p.executed < |p.sent| {
      hide Owed, Fits, Execute;
      ExecuteOwed(p, p.sent[p.executed], c, most);
    }
  }

  lemma PopOwed(p: Pipe, c: string, most: nat)
    requires Loaded(p, c, most) && p.remaining > 0
    ensures Loaded(Pop(p).pipe, c, most)
  {
    hide Owed, Fits, Execute;
    RunAheadOwed(p, c, most);
    var q := Pop(p).pipe;
    assert forall i | 0 <= i < |q.sent| :: q.sent[i] == p.sent[i + 1] && q.expected[i] == p.expected[i + 1];
    assert forall cmd | cmd in q.sent :: cmd in p.sent;
  }

  lemma {:induction false} PopAllOwed(p: Pipe, c: string, most: nat)
    requires Loaded(p, c, most)
    ensures Loaded(PopAll(p).pipe, c, most)
    decreases |p.sent|
  {
    if p.remaining > 0 {
      hide Loaded;
      PopOwed(p, c, most);
      PopAllOwed(Pop(p).pipe, c, most);
    }
  }

  lemma {:induction false} PublishOwed(log: seq<Event>, channels: seq<string>, c: string, most: nat)
    requires Fits(log, c, most) && Owed(log, c) <= most
    ensures var r := log + Announcements(channels);
            Fits(r, c, most) && Owed(r, c) <= Owed(log, c)
    decreases |channels|
  {
    hide Owed, Fits;
    if channels == [] {
      assert log + [] == log;
    } else {
      var front, last := channels[..|channels| - 1], channels[|channels| - 1];
      PublishOwed(log, front, c, most);
      LogSnoc(log + Announcements(front), Published(last), c, most);
      assert log + Announcements(channels) == (log + Announcements(front)) + [Published(last)];
    }
  }

  lemma FlushOwed(p: Pipe, c: string, most: nat)
    requires Loaded(p, c, most)
    ensures Fits(Flush(p).pipe.log, c, most)
  {
    hide Owed, Fits, PopAll, Announcements;
    PopAllOwed(p, c, most);
    if p.remaining > 0 && PopAll(p).ok {
      PublishOwed(PopAll(p).pipe.log, PopAll(p).pipe.shaPub, c, most);
    }
  }

  // ---------- Over every run ----------

  ghost predicate SingleOp(op: Op) { op.SetOrDel? ==> |op.keys| <= 1 }

  ghost predicate Modest(p: Pipe, c: string, commandMax: nat) {
    && Covered(p) && Quiet(p) && p.remaining < commandMax && (forall cmd | cmd in p.sent :: Single(cmd))
    && Fits(p.log, c, commandMax) && Owed(p.log, c) <= p.executed
  }

  lemma FlushModest(p: Pipe, c: string, commandMax: nat)
    requires Covered(p) && Quiet(p) && Loaded(p, c, commandMax) && commandMax >= 1
    ensures Modest(Flush(p).pipe, c, commandMax) && Flush(p).ok
  {
    hide Owed, Fits, Silent, Flush, Covered;
    FlushCovered(p);
    FlushOwed(p, c, commandMax);
    OwedSilent(Flush(p).pipe.log, c);
    EmptyInStep(Flush(p).pipe);
  }

  lemma EmptyInStep(p: Pipe)
    requires Covered(p) && p.remaining == 0
    ensures InStep(p) && p.sent == [] && p.executed == 0
  {
  }

  lemma ModestLoaded(p: Pipe, c: string, commandMax: nat)
    requires Modest(p, c, commandMax)
    ensures Loaded(p, c, commandMax)
  {
  }

  lemma PushModest(p: Pipe, cmd: Command, c: string, commandMax: nat)
    requires Modest(p, c, commandMax) && Single(cmd) && cmd.WellTyped() && (!cmd.Deferred() ==> cmd.Plain?)
    requires cmd.Write? && !cmd.publishes ==> cmd.channel in Pipeline.Loaded(p)
    ensures Modest(Push(p, cmd, commandMax).pipe, c, commandMax)
  {
    hide Owed, Fits, Silent, Flush;
    AppendCovered(p, cmd);
    if cmd.Deferred() {
      var q := Append(p, cmd);
      assert forall x | x in q.sent :: x in p.sent || x == cmd;
      if q.remaining >= commandMax {
        FlushModest(q, c, commandMax);
      }
    } else {
      ModestLoaded(p, c, commandMax);
      FlushModest(p, c, commandMax);
    }
  }

  lemma ReloadModest(p: Pipe, channel: string, flushPub: bool, buffered: bool, c: string, commandMax: nat)
    requires Modest(p, c, commandMax) && p.luaPub == p.shaPub && p.channels == Pipeline.Loaded(p)
    ensures Modest(Reload(p, channel, flushPub, buffered).pipe, c, commandMax)
  {
    hide Owed, Fits, Silent, Flush;
    ModestLoaded(p, c, commandMax);
    if buffered && flushPub && channel !in p.channels {
      var q := p.(channels := p.channels + {channel}, luaPub := p.luaPub + [channel]);
      assert Covered(q) && Quiet(q) && Loaded(q, c, commandMax);
      FlushModest(q, c, commandMax);
      FlushCovered(q);
      var r := Flush(q).pipe.(shaPub := q.luaPub);
      assert Modest(r, c, commandMax);
      ModestLoaded(r, c, commandMax);
      FlushModest(r, c, commandMax);
    } else {
      FlushModest(p, c, commandMax);
    }
  }

  lemma StepModest(s: System, op: Op, c: string, commandMax: nat)
    requires Inv(s, commandMax) && Modest(s.pipe, c, commandMax) && Enabled(s, op) && Answered(op) && SingleOp(op)
    ensures Modest(Step(s, op, commandMax).pipe, c, commandMax)
  {
    hide Owed, Fits, Silent, Flush, Reload, Push, Modest, Execute;
    var p := s.pipe;
    StepInv(s, op, commandMax);
    match op
    case Create(_, channel, flushPub, buffered) => ReloadModest(p, channel, flushPub, buffered, c, commandMax);
    case SetBuffered(id, buffered) => ReloadModest(p, s.producers[id].channel, s.producers[id].flushPub, buffered, c, commandMax);
    case SetOrDel(id, keys, reply) =>
      var cmd := Write(s.producers[id].channel, keys, s.producers[id].publishes, reply);
      PushModest(p, cmd, c, commandMax);
      ModestFlush(Push(p, cmd, commandMax).pipe, c, commandMax);
    case PushPlain(wanted, reply) => PushModest(p, Plain(wanted, reply), c, commandMax);
    case FlushOp => ModestFlush(p, c, commandMax);
    case ServerRuns => RunAheadModest(s, c, commandMax);
    case ConsumerPops(popped) => PopsModest(p, popped, c, commandMax);
  }

  lemma ModestFlush(p: Pipe, c: string, commandMax: nat)
    requires Modest(p, c, commandMax)
    ensures Modest(Flush(p).pipe, c, commandMax)
  {
    ModestLoaded(p, c, commandMax);
    FlushModest(p, c, commandMax);
  }

  lemma RunAheadModest(s: System, c: string, commandMax: nat)
    requires Inv(s, commandMax) && Modest(s.pipe, c, commandMax)
    ensures Modest(RunAhead(s.pipe), c, commandMax)
  {
    hide Owed, Fits, Silent, Execute;
    ModestLoaded(s.pipe, c, commandMax);
    RunAheadOwed(s.pipe, c, commandMax);
    StepInv(s, ServerRuns, commandMax);
  }

  lemma PopsModest(p: Pipe, popped: set<(string, string)>, c: string, commandMax: nat)
    requires Modest(p, c, commandMax)
    ensures Modest(p.(pending := p.pending - popped), c, commandMax)
  {
  }

  lemma {:induction false} RunModest(s: System, ops: seq<Op>, c: string, commandMax: nat)
    requires Inv(s, commandMax) && Modest(s.pipe, c, commandMax) && IsRun(s, ops, commandMax)
    requires forall op | op in ops :: Answered(op) && SingleOp(op)
    ensures Modest(Run(s, ops, commandMax).pipe, c, commandMax)
    decreases |ops|
  {
    hide Inv, Modest, Step;
    if ops != [] {
      assert ops[0] in ops && forall op | op in ops[1..] :: op in ops;
      StepInv(s, ops[0], commandMax);
      StepModest(s, ops[0], c, commandMax);
      RunModest(Step(s, ops[0], commandMax), ops[1..], c, commandMax);
    }
  }

  /** Over every run of single writes with replies as expected no publish announces more than
      COMMAND_MAX keys. */
  lemma FlushesFit(ops: seq<Op>, c: string, commandMax: nat)
    requires commandMax >= 1 && IsRun(Fresh, ops, commandMax) && forall op | op in ops :: Answered(op) && SingleOp(op)
    ensures Fits(Run(Fresh, ops, commandMax).pipe.log, c, commandMax)
  {
    RunModest(Fresh, ops, c, commandMax);
  }

  // ---------- The consumer ----------

  /** What an event on the channel is to the consumer. */
  function Told(e: Event, c: string): seq<C.Step> {
    if e.channel != c then [] else if e.Entered? then [C.Enter({e.key}, false)] else [C.Publish]
  }

  function AllTold(log: seq<Event>, c: string): seq<C.Step> {
    if log == [] then [] else AllTold(log[..|log| - 1], c) + Told(log[|log| - 1], c)
  }

  /** The producers' part of a run of the consumer. */
  function Produced(steps: seq<C.Step>): seq<C.Step> {
    if steps == [] then []
    else (if steps[0].Enter? || steps[0].Publish? then [steps[0]] else []) + Produced(steps[1..])
  }

  /** No publish comes on more than `most` single keys, `owed` of them before the first step. */
  ghost predicate FitsFrom(owed: nat, steps: seq<C.Step>, most: nat)
    decreases |steps|
  {
    steps == [] ||
    match steps[0]
    case Enter(names, false) => |names| <= 1 && FitsFrom(owed + 1, steps[1..], most)
    case Publish => owed <= most && FitsFrom(0, steps[1..], most)
    case _ => false
  }

  function OwedFrom(owed: nat, steps: seq<C.Step>): nat
    decreases |steps|
  {
    if steps == [] then owed else OwedFrom(if steps[0].Enter? then owed + 1 else 0, steps[1..])
  }

  lemma {:induction false} FitsSnoc(owed: nat, steps: seq<C.Step>, step: C.Step, most: nat)
    requires FitsFrom(owed, steps, most) && FitsFrom(OwedFrom(owed, steps), [step], most)
    ensures FitsFrom(owed, steps + [step], most) && OwedFrom(owed, steps + [step]) == OwedFrom(OwedFrom(owed, steps), [step])
    decreases |steps|
  {
    if steps == [] {
      assert steps + [step] == [step];
    } else {
      assert (steps + [step])[1..] == steps[1..] + [step];
      FitsSnoc(if steps[0].Enter? then owed + 1 else 0, steps[1..], step, most);
    }
  }

  lemma {:induction false} ToldFits(log: seq<Event>, c: string, most: nat)
    requires Fits(log, c, most)
    ensures FitsFrom(0, AllTold(log, c), most) && OwedFrom(0, AllTold(log, c)) == Owed(log, c)
    decreases |log|
  {
    if log != [] {
      var front, last := log[..|log| - 1], log[|log| - 1];
      ToldFits(front, c, most);
      if last.channel != c {
        assert AllTold(front, c) + [] == AllTold(front, c);
      } else {
        var step := Told(last, c)[0];
        assert [step][1..] == [];
        FitsSnoc(0, AllTold(front, c), step, most);
      }
    }
  }

  lemma EnterDebt(s: C.State, names: set<string>)
    requires |names| <= 1
    ensures C.Do(s, C.Enter(names, false)).debt <= s.debt + 1
  {
    var added := names - s.keys;
    assert names == added + (names * s.keys);
    assert |names| == |added| + |names * s.keys|;
  }

  lemma {:induction false} ProducedWithin(s: C.State, steps: seq<C.Step>, owed: nat, most: nat)
    requires FitsFrom(owed, Produced(steps), most) && s.debt <= owed
    ensures C.AlwaysWithin(s, steps, most)
    decreases |steps|
  {
    if steps != [] {
      var first, rest := steps[0], steps[1..];
      var t := C.Do(s, first);
      if first.Enter? || first.Publish? {
        assert Produced(steps) == [first] + Produced(rest) && ([first] + Produced(rest))[1..] == Produced(rest);
        if first.Enter? {
          EnterDebt(s, first.names);
          ProducedWithin(t, rest, owed + 1, most);
        } else {
          ProducedWithin(t, rest, 0, most);
        }
      } else {
        assert Produced(steps) == [] + Produced(rest) == Produced(rest);
        ProducedWithin(t, rest, owed, most);
      }
    }
  }

  /** Any producers of single writes on one pipeline, with replies as expected, and a consumer on one
      of their channels that pops at least COMMAND_MAX keys at a time: in every run of both, whatever
      is pending when the consumer subscribes, no key is ever stranded. */
  lemma SingleWritesDelivered(ops: seq<Op>, commandMax: nat, c: string, batch: nat, keys: set<string>, steps: seq<C.Step>)
    requires 1 <= commandMax <= batch
    requires IsRun(Fresh, ops, commandMax) && forall op | op in ops :: Answered(op) && SingleOp(op)
    requires C.IsRun(batch, C.Start(keys, 0), steps) && Produced(steps) == AllTold(Run(Fresh, ops, commandMax).pipe.log, c)
    ensures !C.Stranded(C.Run(C.Start(keys, 0), steps))
  {
    FlushesFit(ops, c, commandMax);
    ToldFits(Run(Fresh, ops, commandMax).pipe.log, c, commandMax);
    ProducedWithin(C.Start(keys, 0), steps, 0, commandMax);
    C.WithinMore(C.Start(keys, 0), steps, commandMax, batch);
    C.NoKeyLeftBehind(batch, keys, 0, steps);
  }
}
