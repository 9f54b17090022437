/** RedisPipeline under one or more ProducerStateTables: replies are deferred, and in flush-publish
    mode the channel is published once per flush instead of once per script. */
module Pipeline {
  import opened Tables

  /** What a command may be pushed with; the first three defer their reply. */
  datatype ReplyType = Nil | Status | Integer | Other

  /** What the server answers; a status may be other than OK. */
  datatype Reply = NilReply | StatusReply(isOk: bool) | IntegerReply | OtherReply | ErrorReply

  /** The type check, and for a status the check of its text. */
  predicate Accepts(wanted: ReplyType, reply: Reply) {
    match wanted
    case Nil => reply == NilReply
    case Status => reply == StatusReply(true)
    case Integer => reply == IntegerReply
    case Other => reply == OtherReply
  }

  /** `Write`: a set or del script, single or batched, of the table with this channel, with or
      without its own PUBLISH; `Plain`: any other command. `reply` is what the server answers. */
  datatype Command =
    | Write(channel: string, keys: seq<string>, publishes: bool, reply: Reply)
    | Plain(wanted: ReplyType, reply: Reply)
  {
    function Expected(): ReplyType { if Write? then Nil else wanted }
    predicate WellTyped() { Accepts(Expected(), reply) }
    predicate Deferred() { Expected() != Other }
  }

  /** What happens at the server: a key enters the pending set of its table, or a publish. */
  datatype Event = Entered(channel: string, key: string) | Published(channel: string)

  /** `sent` commands await their reply; the server has run the first `executed` of them.
      `luaPub` and `shaPub` are the publish script as built and as loaded. */
  datatype Pipe = Pipe(sent: seq<Command>, executed: nat, expected: seq<ReplyType>, remaining: nat,
                       channels: set<string>, luaPub: seq<string>, shaPub: seq<string>,
                       log: seq<Event>, pending: set<(string, string)>)

  // ---------- The server ----------

  function Enter(p: Pipe, channel: string, key: string): Pipe {
    if (channel, key) in p.pending then p
    else p.(pending := p.pending + {(channel, key)}, log := p.log + [Entered(channel, key)])
  }

  function EnterAll(p: Pipe, channel: string, keys: seq<string>): (q: Pipe)
    ensures q == p.(log := q.log, pending := q.pending)
    decreases |keys|
  {
    if keys == [] then p else EnterAll(Enter(p, channel, keys[0]), channel, keys[1..])
  }

  /** A script publishes when it has added a key. */
  function Execute(p: Pipe, cmd: Command): (r: Pipe)
    ensures r == p.(log := r.log, pending := r.pending)
  {
    match cmd
    case Plain(_, _) => p
    case Write(channel, keys, publishes, _) =>
      var q := EnterAll(p, channel, keys);
      if publishes && |q.log| > |p.log| then q.(log := q.log + [Published(channel)]) else q
  }

  /** The server may run ahead of the replies that have been read. */
  function RunAhead(p: Pipe): Pipe {
    if p.executed < |p.sent| then Execute(p, p.sent[p.executed]).(executed := p.executed + 1) else p
  }

  // ---------- The pipeline ----------

  datatype Outcome = Outcome(pipe: Pipe, ok: bool)

  /** pop: the counters move before the reply is checked, so a throw leaves them in step. */
  function Pop(p: Pipe): Outcome
    requires p.remaining > 0 && p.sent != [] && p.expected != []
  {
    var q := if p.executed == 0 then RunAhead(p) else p;
    Outcome(q.(sent := q.sent[1..], executed := if q.executed == 0 then 0 else q.executed - 1,
               expected := q.expected[1..], remaining := q.remaining - 1),
            Accepts(p.expected[0], p.sent[0].reply))
  }

  ghost predicate InStep(p: Pipe) {
    && p.remaining == |p.sent| == |p.expected|
    && p.executed <= |p.sent|
    && forall i | 0 <= i < |p.sent| :: p.expected[i] == p.sent[i].Expected()
  }

  function PopAll(p: Pipe): (o: Outcome)
    requires InStep(p)
    ensures InStep(o.pipe) && (o.ok ==> o.pipe.remaining == 0)
    decreases |p.sent|
  {
    if p.remaining == 0 then Outcome(p, true)
    else
      var o := Pop(p);
      if o.ok then PopAll(o.pipe) else o
  }

  /** The publish script: one PUBLISH per registered channel. */
  function Announcements(channels: seq<string>): seq<Event> {
    if channels == [] then [] else Announcements(channels[..|channels| - 1]) + [Published(channels[|channels| - 1])]
  }

  function Publish(p: Pipe): Pipe {
    p.(log := p.log + Announcements(p.shaPub))
  }

  /** flush: nothing outstanding, nothing done; a failed reply leaves before the publish. */
  function Flush(p: Pipe): (o: Outcome)
    requires InStep(p)
    ensures InStep(o.pipe)
  {
    if p.remaining == 0 then Outcome(p, true)
    else
      var o := PopAll(p);
      if o.ok then Outcome(Publish(o.pipe), true) else o
  }

  function Append(p: Pipe, cmd: Command): Pipe {
    p.(sent := p.sent + [cmd], expected := p.expected + [cmd.Expected()], remaining := p.remaining + 1)
  }

  /** push: three reply types are deferred; for any other the pipeline is flushed and the command
      carried out at once. */
  function Push(p: Pipe, cmd: Command, commandMax: nat): (o: Outcome)
    requires InStep(p)
    ensures InStep(o.pipe)
  {
    if cmd.Deferred() then
      var q := Append(p, cmd);
      if q.remaining >= commandMax then Flush(q) else Outcome(q, true)
    else
      var o := Flush(p);
      if o.ok then Outcome(Execute(o.pipe, cmd), cmd.WellTyped()) else o
  }

  /** loadRedisScript inside addChannel flushes with the script loaded so far. */
  function AddChannel(p: Pipe, channel: string): (o: Outcome)
    requires InStep(p)
    ensures InStep(o.pipe)
  {
    if channel in p.channels then Outcome(p, true)
    else
      var q := p.(channels := p.channels + {channel}, luaPub := p.luaPub + [channel]);
      var o := Flush(q);
      Outcome(if o.ok then o.pipe.(shaPub := o.pipe.luaPub) else o.pipe, o.ok)
  }

  // ---------- The producers ----------

  /** `publishes`: the loaded scripts carry their own PUBLISH. */
  datatype Producer = Producer(channel: string, flushPub: bool, buffered: bool, publishes: bool)

  /** Any number of producers, several of them on one channel if need be. */
  datatype System = System(pipe: Pipe, producers: map<nat, Producer>)

  datatype Op =
    | Create(id: nat, channel: string, flushPub: bool, buffered: bool)
    | SetBuffered(id: nat, buffered: bool)
    | SetOrDel(id: nat, keys: seq<string>, reply: Reply)
    | PushPlain(wanted: ReplyType, reply: Reply)
    | FlushOp
    | ServerRuns
    | ConsumerPops(popped: set<(string, string)>)

  /** reloadRedisScript: register the channel if flushes must publish it, then load the scripts
      (each load flushes first). */
  function Reload(p: Pipe, channel: string, flushPub: bool, buffered: bool): (o: Outcome)
    requires InStep(p)
    ensures InStep(o.pipe)
  {
    if buffered && flushPub then
      var o := AddChannel(p, channel);
      if o.ok then Flush(o.pipe) else o
    else Flush(p)
  }

  ghost predicate Enabled(s: System, op: Op) {
    match op
    case Create(id, _, _, _) => id !in s.producers
    case SetBuffered(id, _) => id in s.producers
    case SetOrDel(id, _, _) => id in s.producers
    case _ => true
  }

  /** One call, with whatever replies the server gives. A call that throws leaves what it had done:
      no producer is made, and a producer keeps its scripts. */
  function Step(s: System, op: Op, commandMax: nat): System
    requires InStep(s.pipe) && Enabled(s, op)
  {
    match op
    case Create(id, channel, flushPub, buffered) =>
      var o := Reload(s.pipe, channel, flushPub, buffered);
      System(o.pipe, if o.ok then s.producers[id := Producer(channel, flushPub, buffered, !flushPub || !buffered)] else s.producers)
    case SetBuffered(id, buffered) =>
      var q := s.producers[id];
      var o := Reload(s.pipe, q.channel, q.flushPub, buffered);
      System(o.pipe, s.producers[id := q.(buffered := buffered, publishes := if o.ok then !q.flushPub || !buffered else q.publishes)])
    case SetOrDel(id, keys, reply) =>
      var q := s.producers[id];
      var o := Push(s.pipe, Write(q.channel, keys, q.publishes, reply), commandMax);
      s.(pipe := if q.buffered || !o.ok then o.pipe else Flush(o.pipe).pipe)
    case PushPlain(wanted, reply) => s.(pipe := Push(s.pipe, Plain(wanted, reply), commandMax).pipe)
    case FlushOp => s.(pipe := Flush(s.pipe).pipe)
    case ServerRuns => s.(pipe := RunAhead(s.pipe))
    case ConsumerPops(popped) => s.(pipe := s.pipe.(pending := s.pipe.pending - popped))
  }

  /** The server answers as expected. */
  predicate Answered(op: Op) {
    match op
    case SetOrDel(_, _, reply) => Accepts(Nil, reply)
    case PushPlain(wanted, reply) => Accepts(wanted, reply)
    case _ => true
  }

  ghost predicate IsRun(s: System, ops: seq<Op>, commandMax: nat)
    decreases |ops|
  {
    ops == [] || (InStep(s.pipe) && Enabled(s, ops[0]) && IsRun(Step(s, ops[0], commandMax), ops[1..], commandMax))
  }

  ghost function Run(s: System, ops: seq<Op>, commandMax: nat): System
    requires IsRun(s, ops, commandMax)
    decreases |ops|
  {
    if ops == [] then s else Run(Step(s, ops[0], commandMax), ops[1..], commandMax)
  }

  const Fresh := System(Pipe([], 0, [], 0, {}, [], [], [], {}), map[])

  // ---------- No silent write ----------

  function Hear(silent: set<string>, e: Event): set<string> {
    if e.Entered? then silent + {e.channel} else silent - {e.channel}
  }

  /** Channels with an entered key that no publish has followed. */
  function Silent(log: seq<Event>): set<string> {
    if log == [] then {} else Hear(Silent(log[..|log| - 1]), log[|log| - 1])
  }

  lemma SilentSnoc(log: seq<Event>, e: Event)
    ensures Silent(log + [e]) == Hear(Silent(log), e)
  {
    assert (log + [e])[..|log|] == log;
  }

  ghost function Loaded(p: Pipe): set<string> { set c | c in p.shaPub }

  /** Every outstanding write without its own PUBLISH is on a channel the next flush publishes. */
  ghost predicate Covered(p: Pipe) {
    && InStep(p)
    && (forall cmd | cmd in p.sent :: cmd.WellTyped())
    && (forall cmd | cmd in p.sent && cmd.Write? && !cmd.publishes :: cmd.channel in Loaded(p))
    && Silent(p.log) <= Loaded(p)
  }

  ghost predicate Quiet(p: Pipe) {
    Silent(p.log) != {} ==> p.executed > 0
  }

  ghost predicate Inv(s: System, commandMax: nat) {
    && Covered(s.pipe) && Quiet(s.pipe)
    && s.pipe.luaPub == s.pipe.shaPub && s.pipe.channels == Loaded(s.pipe)
    && (forall id | id in s.producers && !s.producers[id].publishes :: s.producers[id].channel in Loaded(s.pipe))
    && s.pipe.remaining < commandMax
  }

  /** A batch leaves its channel silent if it enters a key, and changes nothing else. */
  lemma {:induction false} EnterAllSilent(p: Pipe, channel: string, keys: seq<string>)
    ensures var q := EnterAll(p, channel, keys);
            && q == p.(log := q.log, pending := q.pending) && |q.log| >= |p.log|
            && (|q.log| == |p.log| ==> q.log == p.log)
            && Silent(q.log) == Silent(p.log) + if |q.log| > |p.log| then {channel} else {}
    decreases |keys|
  {
    if keys != [] {
      hide Silent;
      SilentSnoc(p.log, Entered(channel, keys[0]));
      EnterAllSilent(Enter(p, channel, keys[0]), channel, keys[1..]);
    }
  }

  lemma ExecuteSilent(p: Pipe, cmd: Command)
    ensures var q := Execute(p, cmd);
            && q == p.(log := q.log, pending := q.pending)
            && Silent(q.log) <= Silent(p.log) + if cmd.Write? && !cmd.publishes then {cmd.channel} else {}
  {
    hide EnterAll, Silent;
    if cmd.Write? {
      EnterAllSilent(p, cmd.channel, cmd.keys);
      SilentSnoc(EnterAll(p, cmd.channel, cmd.keys).log, Published(cmd.channel));
    }
  }

  lemma ExecuteCovered(p: Pipe, cmd: Command)
    requires Covered(p) && cmd in p.sent
    ensures Covered(Execute(p, cmd))
    ensures var q := Execute(p, cmd);
            q == p.(log := q.log, pending := q.pending) && Silent(q.log) <= Silent(p.log) + Loaded(p)
  {
    hide Execute, Silent;
    ExecuteSilent(p, cmd);
  }

  lemma PopCovered(p: Pipe)
    requires Covered(p) && p.remaining > 0
    ensures var o := Pop(p);
            && o.ok && Covered(o.pipe)
            && o.pipe.luaPub == p.luaPub && o.pipe.shaPub == p.shaPub && o.pipe.channels == p.channels
  {
    if p.executed == 0 {
      ExecuteCovered(p, p.sent[0]);
    }
    var o := Pop(p);
    assert p.sent[0] in p.sent && p.sent[0].WellTyped();
    assert forall i | 0 <= i < |o.pipe.sent| :: o.pipe.sent[i] == p.sent[i + 1] && o.pipe.expected[i] == p.expected[i + 1];
    assert forall cmd | cmd in o.pipe.sent :: cmd in p.sent;
  }

  lemma {:induction false} PopAllCovered(p: Pipe)
    requires Covered(p)
    ensures var o := PopAll(p);
            && o.ok && o.pipe.remaining == 0 && Covered(o.pipe)
            && o.pipe.luaPub == p.luaPub && o.pipe.shaPub == p.shaPub && o.pipe.channels == p.channels
    decreases |p.sent|
  {
    if p.remaining > 0 {
      PopCovered(p);
      PopAllCovered(Pop(p).pipe);
    }
  }

  lemma {:induction false} PublishSilences(log: seq<Event>, channels: seq<string>)
    ensures Silent(log + Announcements(channels)) == Silent(log) - (set c | c in channels)
    decreases |channels|
  {
    hide Silent;
    if channels == [] {
      assert log + [] == log;
    } else {
      var front, last := channels[..|channels| - 1], channels[|channels| - 1];
      assert log + Announcements(channels) == (log + Announcements(front)) + [Published(last)];
      PublishSilences(log, front);
      SilentSnoc(log + Announcements(front), Published(last));
      assert (set c | c in channels) == (set c | c in front) + {last} by { assert channels == front + [last]; }
    }
  }

  /** A flush empties the pipeline and leaves no channel silent. */
  lemma FlushCovered(p: Pipe)
    requires Covered(p) && Quiet(p)
    ensures var o := Flush(p);
            && o.ok && o.pipe.remaining == 0 && Silent(o.pipe.log) == {} && Covered(o.pipe)
            && o.pipe.luaPub == p.luaPub && o.pipe.shaPub == p.shaPub && o.pipe.channels == p.channels
  {
    if p.remaining > 0 {
      PopAllCovered(p);
      var q := PopAll(p).pipe;
      PublishSilences(q.log, q.shaPub);
      assert Silent(q.log) - Loaded(q) == {};
    }
  }

  lemma AppendCovered(p: Pipe, cmd: Command)
    requires Covered(p) && Quiet(p) && cmd.WellTyped()
    requires cmd.Write? && !cmd.publishes ==> cmd.channel in Loaded(p)
    ensures Covered(Append(p, cmd)) && Quiet(Append(p, cmd))
  {
  }

  lemma ReloadCovered(p: Pipe, channel: string, flushPub: bool, buffered: bool)
    requires Covered(p) && Quiet(p) && p.luaPub == p.shaPub && p.channels == Loaded(p)
    ensures var o := Reload(p, channel, flushPub, buffered);
            && o.ok && Covered(o.pipe) && Quiet(o.pipe) && o.pipe.remaining == 0
            && o.pipe.luaPub == o.pipe.shaPub && o.pipe.channels == Loaded(o.pipe)
            && Loaded(p) <= Loaded(o.pipe) && (buffered && flushPub ==> channel in Loaded(o.pipe))
  {
    hide Flush, Silent;
    if buffered && flushPub && channel !in p.channels {
      var q := p.(channels := p.channels + {channel}, luaPub := p.luaPub + [channel]);
      assert Covered(q) && Quiet(q);
      FlushCovered(q);
      var r := Flush(q).pipe.(shaPub := q.luaPub);
      assert Loaded(r) == Loaded(p) + {channel};
      FlushCovered(r);
    } else {
      FlushCovered(p);
    }
  }

  lemma PushCovered(p: Pipe, cmd: Command, commandMax: nat)
    requires Covered(p) && Quiet(p) && cmd.WellTyped() && p.remaining < commandMax
    requires cmd.Write? && !cmd.publishes ==> cmd.channel in Loaded(p)
    requires !cmd.Deferred() ==> cmd.Plain?
    ensures var o := Push(p, cmd, commandMax);
            && o.ok && Covered(o.pipe) && Quiet(o.pipe) && o.pipe.remaining < commandMax
            && o.pipe.luaPub == p.luaPub && o.pipe.shaPub == p.shaPub && o.pipe.channels == p.channels
  {
    hide Flush, Silent;
    AppendCovered(p, cmd);
    FlushCovered(Append(p, cmd));
    FlushCovered(p);
  }

  lemma StepInv(s: System, op: Op, commandMax: nat)
    requires Inv(s, commandMax) && Enabled(s, op) && Answered(op)
    ensures Inv(Step(s, op, commandMax), commandMax)
  {
    hide Flush, Silent, Reload, Push;
    var p := s.pipe;
    match op
    case Create(_, channel, flushPub, buffered) => ReloadCovered(p, channel, flushPub, buffered);
    case SetBuffered(id, buffered) => ReloadCovered(p, s.producers[id].channel, s.producers[id].flushPub, buffered);
    case SetOrDel(id, keys, reply) =>
      var cmd := Write(s.producers[id].channel, keys, s.producers[id].publishes, reply);
      PushCovered(p, cmd, commandMax);
      FlushCovered(Push(p, cmd, commandMax).pipe);
    case PushPlain(wanted, reply) => PushCovered(p, Plain(wanted, reply), commandMax);
    case FlushOp => FlushCovered(p);
    case ServerRuns => if p.executed < |p.sent| { ExecuteCovered(p, p.sent[p.executed]); }
    case ConsumerPops(_) =>
  }

  lemma {:induction false} RunInv(s: System, ops: seq<Op>, commandMax: nat)
    requires Inv(s, commandMax) && IsRun(s, ops, commandMax) && forall op | op in ops :: Answered(op)
    ensures Inv(Run(s, ops, commandMax), commandMax)
    decreases |ops|
  {
    hide Inv, Step;
    if ops != [] {
      assert ops[0] in ops && forall op | op in ops[1..] :: op in ops;
      StepInv(s, ops[0], commandMax);
      RunInv(Step(s, ops[0], commandMax), ops[1..], commandMax);
    }
  }

  /** No silent write: over every run of any number of producers on one pipeline in which the
      server answers as expected, whatever it runs ahead and the consumers pop, an empty pipeline
      means that every key that entered a pending set was followed by a publish on its channel;
      each outstanding reply is paired with its own command; and fewer than COMMAND_MAX commands
      are outstanding. */
  lemma NoSilentWrite(ops: seq<Op>, commandMax: nat)
    requires commandMax >= 1 && IsRun(Fresh, ops, commandMax) && forall op | op in ops :: Answered(op)
    ensures var p := Run(Fresh, ops, commandMax).pipe;
            && (p.remaining == 0 ==> Silent(p.log) == {})
            && InStep(p)
            && p.remaining < commandMax
  {
    RunInv(Fresh, ops, commandMax);
  }

  /** Silent means what it should: a channel is silent exactly when some key entered on it
      after its last publish. */
  lemma {:induction false} SilentMeans(log: seq<Event>, c: string)
    ensures c in Silent(log) <==>
            exists i | 0 <= i < |log| :: log[i].Entered? && log[i].channel == c && Published(c) !in log[i + 1..]
    decreases |log|
  {
    if log != [] {
      var front, last := log[..|log| - 1], log[|log| - 1];
      assert log == front + [last];
      SilentMeans(front, c);
      forall i | 0 <= i < |front|
        ensures log[i] == front[i] && (Published(c) in log[i + 1..] <==> Published(c) in front[i + 1..] || last == Published(c))
      {
        assert log[i + 1..] == front[i + 1..] + [last];
      }
      assert log[|log|..] == [];
    }
  }

  // ---------- When a flush publishes ----------

  /** Reading all replies succeeds if and only if each is of its command's type. */
  lemma {:induction false} PopAllExact(p: Pipe)
    requires InStep(p)
    ensures PopAll(p).ok <==> forall cmd | cmd in p.sent :: cmd.WellTyped()
    ensures var q := PopAll(p).pipe; q.shaPub == p.shaPub && q.luaPub == p.luaPub && q.channels == p.channels
    decreases |p.sent|
  {
    if p.remaining > 0 {
      hide Execute;
      var o := Pop(p);
      assert p.sent == [p.sent[0]] + o.pipe.sent && p.sent[0] in p.sent;
      assert o.ok <==> p.sent[0].WellTyped();
      if o.ok {
        PopAllExact(o.pipe);
      }
    }
  }

  /** A flush publishes every loaded channel, and leaves none of them silent, if and only if all
      outstanding replies are as expected; otherwise it publishes nothing. */
  lemma FlushExact(p: Pipe)
    requires InStep(p) && p.remaining > 0
    ensures var o := Flush(p);
            && (o.ok <==> forall cmd | cmd in p.sent :: cmd.WellTyped())
            && o.pipe.log == PopAll(p).pipe.log + (if o.ok then Announcements(p.shaPub) else [])
            && (o.ok ==> Silent(o.pipe.log) == Silent(PopAll(p).pipe.log) - Loaded(p))
            && o.pipe.channels == p.channels && o.pipe.luaPub == p.luaPub && o.pipe.shaPub == p.shaPub
  {
    hide PopAll, Silent, Announcements;
    PopAllExact(p);
    var q := PopAll(p).pipe;
    PublishSilences(q.log, q.shaPub);
    assert q.log + [] == q.log;
  }

  /** One write on an empty pipeline, by a producer that leaves publishing to the flush, of a key not
      yet pending: after the next flush nothing is outstanding, and its channel has been published
      if and only if the reply was as expected and the channel is one that flushes publish. */
  lemma WriteThenFlush(s: System, id: nat, key: string, reply: Reply, commandMax: nat)
    requires InStep(s.pipe) && s.pipe.remaining == 0 && id in s.producers
    requires s.producers[id].buffered && !s.producers[id].publishes && (s.producers[id].channel, key) !in s.pipe.pending
    ensures var t := Step(Step(s, SetOrDel(id, [key], reply), commandMax), FlushOp, commandMax);
            && t.pipe.remaining == 0
            && (s.producers[id].channel !in Silent(t.pipe.log) <==> Accepts(Nil, reply) && s.producers[id].channel in Loaded(s.pipe))
  {
    var cmd := Write(s.producers[id].channel, [key], false, reply);
    var q := Append(s.pipe, cmd);
    assert q.sent == [cmd];
    OneWrite(s.pipe, cmd, key);
    hide PopAll, Silent;
    FlushExact(q);
    assert cmd in q.sent;
  }

  /** The only outstanding write is executed and its reply read, whatever it is. */
  lemma OneWrite(p: Pipe, cmd: Command, key: string)
    requires InStep(p) && p.sent == [] && cmd.Write? && cmd.keys == [key] && !cmd.publishes && (cmd.channel, key) !in p.pending
    ensures var o := PopAll(Append(p, cmd));
            o.pipe.remaining == 0 && cmd.channel in Silent(o.pipe.log)
  {
    var q := Append(p, cmd);
    assert q.sent == [cmd] && q.expected == [Nil];
    var r := EnterAll(q, cmd.channel, [key]);
    assert [key][1..] == [] && EnterAll(Enter(q, cmd.channel, key), cmd.channel, []) == Enter(q, cmd.channel, key);
    assert r == Enter(q, cmd.channel, key);
    SilentSnoc(p.log, Entered(cmd.channel, key));
    var o := Pop(q);
    assert o.pipe.remaining == 0 && o.pipe.log == r.log;
  }

  // ---------- Which channels a flush publishes ----------

  /** The loaded script is an earlier state of the built one, which names the registered channels;
      and who leaves publishing to the flush has registered its channel. */
  ghost predicate Built(s: System) {
    && InStep(s.pipe)
    && s.pipe.shaPub <= s.pipe.luaPub
    && s.pipe.channels == (set c | c in s.pipe.luaPub)
    && Distinct(s.pipe.luaPub)
    && forall id | id in s.producers && !s.producers[id].publishes :: s.producers[id].channel in s.pipe.channels
  }

  lemma PublishedAll(s: System)
    requires Built(s)
    ensures s.pipe.channels == Loaded(s.pipe) <==> s.pipe.luaPub == s.pipe.shaPub
  {
    var built, loaded := s.pipe.luaPub, s.pipe.shaPub;
    if built != loaded {
      assert built[..|loaded|] == loaded && |loaded| < |built|;
      var c := built[|loaded|];
      assert c in s.pipe.channels;
      assert c !in Loaded(s.pipe);
    }
  }

  /** The channel an operation registers. */
  function Registers(s: System, op: Op): Option<string>
    requires Enabled(s, op)
  {
    match op
    case Create(_, channel, true, true) => Some(channel)
    case SetBuffered(id, true) => if s.producers[id].flushPub then Some(s.producers[id].channel) else None
    case _ => None
  }

  /** A new channel is registered while every outstanding reply is as expected. */
  ghost predicate CleanStep(s: System, op: Op)
    requires Enabled(s, op)
  {
    Registers(s, op).Some? && Registers(s, op).value !in s.pipe.channels ==> forall cmd | cmd in s.pipe.sent :: cmd.WellTyped()
  }

  lemma FlushKeeps(p: Pipe)
    requires InStep(p)
    ensures var o := Flush(p);
            && (o.ok <==> forall cmd | cmd in p.sent :: cmd.WellTyped())
            && o.pipe.channels == p.channels && o.pipe.luaPub == p.luaPub && o.pipe.shaPub == p.shaPub
            && (o.ok ==> o.pipe.remaining == 0)
  {
    hide PopAll, Silent;
    if p.remaining > 0 {
      FlushExact(p);
    }
  }

  lemma PushKeeps(p: Pipe, cmd: Command, commandMax: nat)
    requires InStep(p)
    ensures var q := Push(p, cmd, commandMax).pipe;
            q.channels == p.channels && q.luaPub == p.luaPub && q.shaPub == p.shaPub
  {
    hide Flush, Execute;
    FlushKeeps(p);
    if cmd.Deferred() {
      FlushKeeps(Append(p, cmd));
    }
  }

  /** Registering: a new channel joins the built script; the loaded script becomes the built one if
      and only if every outstanding reply is as expected. */
  lemma ReloadBuilt(p: Pipe, channel: string, flushPub: bool, buffered: bool)
    requires InStep(p) && p.shaPub <= p.luaPub && p.channels == (set c | c in p.luaPub)
    ensures var o := Reload(p, channel, flushPub, buffered);
            var isNew := buffered && flushPub && channel !in p.channels;
            && o.pipe.channels == p.channels + (if isNew then {channel} else {}) == (set c | c in o.pipe.luaPub)
            && o.pipe.luaPub == p.luaPub + (if isNew then [channel] else [])
            && o.pipe.shaPub == (if isNew && (forall cmd | cmd in p.sent :: cmd.WellTyped()) then o.pipe.luaPub else p.shaPub)
  {
    hide Flush;
    FlushKeeps(p);
    assert p.luaPub + [] == p.luaPub;
    if buffered && flushPub && channel !in p.channels {
      var q := p.(channels := p.channels + {channel}, luaPub := p.luaPub + [channel]);
      FlushKeeps(q);
      FlushKeeps(Flush(q).pipe.(shaPub := q.luaPub));
    }
  }

  lemma ReloadDistinct(p: Pipe, q: Pipe, channel: string)
    requires Distinct(p.luaPub) && p.channels == set c | c in p.luaPub
    requires q.luaPub == p.luaPub || (q.luaPub == p.luaPub + [channel] && channel !in p.channels)
    ensures Distinct(q.luaPub)
  {
  }

  /** Any step, whatever the replies, keeps that; and if flushes publish every registered channel
      before it, they do so after it if and only if it is clean. */
  lemma StepBuilt(s: System, op: Op, commandMax: nat)
    requires Built(s) && Enabled(s, op)
    ensures var t := Step(s, op, commandMax);
            && Built(t)
            && (s.pipe.luaPub == s.pipe.shaPub ==> (t.pipe.luaPub == t.pipe.shaPub <==> CleanStep(s, op)))
  {
    hide Flush, Reload, Push, Execute, Distinct;
    var p := s.pipe;
    match op
    case Create(_, channel, flushPub, buffered) =>
      ReloadBuilt(p, channel, flushPub, buffered);
      ReloadDistinct(p, Step(s, op, commandMax).pipe, channel);
    case SetBuffered(id, buffered) =>
      ReloadBuilt(p, s.producers[id].channel, s.producers[id].flushPub, buffered);
      ReloadDistinct(p, Step(s, op, commandMax).pipe, s.producers[id].channel);
    case SetOrDel(id, keys, reply) =>
      var cmd := Write(s.producers[id].channel, keys, s.producers[id].publishes, reply);
      PushKeeps(p, cmd, commandMax);
      FlushKeeps(Push(p, cmd, commandMax).pipe);
    case PushPlain(wanted, reply) => PushKeeps(p, Plain(wanted, reply), commandMax);
    case FlushOp => FlushKeeps(p);
    case ServerRuns =>
    case ConsumerPops(_) =>
  }

  ghost predicate AlwaysPublished(s: System, ops: seq<Op>, commandMax: nat)
    requires IsRun(s, ops, commandMax)
    decreases |ops|
  {
    s.pipe.channels == Loaded(s.pipe) && (ops == [] || AlwaysPublished(Step(s, ops[0], commandMax), ops[1..], commandMax))
  }

  ghost predicate AlwaysClean(s: System, ops: seq<Op>, commandMax: nat)
    requires IsRun(s, ops, commandMax)
    decreases |ops|
  {
    ops == [] || (CleanStep(s, ops[0]) && AlwaysClean(Step(s, ops[0], commandMax), ops[1..], commandMax))
  }

  lemma {:induction false} RunBuilt(s: System, ops: seq<Op>, commandMax: nat)
    requires Built(s) && IsRun(s, ops, commandMax)
    ensures Built(Run(s, ops, commandMax))
    ensures s.pipe.channels == Loaded(s.pipe) ==> (AlwaysPublished(s, ops, commandMax) <==> AlwaysClean(s, ops, commandMax))
    decreases |ops|
  {
    hide Built, Step, CleanStep, Loaded;
    if ops != [] {
      var t := Step(s, ops[0], commandMax);
      PublishedAll(s);
      StepBuilt(s, ops[0], commandMax);
      PublishedAll(t);
      RunBuilt(t, ops[1..], commandMax);
    }
  }

  /** Over every run from the start, whatever the replies, flushes publish every registered channel
      throughout if and only if no new channel is registered while an outstanding reply is not as
      expected. */
  lemma PublishesExact(ops: seq<Op>, commandMax: nat)
    requires IsRun(Fresh, ops, commandMax)
    ensures AlwaysPublished(Fresh, ops, commandMax) <==> AlwaysClean(Fresh, ops, commandMax)
  {
    RunBuilt(Fresh, ops, commandMax);
  }

  lemma {:induction false} PublishedAtEnd(s: System, ops: seq<Op>, commandMax: nat)
    requires IsRun(s, ops, commandMax) && AlwaysPublished(s, ops, commandMax)
    ensures Run(s, ops, commandMax).pipe.channels == Loaded(Run(s, ops, commandMax).pipe)
    decreases |ops|
  {
    hide Step, Loaded;
    if ops != [] {
      PublishedAtEnd(Step(s, ops[0], commandMax), ops[1..], commandMax);
    }
  }

  /** So after every such run, unexpected replies to other commands included, a write that leaves
      publishing to the flush is announced if and only if its own reply is as expected. */
  lemma AnnouncedExact(ops: seq<Op>, id: nat, key: string, reply: Reply, commandMax: nat)
    requires IsRun(Fresh, ops, commandMax) && AlwaysClean(Fresh, ops, commandMax)
    requires var s := Run(Fresh, ops, commandMax);
             && s.pipe.remaining == 0 && id in s.producers && s.producers[id].buffered && !s.producers[id].publishes
             && (s.producers[id].channel, key) !in s.pipe.pending
    ensures var s := Run(Fresh, ops, commandMax);
            && InStep(s.pipe)
            && var t := Step(Step(s, SetOrDel(id, [key], reply), commandMax), FlushOp, commandMax);
               t.pipe.remaining == 0 && (s.producers[id].channel !in Silent(t.pipe.log) <==> Accepts(Nil, reply))
  {
    var s := Run(Fresh, ops, commandMax);
    PublishesExact(ops, commandMax);
    PublishedAtEnd(Fresh, ops, commandMax);
    RunBuilt(Fresh, ops, commandMax);
    hide Step, Silent, Run;
    WriteThenFlush(s, id, key, reply, commandMax);
  }

  // ---------- Failing runs ----------

  /** A run from the start whose error reply leaves a write that is never announced. */
  lemma ErrorSilences(channel: string, key: string, commandMax: nat)
    ensures var ops := [Create(0, channel, true, true), SetOrDel(0, [key], ErrorReply), FlushOp];
            && IsRun(Fresh, ops, commandMax)
            && var p := Run(Fresh, ops, commandMax).pipe;
               p.remaining == 0 && channel in Silent(p.log)
  {
    var a, b, c := Create(0, channel, true, true), SetOrDel(0, [key], ErrorReply), FlushOp;
    var s1 := Step(Fresh, a, commandMax);
    assert s1.producers == map[0 := Producer(channel, true, true, false)] && s1.pipe.remaining == 0 && s1.pipe.pending == {};
    WriteThenFlush(s1, 0, key, ErrorReply, commandMax);
    ThreeSteps(Fresh, a, b, c, commandMax);
  }

  /** A run from the start in which the reply to an unrelated command makes the first registration
      of a channel fail: the second finds it registered, and no flush publishes the channel, so a
      write whose own replies are all as expected is never announced. */
  lemma LostRegistration(channel: string, key: string, commandMax: nat)
    requires commandMax >= 2
    ensures var ops := [PushPlain(Nil, ErrorReply), Create(0, channel, true, true), Create(1, channel, true, true)];
            && IsRun(Fresh, ops, commandMax)
            && var s := Run(Fresh, ops, commandMax);
               && Built(s) && s.pipe.remaining == 0 && channel in s.pipe.channels && 1 in s.producers
               && var t := Step(Step(s, SetOrDel(1, [key], NilReply), commandMax), FlushOp, commandMax);
                  t.pipe.remaining == 0 && channel in Silent(t.pipe.log)
  {
    var a, b, c := PushPlain(Nil, ErrorReply), Create(0, channel, true, true), Create(1, channel, true, true);
    var s1 := Step(Fresh, a, commandMax);
    var cmd := Plain(Nil, ErrorReply);
    assert s1 == System(Append(Fresh.pipe, cmd), map[]) && s1.pipe.sent == [cmd] && s1.pipe.expected == [Nil];
    var s2 := Step(s1, b, commandMax);
    assert s2 == System(Pipe([], 0, [], 0, {channel}, [channel], [], [], {}), map[]);
    var s3 := Step(s2, c, commandMax);
    assert s3 == s2.(producers := map[1 := Producer(channel, true, true, false)]);
    ThreeSteps(Fresh, a, b, c, commandMax);
    RunBuilt(Fresh, [a, b, c], commandMax);
    WriteThenFlush(s3, 1, key, NilReply, commandMax);
  }

  lemma ThreeSteps(s: System, a: Op, b: Op, c: Op, commandMax: nat)
    requires InStep(s.pipe) && Enabled(s, a)
    requires var s1 := Step(s, a, commandMax);
             InStep(s1.pipe) && Enabled(s1, b) && InStep(Step(s1, b, commandMax).pipe) && Enabled(Step(s1, b, commandMax), c)
    ensures IsRun(s, [a, b, c], commandMax)
    ensures Run(s, [a, b, c], commandMax) == Step(Step(Step(s, a, commandMax), b, commandMax), c, commandMax)
  {
    hide Step, InStep, Enabled;
    var s1 := Step(s, a, commandMax);
    var s2 := Step(s1, b, commandMax);
    var s3 := Step(s2, c, commandMax);
    assert [a, b, c][1..] == [b, c] && [b, c][1..] == [c] && [c][1..] == [];
    assert IsRun(s3, [], commandMax) && Run(s3, [], commandMax) == s3;
    assert IsRun(s2, [c], commandMax) && Run(s2, [c], commandMax) == s3;
    assert IsRun(s1, [b, c], commandMax) && Run(s1, [b, c], commandMax) == s3;
  }

  // ---------- The object ----------

  /** The queue of expected types, the counter and the publish script are the object's; what the
      server has run and logged is kept beside them. */
  class RedisPipeline {
    const commandMax: nat
    var sent: seq<Command>
    var executed: nat
    var expected: seq<ReplyType>
    var remaining: nat
    var channels: set<string>
    var luaPub: seq<string>
    var shaPub: seq<string>
    var log: seq<Event>
    var pending: set<(string, string)>

    ghost function State(): Pipe
      reads this
    {
      Pipe(sent, executed, expected, remaining, channels, luaPub, shaPub, log, pending)
    }

    constructor (commandMax: nat)
      ensures this.commandMax == commandMax && State() == Fresh.pipe
    {
      this.commandMax := commandMax;
      sent, executed, expected, remaining := [], 0, [], 0;
      channels, luaPub, shaPub := {}, [], [];
      log, pending := [], {};
    }

    /** The server runs the first command: its keys enter one by one. */
    method RunFirst()
      requires sent != []
      modifies this`log, this`pending
      ensures State() == Execute(old(State()), sent[0])
    {
      var cmd := sent[0];
      if cmd.Plain? {
        return;
      }
      var added := 0;
      assert cmd.keys[0..] == cmd.keys;
      for i := 0 to |cmd.keys|
        invariant |log| == |old(log)| + added && cmd == sent[0]
        invariant EnterAll(State(), cmd.channel, cmd.keys[i..]) == EnterAll(old(State()), cmd.channel, cmd.keys)
      {
        var key := cmd.keys[i];
        assert cmd.keys[i..][0] == key && cmd.keys[i..][1..] == cmd.keys[i + 1..];
        ghost var was := State();
        if (cmd.channel, key) !in pending {
          pending := pending + {(cmd.channel, key)};
          log := log + [Entered(cmd.channel, key)];
          added := added + 1;
        }
        assert State() == Enter(was, cmd.channel, key);
      }
      assert cmd.keys[|cmd.keys|..] == [];
      if cmd.publishes && added > 0 {
        log := log + [Published(cmd.channel)];
      }
    }

    /** Reading a reply, which waits until the server has run the command. */
    method ReadReply() returns (reply: Reply)
      requires sent != []
      modifies this`sent, this`executed, this`log, this`pending
      ensures var q := if old(executed) == 0 then RunAhead(old(State())) else old(State());
              && reply == old(sent)[0].reply && sent == old(sent)[1..]
              && executed == (if q.executed == 0 then 0 else q.executed - 1)
              && log == q.log && pending == q.pending
    {
      if executed == 0 {
        RunFirst();
      } else {
        executed := executed - 1;
      }
      reply := sent[0].reply;
      sent := sent[1..];
    }

    method PopReply() returns (ok: bool)
      requires InStep(State()) && remaining > 0
      modifies this
      ensures Outcome(State(), ok) == Pop(old(State()))
    {
      var reply := ReadReply();
      remaining := remaining - 1;
      var expectedType := expected[0];
      expected := expected[1..];
      ok := Accepts(expectedType, reply);
    }

    method FlushReplies() returns (ok: bool)
      requires InStep(State())
      modifies this
      ensures Outcome(State(), ok) == Flush(old(State()))
    {
      if remaining == 0 {
        return true;
      }
      ok := true;
      while ok && remaining > 0
        invariant InStep(State())
        invariant ok ==> PopAll(State()) == PopAll(old(State()))
        invariant !ok ==> Outcome(State(), ok) == PopAll(old(State()))
        decreases remaining, ok
      {
        ok := PopReply();
      }
      if ok {
        log := log + Announcements(shaPub);
      }
    }

    method PushCommand(cmd: Command) returns (ok: bool)
      requires InStep(State())
      modifies this
      ensures Outcome(State(), ok) == Push(old(State()), cmd, commandMax)
    {
      if !cmd.Deferred() {
        ok := FlushReplies();
        if ok {
          ok := cmd.WellTyped();
        }
        return;
      }
      sent := sent + [cmd];
      expected := expected + [cmd.Expected()];
      remaining := remaining + 1;
      ok := true;
      if remaining >= commandMax {
        ok := FlushReplies();
      }
    }

    method RegisterChannel(channel: string) returns (ok: bool)
      requires InStep(State())
      modifies this
      ensures Outcome(State(), ok) == AddChannel(old(State()), channel)
    {
      if channel in channels {
        return true;
      }
      channels := channels + {channel};
      luaPub := luaPub + [channel];
      ok := FlushReplies();
      if ok {
        shaPub := luaPub;
      }
    }
  }
}
