/** ZmqHandlerRegistry: who gets a message, and that nobody is called after it is gone. */
module HandlerRegistry {
  import opened Tables

  type Handler = int
  type Handlers = map<string, map<string, Handler>>

  function TablesOf(hs: Handlers, db: string): map<string, Handler> {
    if db in hs then hs[db] else map[]
  }

  function Find(hs: Handlers, db: string, table: string): Option<Handler> {
    var tables := TablesOf(hs, db);
    if table in tables then Some(tables[table]) else None
  }

  /** std::map::insert keeps an entry that is already there. */
  function Registered(hs: Handlers, db: string, table: string, h: Handler): Handlers {
    var tables := TablesOf(hs, db);
    hs[db := if table in tables then tables else tables[table := h]]
  }

  function Removed(hs: Handlers, db: string, table: string): Handlers {
    if db !in hs then hs
    else
      var tables := hs[db] - {table};
      if tables == map[] then hs - {db} else hs[db := tables]
  }

  ghost predicate NoEmptyDb(hs: Handlers) {
    forall db | db in hs :: hs[db] != map[]
  }

  /** Registration and removal act on one name pair only; the first registration wins. */
  lemma FindRegistered(hs: Handlers, db: string, table: string, h: Handler)
    ensures forall d, t :: Find(Registered(hs, db, table, h), d, t) ==
                           if (d, t) == (db, table) && Find(hs, d, t) == None then Some(h) else Find(hs, d, t)
    ensures NoEmptyDb(hs) ==> NoEmptyDb(Registered(hs, db, table, h))
  {
    var hs' := Registered(hs, db, table, h);
    assert table in hs'[db];
  }

  lemma FindRemoved(hs: Handlers, db: string, table: string)
    ensures forall d, t :: Find(Removed(hs, db, table), d, t) == if (d, t) == (db, table) then None else Find(hs, d, t)
    ensures NoEmptyDb(hs) ==> NoEmptyDb(Removed(hs, db, table))
  {
    if db in hs {
      var tables := hs[db] - {table};
      assert tables == map[] ==> forall t | t in hs[db] :: t == table by {
        assert forall t | t in hs[db] && t != table :: t in tables;
      }
    }
  }

  // ---------- Every interleaving ----------

  /** A handler's life: built, registered by its constructor, removed by its destructor, gone. */
  datatype Life = Built | Listening | Leaving

  datatype Object = Object(db: string, table: string, life: Life)

  /** `Busy(h)`: dispatch holds the mutex and, when h is Some, is inside that handler. */
  datatype Mutex = Free | Busy(call: Option<Handler>)

  datatype State = State(handlers: Handlers, objects: map<Handler, Object>, mutex: Mutex)

  datatype Step =
    | Build(h: Handler, db: string, table: string)
    | Register(h: Handler)
    | Dispatch(db: string, table: string)
    | Return
    | Remove(h: Handler)
    | Die(h: Handler)

  ghost predicate Enabled(s: State, step: Step) {
    match step
    case Build(h, _, _) => h !in s.objects
    case Register(h) => h in s.objects && s.objects[h].life.Built? && s.mutex.Free?
    case Dispatch(_, _) => s.mutex.Free?
    case Return => s.mutex.Busy?
    case Remove(h) => h in s.objects && s.objects[h].life.Listening? && s.mutex.Free?
    case Die(h) => h in s.objects && s.objects[h].life.Leaving?
  }

  function Do(s: State, step: Step): State
    requires Enabled(s, step)
  {
    match step
    case Build(h, db, table) => s.(objects := s.objects[h := Object(db, table, Built)])
    case Register(h) =>
      var o := s.objects[h];
      s.(handlers := Registered(s.handlers, o.db, o.table, h), objects := s.objects[h := o.(life := Listening)])
    case Dispatch(db, table) => s.(mutex := Busy(Find(s.handlers, db, table)))
    case Return => s.(mutex := Free)
    case Remove(h) =>
      var o := s.objects[h];
      s.(handlers := Removed(s.handlers, o.db, o.table), objects := s.objects[h := o.(life := Leaving)])
    case Die(h) => s.(objects := s.objects - {h})
  }

  ghost predicate IsRun(s: State, steps: seq<Step>)
    decreases |steps|
  {
    steps == [] || (Enabled(s, steps[0]) && IsRun(Do(s, steps[0]), steps[1..]))
  }

  ghost function Run(s: State, steps: seq<Step>): State
    requires IsRun(s, steps)
    decreases |steps|
  {
    if steps == [] then s else Run(Do(s, steps[0]), steps[1..])
  }

  const Empty := State(map[], map[], Free)

  ghost predicate Listens(s: State, h: Handler) {
    h in s.objects && s.objects[h].life.Listening?
  }

  /** Every registered pointer is a living handler that has not begun to leave, under its own
      names; a running call is into such a handler; no database maps to an empty table map. */
  ghost predicate Inv(s: State) {
    && NoEmptyDb(s.handlers)
    && (forall db, table | Find(s.handlers, db, table).Some? ::
          var h := Find(s.handlers, db, table).value;
          Listens(s, h) && s.objects[h].db == db && s.objects[h].table == table)
    && (s.mutex.Busy? && s.mutex.call.Some? ==> Listens(s, s.mutex.call.value))
  }

  lemma DoInv(s: State, step: Step)
    requires Inv(s) && Enabled(s, step)
    ensures Inv(Do(s, step))
  {
    hide Find, Registered, Removed, NoEmptyDb;
    match step
    case Register(h) => FindRegistered(s.handlers, s.objects[h].db, s.objects[h].table, h);
    case Remove(h) => FindRemoved(s.handlers, s.objects[h].db, s.objects[h].table);
    case _ =>
  }

  /** Handler safety over every interleaving. */
  lemma {:induction false} RunInv(s: State, steps: seq<Step>)
    requires Inv(s) && IsRun(s, steps)
    ensures Inv(Run(s, steps))
    decreases |steps|
  {
    hide Inv, Do;
    if steps != [] {
      DoInv(s, steps[0]);
      RunInv(Do(s, steps[0]), steps[1..]);
    }
  }

  // ---------- Who can be reached ----------

  /** Every listening handler is the one its names lead to. */
  ghost predicate Reachable(s: State) {
    forall h | Listens(s, h) :: Find(s.handlers, s.objects[h].db, s.objects[h].table) == Some(h)
  }

  /** A registration finds no listening handler of the same names. */
  ghost predicate NamesFree(s: State, step: Step)
    requires Enabled(s, step)
  {
    step.Register? ==>
      forall g | Listens(s, g) :: (s.objects[g].db, s.objects[g].table) != (s.objects[step.h].db, s.objects[step.h].table)
  }

  lemma RegisterReachable(s: State, h: Handler)
    requires Inv(s) && Reachable(s) && Enabled(s, Register(h))
    ensures Reachable(Do(s, Register(h))) <==> NamesFree(s, Register(h))
  {
    hide Find, Registered, NoEmptyDb;
    var o, t := s.objects[h], Do(s, Register(h));
    FindRegistered(s.handlers, o.db, o.table, h);
    if !NamesFree(s, Register(h)) {
      var g :| Listens(s, g) && (s.objects[g].db, s.objects[g].table) == (o.db, o.table);
      assert Listens(t, h) && Find(t.handlers, o.db, o.table) == Some(g);
    } else {
      assert Find(s.handlers, o.db, o.table) == None;
      assert forall g | Listens(t, g) && g != h :: Listens(s, g);
    }
  }

  lemma RemoveReachable(s: State, h: Handler)
    requires Inv(s) && Reachable(s) && Enabled(s, Remove(h))
    ensures Reachable(Do(s, Remove(h)))
  {
    hide Find, Removed, NoEmptyDb;
    var t := Do(s, Remove(h));
    FindRemoved(s.handlers, s.objects[h].db, s.objects[h].table);
    assert Listens(s, h);
    assert forall g | Listens(t, g) :: Listens(s, g) && g != h;
  }

  /** A step keeps every listener reachable if and only if it is no registration under the names
      of a handler that is listening. */
  lemma ReachableExact(s: State, step: Step)
    requires Inv(s) && Reachable(s) && Enabled(s, step)
    ensures Reachable(Do(s, step)) <==> NamesFree(s, step)
  {
    match step
    case Register(h) => RegisterReachable(s, h);
    case Remove(h) => RemoveReachable(s, h);
    case _ =>
      hide Find;
      assert forall g | Listens(Do(s, step), g) :: Listens(s, g);
  }

  ghost predicate AlwaysReachable(s: State, steps: seq<Step>)
    requires IsRun(s, steps)
    decreases |steps|
  {
    Reachable(s) && (steps == [] || AlwaysReachable(Do(s, steps[0]), steps[1..]))
  }

  ghost predicate AlwaysFree(s: State, steps: seq<Step>)
    requires IsRun(s, steps)
    decreases |steps|
  {
    steps == [] || (NamesFree(s, steps[0]) && AlwaysFree(Do(s, steps[0]), steps[1..]))
  }

  lemma {:induction false} RunReachable(s: State, steps: seq<Step>)
    requires Inv(s) && Reachable(s) && IsRun(s, steps)
    ensures AlwaysReachable(s, steps) <==> AlwaysFree(s, steps)
    decreases |steps|
  {
    hide Inv, Reachable, Do, NamesFree;
    if steps != [] {
      DoInv(s, steps[0]);
      ReachableExact(s, steps[0]);
      var t := Do(s, steps[0]);
      if Reachable(t) {
        RunReachable(t, steps[1..]);
      }
    }
  }

  /** In every run every listener stays reachable throughout if and only if no handler registers
      under the names of one that is listening. */
  lemma StaysReachable(steps: seq<Step>)
    requires IsRun(Empty, steps)
    ensures Inv(Run(Empty, steps))
    ensures AlwaysReachable(Empty, steps) <==> AlwaysFree(Empty, steps)
  {
    RunInv(Empty, steps);
    RunReachable(Empty, steps);
  }

  /** Shared names deafen: the removal of a second handler takes the first one's entry. */
  lemma SharedNamesDeafen(db: string, table: string)
    ensures var steps := [Build(0, db, table), Register(0), Build(1, db, table), Register(1), Remove(1)];
            && IsRun(Empty, steps)
            && Listens(Run(Empty, steps), 0)
            && Find(Run(Empty, steps).handlers, db, table) == None
  {
    var steps := [Build(0, db, table), Register(0), Build(1, db, table), Register(1), Remove(1)];
    var s1 := Do(Empty, steps[0]);
    var s2 := Do(s1, Register(0));
    FindRegistered(s1.handlers, db, table, 0);
    var s3 := Do(s2, Build(1, db, table));
    var s4 := Do(s3, Register(1));
    var s5 := Do(s4, Remove(1));
    FindRemoved(s4.handlers, db, table);
    assert steps[1..] == [Register(0), Build(1, db, table), Register(1), Remove(1)];
    assert steps[1..][1..] == [Build(1, db, table), Register(1), Remove(1)];
    assert steps[1..][1..][1..] == [Register(1), Remove(1)];
    assert steps[1..][1..][1..][1..] == [Remove(1)];
    assert steps[1..][1..][1..][1..][1..] == [];
    assert Run(s5, []) == s5;
    assert IsRun(s4, [Remove(1)]) && Run(s4, [Remove(1)]) == s5;
    assert IsRun(s3, [Register(1), Remove(1)]) && Run(s3, [Register(1), Remove(1)]) == s5;
    assert IsRun(s2, steps[1..][1..]) && Run(s2, steps[1..][1..]) == s5;
    assert IsRun(s1, steps[1..]) && Run(s1, steps[1..]) == s5;
  }

  // ---------- The object ----------

  class ZmqHandlerRegistry {
    var handlers: Handlers

    constructor ()
      ensures handlers == map[]
    {
      handlers := map[];
    }

    method RegisterHandler(db: string, table: string, h: Handler)
      modifies this
      ensures handlers == Registered(old(handlers), db, table, h)
    {
      if db !in handlers {
        handlers := handlers[db := map[]];
      }
      if table !in handlers[db] {
        handlers := handlers[db := handlers[db][table := h]];
      }
    }

    method RemoveHandler(db: string, table: string)
      modifies this
      ensures handlers == Removed(old(handlers), db, table)
    {
      if db !in handlers {
        return;
      }
      handlers := handlers[db := handlers[db] - {table}];
      if handlers[db] == map[] {
        handlers := handlers - {db};
      }
    }

    method Dispatch(db: string, table: string) returns (h: Option<Handler>)
      ensures h == Find(handlers, db, table)
    {
      if db !in handlers {
        return None;
      }
      if table !in handlers[db] {
        return None;
      }
      h := Some(handlers[db][table]);
    }
  }
}

/** The one-to-one mode of ZmqServer: the polling thread receives a request into m_buffer and
    waits; another thread encodes the reply into the same buffer, sends it and lets go. */
module Handshake {
  import opened Tables
  import HandlerRegistry

  /** `Handling`: received, for a handler of these names; `Handed`: dispatch is over, the polling
      thread not yet waiting; `Dead`: it has thrown. */
  datatype Poller = Top | Polling | Receiving | Handling(db: string, table: string) | Handed | Waiting | Dead

  datatype Sender = Quiet | Encoding | Sending | Sent

  /** `requests`: handed over and not yet taken up by sendMsg. `failed`: a sendMsg has thrown.
      `dropped`: a request found no handler. */
  datatype State = State(poller: Poller, sender: Sender, allow: bool, handlers: HandlerRegistry.Handlers,
                         requests: nat, received: nat, replied: nat, failed: bool, dropped: bool)

  /** `ReceiveThrows`: an error of the socket or a message too long; `DecodeThrows`: a message that
      is not one. */
  datatype Step =
    | Register(db: string, table: string, h: HandlerRegistry.Handler) | Remove(db: string, table: string)
    | ClearAllow | PollTimeout | PollReady | ReceiveRetry | ReceiveThrows | ReceiveDone(db: string, table: string)
    | DecodeThrows | Dispatch | StartWaiting | Proceed
    | BeginSend | EncodeFail | Encoded | SendRetry | SendFail | SendDone | SetAllow

  ghost predicate Enabled(s: State, step: Step) {
    match step
    case Register(_, _, _) => true
    case Remove(_, _) => true
    case ClearAllow => s.poller.Top?
    case PollTimeout => s.poller.Polling?
    case PollReady => s.poller.Polling?
    case ReceiveRetry => s.poller.Receiving?
    case ReceiveThrows => s.poller.Receiving?
    case ReceiveDone(_, _) => s.poller.Receiving?
    case DecodeThrows => s.poller.Handling?
    case Dispatch => s.poller.Handling?
    case StartWaiting => s.poller.Handed?
    case Proceed => s.poller.Waiting? && s.allow
    case BeginSend => s.sender.Quiet? && s.requests > 0
    case EncodeFail => s.sender.Encoding?
    case Encoded => s.sender.Encoding?
    case SendRetry => s.sender.Sending?
    case SendFail => s.sender.Sending?
    case SendDone => s.sender.Sending?
    case SetAllow => s.sender.Sent?
  }

  /** dispatch returns silently when no handler is registered for the names. */
  function Dispatched(s: State): State
    requires s.poller.Handling?
  {
    if HandlerRegistry.Find(s.handlers, s.poller.db, s.poller.table).Some?
    then s.(poller := Handed, requests := s.requests + 1)
    else s.(poller := Handed, dropped := true)
  }

  function Do(s: State, step: Step): State
    requires Enabled(s, step)
  {
    match step
    case Register(db, table, h) => s.(handlers := HandlerRegistry.Registered(s.handlers, db, table, h))
    case Remove(db, table) => s.(handlers := HandlerRegistry.Removed(s.handlers, db, table))
    case ClearAllow => s.(poller := Polling, allow := false)
    case PollTimeout => s.(poller := Top)
    case PollReady => s.(poller := Receiving)
    case ReceiveRetry => s.(poller := Top)
    case ReceiveThrows => s.(poller := Dead)
    case ReceiveDone(db, table) => s.(poller := Handling(db, table), received := s.received + 1)
    case DecodeThrows => s.(poller := Dead)
    case Dispatch => Dispatched(s)
    case StartWaiting => s.(poller := Waiting)
    case Proceed => s.(poller := Top)
    case BeginSend => s.(sender := Encoding, requests := s.requests - 1)
    case EncodeFail => s.(sender := Quiet, failed := true)
    case Encoded => s.(sender := Sending)
    case SendRetry => s
    case SendFail => s.(sender := Quiet, failed := true)
    case SendDone => s.(sender := Sent, replied := s.replied + 1)
    case SetAllow => s.(sender := Quiet, allow := true)
  }

  ghost predicate IsRun(s: State, steps: seq<Step>)
    decreases |steps|
  {
    steps == [] || (Enabled(s, steps[0]) && IsRun(Do(s, steps[0]), steps[1..]))
  }

  ghost function Run(s: State, steps: seq<Step>): State
    requires IsRun(s, steps)
    decreases |steps|
  {
    if steps == [] then s else Run(Do(s, steps[0]), steps[1..])
  }

  const Initial := State(Top, Quiet, true, map[], 0, 0, 0, false, false)

  ghost predicate Idle(s: State) {
    s.sender.Quiet? && s.requests == 0 && !s.failed && !s.dropped
  }

  /** While the polling thread is not yet or no longer waiting nothing is outstanding; then the
      request is with the application, with the sender, answered, lost with a failed send, or it
      never had a handler. */
  ghost predicate Inv(s: State) {
    if s.poller.Top? then Idle(s) && s.received == s.replied
    else if s.poller.Polling? || s.poller.Receiving? then Idle(s) && s.received == s.replied && !s.allow
    else if s.poller.Handling? then Idle(s) && s.received == s.replied + 1 && !s.allow
    else if s.poller.Dead? then Idle(s) && !s.allow && s.replied <= s.received <= s.replied + 1
    else if s.sender.Quiet? then
      if s.allow then Idle(s) && s.received == s.replied
      else s.requests == (if s.failed || s.dropped then 0 else 1) && s.received == s.replied + 1
    else !s.allow && s.requests == 0 && !s.failed && !s.dropped && s.received == s.replied + if s.sender.Sent? then 0 else 1
  }

  lemma DoInv(s: State, step: Step)
    requires Inv(s) && Enabled(s, step)
    ensures Inv(Do(s, step))
  {
    hide HandlerRegistry.Find, HandlerRegistry.Registered, HandlerRegistry.Removed;
  }

  lemma {:induction false} RunInv(s: State, steps: seq<Step>)
    requires Inv(s) && IsRun(s, steps)
    ensures Inv(Run(s, steps))
    decreases |steps|
  {
    hide Inv, Do;
    if steps != [] {
      DoInv(s, steps[0]);
      RunInv(Do(s, steps[0]), steps[1..]);
    }
  }

  /** Neither thread can go on, whatever is registered or removed. */
  ghost predicate Stuck(s: State) {
    forall step | Enabled(s, step) :: step.Register? || step.Remove?
  }

  /** In every interleaving: a request is received only after the previous one was answered;
      the buffer is never written from both sides, nor read by the decoder while the reply is
      written; and the pair stops for good if and only if the polling thread has thrown, or waits
      for the answer to a request whose send failed or for which there was no handler. */
  lemma OneToOne(steps: seq<Step>)
    requires IsRun(Initial, steps)
    ensures var s := Run(Initial, steps);
            && s.replied <= s.received <= s.replied + 1
            && (s.poller.Receiving? ==> s.received == s.replied)
            && (s.sender.Encoding? || s.sender.Sending? ==> !s.poller.Receiving? && !s.poller.Handling?)
            && (Stuck(s) <==> s.poller.Dead? || ((s.failed || s.dropped) && s.poller.Waiting?))
  {
    RunInv(Initial, steps);
    var s := Run(Initial, steps);
    if !(s.poller.Dead? || ((s.failed || s.dropped) && s.poller.Waiting?)) {
      var step := if s.poller.Top? then ClearAllow
                  else if s.poller.Polling? then PollReady
                  else if s.poller.Receiving? then ReceiveRetry
                  else if s.poller.Handling? then Dispatch
                  else if s.poller.Handed? then StartWaiting
                  else if s.allow then Proceed
                  else if s.sender.Quiet? then BeginSend
                  else if s.sender.Encoding? then Encoded
                  else if s.sender.Sending? then SendDone
                  else SetAllow;
      assert Enabled(s, step);
    }
  }

  // ---------- Requests without a handler ----------

  /** A request that meets no handler stops the pair for good, with no send having failed: from every
      state in which the polling thread is about to receive. */
  lemma NoHandlerStops(s: State, db: string, table: string)
    requires Inv(s) && s.poller.Receiving? && HandlerRegistry.Find(s.handlers, db, table) == None
    ensures var steps := [ReceiveDone(db, table), Dispatch, StartWaiting];
            IsRun(s, steps) && Stuck(Run(s, steps)) && !Run(s, steps).failed
  {
    var a, b, c := ReceiveDone(db, table), Dispatch, StartWaiting;
    var s1 := Do(s, a);
    var s2 := Do(s1, b);
    var s3 := Do(s2, c);
    assert [a, b, c][1..] == [b, c] && [b, c][1..] == [c] && [c][1..] == [];
    assert IsRun(s3, []) && Run(s3, []) == s3;
    assert IsRun(s2, [c]) && Run(s2, [c]) == s3;
    assert IsRun(s1, [b, c]) && Run(s1, [b, c]) == s3;
  }

  /** The request being dispatched has a handler, and nothing throws. */
  ghost predicate Served(s: State, step: Step) {
    match step
    case Dispatch => s.poller.Handling? && HandlerRegistry.Find(s.handlers, s.poller.db, s.poller.table).Some?
    case ReceiveThrows => false
    case DecodeThrows => false
    case EncodeFail => false
    case SendFail => false
    case _ => true
  }

  ghost predicate AlwaysServed(s: State, steps: seq<Step>)
    requires IsRun(s, steps)
    decreases |steps|
  {
    steps == [] || (Served(s, steps[0]) && AlwaysServed(Do(s, steps[0]), steps[1..]))
  }

  ghost predicate Sound(s: State) { !s.failed && !s.dropped && !s.poller.Dead? }

  /** Once something has gone wrong no further request is received and no further reply sent. */
  lemma {:induction false} NothingMore(s: State, steps: seq<Step>)
    requires IsRun(s, steps) && Inv(s) && !Sound(s)
    ensures var t := Run(s, steps); !Sound(t) && t.received == s.received && t.replied == s.replied
    decreases |steps|
  {
    if steps != [] {
      hide HandlerRegistry.Find, HandlerRegistry.Registered, HandlerRegistry.Removed;
      DoInv(s, steps[0]);
      NothingMore(Do(s, steps[0]), steps[1..]);
    }
  }

  lemma {:induction false} SoundExact(s: State, steps: seq<Step>)
    requires IsRun(s, steps) && Inv(s) && Sound(s)
    ensures Sound(Run(s, steps)) <==> AlwaysServed(s, steps)
    decreases |steps|
  {
    if steps != [] {
      hide HandlerRegistry.Find, HandlerRegistry.Registered, HandlerRegistry.Removed;
      var t := Do(s, steps[0]);
      DoInv(s, steps[0]);
      assert Sound(t) <==> Served(s, steps[0]);
      if Sound(t) {
        SoundExact(t, steps[1..]);
      } else {
        NothingMore(t, steps[1..]);
      }
    }
  }

  /** In every run nothing has gone wrong, and the pair can go on, if and only if every request found
      a handler when it was dispatched and nothing threw. */
  lemma GoesOnExact(steps: seq<Step>)
    requires IsRun(Initial, steps)
    ensures Sound(Run(Initial, steps)) <==> AlwaysServed(Initial, steps)
    ensures AlwaysServed(Initial, steps) ==> !Stuck(Run(Initial, steps))
  {
    SoundExact(Initial, steps);
    OneToOne(steps);
  }
}
