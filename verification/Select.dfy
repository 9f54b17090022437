/** Select over RedisSelect objects: a ready set ordered by priority and then by how long ago an
    object was last used, and a count of unread notifications per object. */
module Select {
  import opened Tables

  /** A file descriptor. */
  type Fd = nat

  /** A point of the steady clock. Between any two there is room for a third, so that objects may be
      made at any moment, also while a select runs. */
  type Time = real

  /** A RedisSelect. `initial`, `read` and `returned` record where the queue length started, the
      notifications read and the times selected. */
  datatype Sel = Sel(pri: int, lastUsed: Time, queueLength: int, initial: int, read: nat, returned: nat)

  function HasData(o: Sel): bool { o.queueLength > 0 }
  function HasCachedData(o: Sel): bool { o.queueLength > 1 }

  /** Select::cmp */
  predicate Before(a: Sel, b: Sel) {
    if a.pri > b.pri then true
    else if a.pri < b.pri then false
    else a.lastUsed < b.lastUsed
  }

  /** `objects` by file descriptor; `ready` is m_ready in its order, begin() first; `clock` is the
      next reading of the steady clock. */
  datatype State = State(objects: map<Fd, Sel>, ready: seq<Fd>, clock: Time)

  ghost predicate Known(objects: map<Fd, Sel>, fds: seq<Fd>) {
    forall i | 0 <= i < |fds| :: fds[i] in objects
  }

  ghost predicate Sorted(objects: map<Fd, Sel>, fds: seq<Fd>) {
    && Known(objects, fds)
    && forall i, j | 0 <= i < j < |fds| :: Before(objects[fds[i]], objects[fds[j]])
  }

  /** std::set::insert: in its place, unless an equivalent element is there. */
  function Insert(objects: map<Fd, Sel>, ready: seq<Fd>, fd: Fd): (r: seq<Fd>)
    requires Known(objects, ready) && fd in objects
    ensures Known(objects, r)
  {
    if ready == [] then [fd]
    else if Before(objects[fd], objects[ready[0]]) then [fd] + ready
    else if Before(objects[ready[0]], objects[fd]) then [ready[0]] + Insert(objects, ready[1..], fd)
    else ready
  }

  /** Neither comes first for `cmp`: to a std::set they are one element. */
  predicate Equivalent(a: Sel, b: Sel) { a.pri == b.pri && a.lastUsed == b.lastUsed }

  /** std::set::erase: the element equivalent to `o`, whichever it is. */
  function Erase(objects: map<Fd, Sel>, ready: seq<Fd>, o: Sel): (r: seq<Fd>)
    requires Known(objects, ready)
    ensures Known(objects, r)
  {
    if ready == [] then []
    else if Equivalent(objects[ready[0]], o) then ready[1..]
    else [ready[0]] + Erase(objects, ready[1..], o)
  }

  // ---------- Reading notifications ----------

  function Notified(o: Sel, n: nat): Sel { o.(queueLength := o.queueLength + n, read := o.read + n) }

  function ReadOne(s: State, fd: Fd, n: nat): (t: State)
    requires fd in s.objects && Known(s.objects, s.ready)
    ensures Known(t.objects, t.ready)
  {
    var objects := s.objects[fd := Notified(s.objects[fd], n)];
    s.(objects := objects, ready := Insert(objects, s.ready, fd))
  }

  ghost predicate Events(s: State, events: seq<(Fd, nat)>) {
    forall e | e in events :: e.0 in s.objects && e.1 >= 1
  }

  function ReadAll(s: State, events: seq<(Fd, nat)>): (t: State)
    requires Known(s.objects, s.ready) && Events(s, events)
    ensures Known(t.objects, t.ready) && t.objects.Keys == s.objects.Keys && t.clock == s.clock
    decreases |events|
  {
    if events == [] then s
    else
      var s1 := ReadOne(s, events[0].0, events[0].1);
      assert forall e | e in events[1..] :: e in events;
      ReadAll(s1, events[1..])
  }

  // ---------- Taking an object ----------

  /** Times lie in the past; the ready set is in order. */
  ghost predicate Valid(s: State): (valid: bool)
    ensures valid ==> Known(s.objects, s.ready)
  {
    && Sorted(s.objects, s.ready)
    && (forall g | g in s.objects :: s.objects[g].lastUsed < s.clock)
  }

  /** The object leaves the ready set before its clock is touched. */
  function Touch(s: State): (t: State)
    requires Known(s.objects, s.ready) && s.ready != []
    ensures Known(t.objects, t.ready)
  {
    var fd := s.ready[0];
    assert forall g | g in s.ready[1..] :: g in s.ready;
    State(s.objects[fd := s.objects[fd].(lastUsed := s.clock)], s.ready[1..], s.clock + 1.0)
  }

  /** Selected: back into the ready set if more is cached, and one notification used up. */
  function Select1(s: State, fd: Fd): (t: State)
    requires fd in s.objects && Known(s.objects, s.ready)
    ensures Known(t.objects, t.ready) && t.objects.Keys == s.objects.Keys
  {
    var o := s.objects[fd];
    var ready := if HasCachedData(o) then Insert(s.objects, s.ready, fd) else s.ready;
    s.(ready := ready, objects := s.objects[fd := o.(queueLength := o.queueLength - 1, returned := o.returned + 1)])
  }

  datatype Taken = Taken(state: State, result: Option<Fd>)

  function Take(s: State): (t: Taken)
    requires Known(s.objects, s.ready)
    ensures Known(t.state.objects, t.state.ready) && t.state.objects.Keys == s.objects.Keys
    decreases |s.ready|
  {
    if s.ready == [] then Taken(s, None)
    else
      var fd := s.ready[0];
      if HasData(s.objects[fd]) then Taken(Select1(Touch(s), fd), Some(fd)) else Take(Touch(s))
  }

  function Poll(s: State, events: seq<(Fd, nat)>): (t: Taken)
    requires Known(s.objects, s.ready) && Events(s, events)
    ensures Known(t.state.objects, t.state.ready) && t.state.objects.Keys == s.objects.Keys
  {
    Take(ReadAll(s, events))
  }

  // ---------- The ordered set ----------

  /** No other ready object has the priority and the time of fd. */
  ghost predicate Free(objects: map<Fd, Sel>, ready: seq<Fd>, fd: Fd)
    requires Known(objects, ready) && fd in objects
  {
    forall g | g in ready && g != fd :: !Equivalent(objects[g], objects[fd])
  }

  lemma SortedFirst(objects: map<Fd, Sel>, first: Fd, rest: seq<Fd>)
    ensures Sorted(objects, [first] + rest) <==>
            first in objects && Sorted(objects, rest) && forall g | g in rest :: g in objects && Before(objects[first], objects[g])
  {
    var all := [first] + rest;
    assert all[0] == first && forall i | 0 <= i < |rest| :: rest[i] == all[i + 1];
    if Sorted(objects, all) {
      forall g | g in rest
        ensures g in objects && Before(objects[first], objects[g])
      {
        var i :| 0 <= i < |rest| && rest[i] == g;
        assert Before(objects[all[0]], objects[all[i + 1]]);
      }
    }
    if first in objects && Sorted(objects, rest) && forall g | g in rest :: g in objects && Before(objects[first], objects[g]) {
      forall i, j | 0 <= i < j < |all|
        ensures all[i] in objects && all[j] in objects && Before(objects[all[i]], objects[all[j]])
      {
        assert all[j] == rest[j - 1] && rest[j - 1] in rest;
      }
    }
  }

  lemma SortedNothing(objects: map<Fd, Sel>)
    ensures Sorted(objects, [])
  {
  }

  /** An insertion keeps the order and the other elements, and its object is in the set afterwards
      if and only if no other element has its priority and time. */
  lemma {:induction false} InsertExact(objects: map<Fd, Sel>, ready: seq<Fd>, fd: Fd)
    requires Sorted(objects, ready) && fd in objects
    ensures var r := Insert(objects, ready, fd);
            && Sorted(objects, r)
            && (forall g | g != fd :: g in r <==> g in ready)
            && (fd in r <==> Free(objects, ready, fd))
    ensures fd in ready ==> Free(objects, ready, fd)
    decreases |ready|
  {
    hide Sorted;
    SortedKnown(objects, ready);
    if ready == [] {
      SortedNothing(objects);
      SortedFirst(objects, fd, []);
      assert [fd] + [] == [fd];
    } else {
      var first, rest := ready[0], ready[1..];
      assert ready == [first] + rest;
      SortedFirst(objects, first, rest);
      if Before(objects[fd], objects[first]) {
        SortedFirst(objects, fd, ready);
      } else if Before(objects[first], objects[fd]) {
        InsertExact(objects, rest, fd);
        SortedFirst(objects, first, Insert(objects, rest, fd));
      }
    }
  }

  lemma SortedKnown(objects: map<Fd, Sel>, ready: seq<Fd>)
    requires Sorted(objects, ready)
    ensures Known(objects, ready) && forall g | g in ready :: g in objects
  {
  }

  /** An erasure takes out exactly what has the priority and time of `o`. */
  lemma {:induction false} EraseExact(objects: map<Fd, Sel>, ready: seq<Fd>, o: Sel)
    requires Sorted(objects, ready)
    ensures Known(objects, ready)
    ensures var r := Erase(objects, ready, o);
            && Sorted(objects, r)
            && forall g :: g in r <==> g in ready && !Equivalent(objects[g], o)
    decreases |ready|
  {
    hide Sorted;
    SortedKnown(objects, ready);
    if ready != [] {
      var first, rest := ready[0], ready[1..];
      assert ready == [first] + rest;
      SortedFirst(objects, first, rest);
      EraseExact(objects, rest, o);
      SortedFirst(objects, first, Erase(objects, rest, o));
    }
  }

  /** Sortedness looks at priorities and times only. */
  lemma SameOrder(a: map<Fd, Sel>, b: map<Fd, Sel>, ready: seq<Fd>)
    requires Sorted(a, ready) && Known(b, ready)
    requires forall g | g in ready :: b[g].pri == a[g].pri && b[g].lastUsed == a[g].lastUsed
    ensures Sorted(b, ready)
  {
  }

  ghost predicate SameTimes(s: State, t: State) {
    && t.objects.Keys == s.objects.Keys && t.clock == s.clock
    && forall g | g in s.objects :: t.objects[g].pri == s.objects[g].pri && t.objects[g].lastUsed == s.objects[g].lastUsed
  }

  lemma ReadOneValid(s: State, fd: Fd, n: nat)
    requires Valid(s) && fd in s.objects
    ensures var t := ReadOne(s, fd, n);
            && Valid(t) && SameTimes(s, t)
            && (forall g | g != fd :: g in t.ready <==> g in s.ready)
            && (fd in t.ready <==> Free(s.objects, s.ready, fd)) && (fd in s.ready ==> fd in t.ready)
            && t.objects == s.objects[fd := Notified(s.objects[fd], n)]
  {
    var objects := s.objects[fd := Notified(s.objects[fd], n)];
    SameOrder(s.objects, objects, s.ready);
    InsertExact(objects, s.ready, fd);
  }

  lemma {:induction false} ReadAllValid(s: State, events: seq<(Fd, nat)>)
    requires Valid(s) && Events(s, events)
    ensures Valid(ReadAll(s, events)) && SameTimes(s, ReadAll(s, events))
    ensures forall g | g in s.ready :: g in ReadAll(s, events).ready
    decreases |events|
  {
    if events != [] {
      hide ReadOne, Valid;
      var (fd, n) := events[0];
      ReadOneValid(s, fd, n);
      assert forall e | e in events[1..] :: e in events;
      ReadAllValid(ReadOne(s, fd, n), events[1..]);
    }
  }

  // ---------- The order of selection ----------

  /** Taking begin() out: everything behind it comes later in the order. */
  lemma TouchValid(s: State)
    requires Valid(s) && s.ready != []
    ensures var fd := s.ready[0];
            && Valid(Touch(s)) && fd !in Touch(s).ready && |Touch(s).ready| < |s.ready|
            && Touch(s).objects.Keys == s.objects.Keys && Touch(s).clock == s.clock + 1.0
            && s.objects[fd].lastUsed < s.clock && Touch(s).objects[fd] == s.objects[fd].(lastUsed := s.clock)
            && (forall g :: g in s.ready <==> g in Touch(s).ready || g == fd)
            && (forall g | g in Touch(s).ready :: Before(s.objects[fd], s.objects[g]))
            && (forall g | g in s.objects && g != fd :: Touch(s).objects[g] == s.objects[g])
            && Newest(Touch(s), fd)
  {
    hide Sorted;
    var fd, rest := s.ready[0], s.ready[1..];
    assert s.ready == [fd] + rest;
    SortedFirst(s.objects, fd, rest);
    SortedKnown(s.objects, rest);
    SameOrder(s.objects, Touch(s).objects, rest);
  }

  /** Nothing else was used as recently. */
  ghost predicate Newest(s: State, fd: Fd) {
    fd in s.objects && forall g | g in s.objects && g != fd :: s.objects[g].lastUsed < s.objects[fd].lastUsed
  }

  lemma Select1Valid(s: State, fd: Fd)
    requires Valid(s) && Newest(s, fd) && fd !in s.ready
    ensures var t := Select1(s, fd);
            && Valid(t) && SameTimes(s, t)
            && (forall g :: g in t.ready <==> g in s.ready || (g == fd && HasCachedData(s.objects[fd])))
            && (forall g | g in s.objects && g != fd :: t.objects[g] == s.objects[g])
            && t.objects[fd] == s.objects[fd].(queueLength := s.objects[fd].queueLength - 1, returned := s.objects[fd].returned + 1)
  {
    InsertExact(s.objects, s.ready, fd);
    var t := Select1(s, fd);
    SameOrder(s.objects, t.objects, t.ready);
  }

  /** What one pass over the ready set does: it returns the first object in the order of `cmp`
      that has data (none exactly when no ready object has); those before it had no data and are
      out of the ready set; those behind it are untouched. */
  lemma {:induction false} TakeOrder(s: State)
    requires Valid(s)
    ensures var t := Take(s);
            && Valid(t.state) && t.state.objects.Keys == s.objects.Keys && t.state.clock >= s.clock
            && (t.result == None ==> t.state.ready == [] && forall g | g in s.ready :: !HasData(s.objects[g]))
            && (t.result.Some? ==>
                  var fd := t.result.value;
                  && fd in s.ready && HasData(s.objects[fd])
                  && (forall g | g in s.ready && g != fd && HasData(s.objects[g]) :: Before(s.objects[fd], s.objects[g]))
                  && (forall g | g != fd :: g in t.state.ready <==> g in s.ready && Before(s.objects[fd], s.objects[g]))
                  && (fd in t.state.ready <==> HasCachedData(s.objects[fd])))
    decreases |s.ready|
  {
    hide Touch, Select1, Valid, Newest;
    if s.ready != [] {
      var fd := s.ready[0];
      TouchValid(s);
      if HasData(s.objects[fd]) {
        Select1Valid(Touch(s), fd);
      } else {
        TakeOrder(Touch(s));
      }
    }
  }

  // ---------- Bounded waiting ----------

  /** An object's time changes exactly when the pass takes it out of the ready set. */
  lemma {:induction false} TakeTimes(s: State)
    requires Valid(s)
    ensures var t := Take(s);
            && t.state.objects.Keys == s.objects.Keys
            && (forall g | g in s.objects ::
                  && t.state.objects[g].pri == s.objects[g].pri
                  && (t.state.objects[g] == s.objects[g] || t.state.objects[g].lastUsed >= s.clock)
                  && (t.state.objects[g].lastUsed == s.objects[g].lastUsed && g in s.ready ==> g in t.state.ready))
            && (t.result.Some? ==> t.result.value in s.objects && t.state.objects[t.result.value].lastUsed >= s.clock)
    decreases |s.ready|
  {
    hide Touch, Select1, Valid, Newest;
    if s.ready != [] {
      TouchValid(s);
      if HasData(s.objects[s.ready[0]]) {
        Select1Valid(Touch(s), s.ready[0]);
      } else {
        TakeTimes(Touch(s));
      }
    }
  }

  /** Objects of x's priority that were used longer ago. */
  ghost function Older(s: State, x: Fd): set<Fd>
    requires x in s.objects
  {
    set g | g in s.objects && s.objects[g].pri == s.objects[x].pri && s.objects[g].lastUsed < s.objects[x].lastUsed
  }

  ghost function Peers(s: State, x: Fd): set<Fd>
    requires x in s.objects
  {
    set g | g in s.objects && s.objects[g].pri == s.objects[x].pri
  }

  lemma SmallerSet(a: set<Fd>, b: set<Fd>, x: Fd)
    requires a <= b && x in b && x !in a
    ensures |a| < |b|
  {
    assert a <= b - {x};
    var c := b - {x};
    assert |c - a| == |c| - |a|;
  }

  lemma OlderShrinks(s: State, t: State, x: Fd, fd: Fd)
    requires x in s.objects && fd in s.objects && t.objects.Keys == s.objects.Keys
    requires forall g | g in s.objects :: t.objects[g].pri == s.objects[g].pri && t.objects[g].lastUsed >= s.objects[g].lastUsed
    requires t.objects[x].lastUsed == s.objects[x].lastUsed <= t.objects[fd].lastUsed
    requires fd in Older(s, x)
    ensures |Older(t, x)| < |Older(s, x)|
  {
    SmallerSet(Older(t, x), Older(s, x), fd);
  }

  /** A select that returns an object of no higher priority and leaves x waiting shortens the list
      of those ahead of it. */
  lemma PollProgress(s: State, events: seq<(Fd, nat)>, x: Fd)
    requires Valid(s) && Events(s, events) && x in s.ready
    requires Poll(s, events).result.Some?
    requires Poll(s, events).result.value in s.objects
    requires s.objects[Poll(s, events).result.value].pri <= s.objects[x].pri
    ensures var t := Poll(s, events).state;
            && Valid(t) && t.objects.Keys == s.objects.Keys
            && (forall g | g in s.objects :: t.objects[g].pri == s.objects[g].pri && t.objects[g].lastUsed >= s.objects[g].lastUsed)
            && (t.objects[x].lastUsed > s.objects[x].lastUsed
                || (x in t.ready && t.objects[x].lastUsed == s.objects[x].lastUsed && |Older(t, x)| < |Older(s, x)|))
  {
    hide Take, ReadAll, Older;
    ReadAllValid(s, events);
    var r := ReadAll(s, events);
    TakeOrder(r);
    TakeTimes(r);
    var t := Take(r).state;
    var fd := Take(r).result.value;
    if t.objects[x].lastUsed == s.objects[x].lastUsed {
      assert x in t.ready && x != fd;
      assert Before(r.objects[fd], r.objects[x]);
      InOlder(s, x, fd);
      OlderShrinks(s, t, x, fd);
    }
  }

  lemma InOlder(s: State, x: Fd, fd: Fd)
    requires x in s.objects && fd in s.objects && s.objects[fd].pri == s.objects[x].pri
    requires s.objects[fd].lastUsed < s.objects[x].lastUsed
    ensures fd in Older(s, x)
  {
  }

  /** Every poll returns an object, none of a priority above `pri`. */
  ghost predicate NoneAbove(s: State, polls: seq<seq<(Fd, nat)>>, pri: int)
    decreases |polls|
  {
    polls == [] ||
    (&& Valid(s) && Events(s, polls[0])
     && Poll(s, polls[0]).result.Some?
     && Poll(s, polls[0]).result.value in s.objects
     && s.objects[Poll(s, polls[0]).result.value].pri <= pri
     && NoneAbove(Poll(s, polls[0]).state, polls[1..], pri))
  }

  ghost function PollAll(s: State, polls: seq<seq<(Fd, nat)>>, pri: int): State
    requires NoneAbove(s, polls, pri)
    decreases |polls|
  {
    if polls == [] then s else PollAll(Poll(s, polls[0]).state, polls[1..], pri)
  }

  lemma {:induction false} TimesGrow(s: State, polls: seq<seq<(Fd, nat)>>, pri: int, x: Fd)
    requires Valid(s) && x in s.objects && NoneAbove(s, polls, pri)
    ensures x in PollAll(s, polls, pri).objects
    ensures PollAll(s, polls, pri).objects[x].lastUsed >= s.objects[x].lastUsed
    decreases |polls|
  {
    hide Take, ReadAll;
    if polls != [] {
      ReadAllValid(s, polls[0]);
      TakeOrder(ReadAll(s, polls[0]));
      TakeTimes(ReadAll(s, polls[0]));
      TimesGrow(Poll(s, polls[0]).state, polls[1..], pri, x);
    }
  }

  lemma {:induction false} WaitingIsBounded(s: State, polls: seq<seq<(Fd, nat)>>, x: Fd)
    requires Valid(s) && x in s.ready && NoneAbove(s, polls, s.objects[x].pri)
    requires |polls| > |Older(s, x)|
    ensures var t := PollAll(s, polls, s.objects[x].pri);
            x in t.objects && t.objects[x].lastUsed > s.objects[x].lastUsed
    decreases |polls|
  {
    hide Poll, Older;
    PollProgress(s, polls[0], x);
    var t := Poll(s, polls[0]).state;
    if t.objects[x].lastUsed > s.objects[x].lastUsed {
      TimesGrow(t, polls[1..], s.objects[x].pri, x);
    } else {
      WaitingIsBounded(t, polls[1..], x);
    }
  }

  /** Bounded waiting: among n objects of one priority, with nothing of a higher priority being
      returned, a ready object is returned or found empty within n object-returning selects. */
  lemma BoundedWaiting(s: State, polls: seq<seq<(Fd, nat)>>, x: Fd)
    requires Valid(s) && x in s.ready && NoneAbove(s, polls, s.objects[x].pri)
    requires |polls| >= |Peers(s, x)|
    ensures var t := PollAll(s, polls, s.objects[x].pri);
            x in t.objects && t.objects[x].lastUsed > s.objects[x].lastUsed
  {
    SmallerSet(Older(s, x), Peers(s, x), x);
    WaitingIsBounded(s, polls, x);
  }

  // ---------- Conservation of notifications ----------

  /** readData threw after m notifications: they are counted, and the object stays where it was. */
  function ReadFailed(s: State, fd: Fd, m: nat): State
    requires fd in s.objects
  {
    s.(objects := s.objects[fd := Notified(s.objects[fd], m)])
  }

  /** One poll: the reported reads, and then the pass over the ready set or a failing read. */
  datatype Reports = Reports(events: seq<(Fd, nat)>, failure: Option<(Fd, nat)>)

  ghost predicate Readable(s: State, reports: Reports) {
    Events(s, reports.events) && (reports.failure.Some? ==> reports.failure.value.0 in s.objects)
  }

  function Polled(s: State, reports: Reports): (t: Taken)
    requires Known(s.objects, s.ready) && Readable(s, reports)
    ensures Known(t.state.objects, t.state.ready) && t.state.objects.Keys == s.objects.Keys
  {
    if reports.failure.Some? then
      Taken(ReadFailed(ReadAll(s, reports.events), reports.failure.value.0, reports.failure.value.1), None)
    else Poll(s, reports.events)
  }

  /** `queueLength` set before the object is added, as ConsumerStateTable does. Removal is given
      the object itself. `Tick`: time passes. */
  datatype Op =
    | Add(fd: Fd, pri: int, lastUsed: Time, queueLength: int)
    | Remove(fd: Fd, o: Sel)
    | PollOp(reports: Reports)
    | Tick(dt: Time)

  function Fresh(pri: int, lastUsed: Time, queueLength: int): Sel {
    Sel(pri, lastUsed, queueLength, queueLength, 0, 0)
  }

  /** addSelectable ignores a descriptor it knows. */
  function Added(s: State, fd: Fd, o: Sel): State
    requires Known(s.objects, s.ready)
  {
    if fd in s.objects then s
    else
      var objects := s.objects[fd := o];
      s.(objects := objects, ready := if HasData(o) then Insert(objects, s.ready, fd) else s.ready)
  }

  function Removed(s: State, fd: Fd, o: Sel): State
    requires Known(s.objects, s.ready)
  {
    s.(objects := s.objects - {fd}, ready := Erase(s.objects, s.ready, o))
  }

  ghost predicate Enabled(s: State, op: Op) {
    match op
    case Add(_, _, lastUsed, _) => lastUsed < s.clock
    case Remove(fd, o) => fd in s.objects ==> o == s.objects[fd]
    case PollOp(reports) => Readable(s, reports)
    case Tick(dt) => dt >= 0.0
  }

  function Step(s: State, op: Op): State
    requires Known(s.objects, s.ready) && Enabled(s, op)
  {
    match op
    case Add(fd, pri, lastUsed, queueLength) => Added(s, fd, Fresh(pri, lastUsed, queueLength))
    case Remove(fd, o) => Removed(s, fd, o)
    case PollOp(reports) => Polled(s, reports).state
    case Tick(dt) => s.(clock := s.clock + dt)
  }

  /** Times returned, plus what is left, is the initial length plus what was read; and with a
      non-negative initial length the object is ready only while it has data. */
  ghost predicate Counted(o: Sel, ready: bool) {
    && o.returned == o.initial + o.read - o.queueLength
    && (o.initial >= 0 ==> o.queueLength >= 0 && (ready ==> HasData(o)))
  }

  ghost predicate Inv(s: State) {
    Valid(s) && forall g | g in s.objects :: Counted(s.objects[g], g in s.ready)
  }

  /** While it has unread notifications an object is in the ready set. */
  ghost predicate Ready(s: State) {
    forall g | g in s.objects && HasData(s.objects[g]) :: g in s.ready
  }

  lemma {:induction false} ReadAllInv(s: State, events: seq<(Fd, nat)>)
    requires Inv(s) && Events(s, events)
    ensures Inv(ReadAll(s, events))
    decreases |events|
  {
    if events != [] {
      hide ReadOne, Valid, Free;
      var (fd, n) := events[0];
      assert events[0] in events;
      ReadOneValid(s, fd, n);
      assert forall e | e in events[1..] :: e in events;
      ReadAllInv(ReadOne(s, fd, n), events[1..]);
    }
  }

  lemma {:induction false} TakeInv(s: State)
    requires Inv(s)
    ensures Inv(Take(s).state)
    decreases |s.ready|
  {
    hide Touch, Select1, Valid, Newest;
    if s.ready != [] {
      TouchValid(s);
      if HasData(s.objects[s.ready[0]]) {
        Select1Valid(Touch(s), s.ready[0]);
      } else {
        TakeInv(Touch(s));
      }
    }
  }

  lemma AddedValid(s: State, fd: Fd, o: Sel)
    requires Valid(s) && fd !in s.objects && o.lastUsed < s.clock
    ensures var t := Added(s, fd, o);
            && Valid(t) && t.objects == s.objects[fd := o]
            && (forall g | g != fd :: g in t.ready <==> g in s.ready)
            && (fd in t.ready <==> HasData(o) && Free(s.objects[fd := o], s.ready, fd))
  {
    var objects := s.objects[fd := o];
    SameOrder(s.objects, objects, s.ready);
    InsertExact(objects, s.ready, fd);
  }

  lemma RemovedValid(s: State, fd: Fd, o: Sel)
    requires Valid(s) && (fd in s.objects ==> o == s.objects[fd])
    ensures var t := Removed(s, fd, o);
            && Valid(t) && t.objects == s.objects - {fd}
            && forall g :: g in t.ready <==> g in s.ready && !Equivalent(s.objects[g], o)
  {
    EraseExact(s.objects, s.ready, o);
    var ready := Erase(s.objects, s.ready, o);
    assert fd !in ready;
    SameOrder(s.objects, s.objects - {fd}, ready);
  }

  lemma FailedValid(s: State, fd: Fd, m: nat)
    requires Valid(s) && fd in s.objects
    ensures Valid(ReadFailed(s, fd, m))
  {
    SameOrder(s.objects, ReadFailed(s, fd, m).objects, s.ready);
  }

  lemma StepInv(s: State, op: Op)
    requires Inv(s) && Enabled(s, op)
    ensures Inv(Step(s, op))
  {
    hide Valid, Insert, Erase, ReadAll, Take, Free;
    match op
    case Add(fd, pri, lastUsed, queueLength) =>
      if fd !in s.objects {
        AddedValid(s, fd, Fresh(pri, lastUsed, queueLength));
      }
    case Remove(fd, o) => RemovedValid(s, fd, o);
    case PollOp(reports) =>
      ReadAllInv(s, reports.events);
      var r := ReadAll(s, reports.events);
      if reports.failure.Some? {
        FailedValid(r, reports.failure.value.0, reports.failure.value.1);
      } else {
        TakeInv(r);
      }
    case Tick(dt) => TickValid(s, dt);
  }

  lemma TickValid(s: State, dt: Time)
    requires Valid(s) && dt >= 0.0
    ensures Valid(s.(clock := s.clock + dt))
  {
  }

  ghost predicate IsRun(s: State, ops: seq<Op>)
    decreases |ops|
  {
    ops == [] || (Known(s.objects, s.ready) && Enabled(s, ops[0]) && IsRun(Step(s, ops[0]), ops[1..]))
  }

  ghost function Run(s: State, ops: seq<Op>): State
    requires IsRun(s, ops)
    decreases |ops|
  {
    if ops == [] then s else Run(Step(s, ops[0]), ops[1..])
  }

  /** Notification conservation, over every run of adding, removing and polling at any times
      and with failing reports: each object was returned exactly as often as its notifications
      account for, and with a non-negative initial length it is ready only while it has data. */
  lemma {:induction false} NotificationConservation(s: State, ops: seq<Op>)
    requires Inv(s) && IsRun(s, ops)
    ensures Inv(Run(s, ops))
    decreases |ops|
  {
    hide Inv, Step;
    if ops != [] {
      StepInv(s, ops[0]);
      NotificationConservation(Step(s, ops[0]), ops[1..]);
    }
  }

  // ---------- Ready while there is data: the exact condition ----------

  /** Every object that gets data finds its place in the ready set free. */
  ghost predicate ReadsFree(s: State, events: seq<(Fd, nat)>)
    requires Known(s.objects, s.ready) && Events(s, events)
    decreases |events|
  {
    events == [] ||
    (&& events[0] in events
     && (HasData(Notified(s.objects[events[0].0], events[0].1)) ==> Free(s.objects, s.ready, events[0].0))
     && (assert forall e | e in events[1..] :: e in events; ReadsFree(ReadOne(s, events[0].0, events[0].1), events[1..])))
  }

  ghost predicate PlacesFree(s: State, op: Op)
    requires Known(s.objects, s.ready) && Enabled(s, op)
  {
    match op
    case Add(fd, pri, lastUsed, queueLength) =>
      fd in s.objects || queueLength <= 0 || Free(s.objects[fd := Fresh(pri, lastUsed, queueLength)], s.ready, fd)
    case Remove(fd, o) => forall g | g in s.ready && g != fd && HasData(s.objects[g]) :: !Equivalent(s.objects[g], o)
    case PollOp(reports) =>
      && ReadsFree(s, reports.events)
      && (reports.failure.Some? ==>
            var (fd, m) := reports.failure.value;
            var r := ReadAll(s, reports.events);
            HasData(Notified(r.objects[fd], m)) ==> fd in r.ready)
    case Tick(_) => true
  }

  /** An object with data that is not in the ready set, its place being taken. */
  ghost predicate ShutOut(s: State, g: Fd) {
    g in s.objects && Known(s.objects, s.ready) && HasData(s.objects[g]) && g !in s.ready && !Free(s.objects, s.ready, g)
  }

  lemma ReadOneShutOut(s: State, fd: Fd, n: nat, g: Fd)
    requires Valid(s) && fd in s.objects && ShutOut(s, g)
    ensures ShutOut(ReadOne(s, fd, n), g)
  {
    hide ReadOne;
    ReadOneValid(s, fd, n);
    var t := ReadOne(s, fd, n);
    var h :| h in s.ready && h != g && Equivalent(s.objects[h], s.objects[g]);
    assert h in t.ready && Equivalent(t.objects[h], t.objects[g]);
  }

  lemma {:induction false} ReadAllShutOut(s: State, events: seq<(Fd, nat)>, g: Fd)
    requires Valid(s) && Events(s, events) && ShutOut(s, g)
    ensures ShutOut(ReadAll(s, events), g)
    decreases |events|
  {
    if events != [] {
      hide ReadOne, Valid, ShutOut;
      assert events[0] in events;
      ReadOneShutOut(s, events[0].0, events[0].1, g);
      ReadOneValid(s, events[0].0, events[0].1);
      assert forall e | e in events[1..] :: e in events;
      ReadAllShutOut(ReadOne(s, events[0].0, events[0].1), events[1..], g);
    }
  }

  /** One read: every object with data is ready afterwards if and only if this one's place is free. */
  lemma ReadOneReady(s: State, fd: Fd, n: nat)
    requires Valid(s) && Ready(s) && fd in s.objects
    ensures Ready(ReadOne(s, fd, n)) <==> (HasData(Notified(s.objects[fd], n)) ==> Free(s.objects, s.ready, fd))
    ensures HasData(Notified(s.objects[fd], n)) && !Free(s.objects, s.ready, fd) ==> ShutOut(ReadOne(s, fd, n), fd)
  {
    hide ReadOne;
    ReadOneValid(s, fd, n);
    var t := ReadOne(s, fd, n);
    if HasData(t.objects[fd]) && !Free(s.objects, s.ready, fd) {
      var h :| h in s.ready && h != fd && Equivalent(s.objects[h], s.objects[fd]);
      assert h in t.ready && Equivalent(t.objects[h], t.objects[fd]);
    }
  }

  lemma {:induction false} ReadAllReady(s: State, events: seq<(Fd, nat)>)
    requires Valid(s) && Ready(s) && Events(s, events)
    ensures Ready(ReadAll(s, events)) <==> ReadsFree(s, events)
    decreases |events|
  {
    if events != [] {
      hide ReadOne, Valid, Free, Ready, ShutOut;
      assert events[0] in events;
      var (fd, n) := events[0];
      var t := ReadOne(s, fd, n);
      ReadOneReady(s, fd, n);
      ReadOneValid(s, fd, n);
      assert forall e | e in events[1..] :: e in events;
      if Ready(t) {
        ReadAllReady(t, events[1..]);
      } else {
        ReadAllShutOut(t, events[1..], fd);
        ShutOutNotReady(ReadAll(t, events[1..]), fd);
      }
    }
  }

  lemma ShutOutNotReady(s: State, g: Fd)
    requires ShutOut(s, g)
    ensures !Ready(s)
  {
  }

  /** A pass over the ready set neither loses nor finds an object with data. */
  lemma {:induction false} TakeReadyKept(s: State)
    requires Valid(s)
    ensures Ready(Take(s).state) <==> Ready(s)
    decreases |s.ready|
  {
    hide Touch, Select1, Valid, Newest;
    if s.ready != [] {
      var fd := s.ready[0];
      TouchValid(s);
      var t := Touch(s);
      if HasData(s.objects[fd]) {
        Select1Valid(t, fd);
        assert Ready(Select1(t, fd)) <==> Ready(s);
      } else {
        assert Ready(t) <==> Ready(s);
        TakeReadyKept(t);
      }
    }
  }

  lemma FailedReady(s: State, fd: Fd, m: nat)
    requires fd in s.objects
    ensures Ready(ReadFailed(s, fd, m)) <==> Ready(s) && (HasData(Notified(s.objects[fd], m)) ==> fd in s.ready)
  {
    var t := ReadFailed(s, fd, m);
    assert t.objects[fd] == Notified(s.objects[fd], m);
  }

  /** A step leaves every object with data ready if and only if the places it needs are free. */
  lemma StepReady(s: State, op: Op)
    requires Valid(s) && Ready(s) && Enabled(s, op)
    ensures Ready(Step(s, op)) <==> PlacesFree(s, op)
  {
    hide Valid, Insert, Erase, ReadAll, Take, Free, ReadsFree;
    match op
    case Add(fd, pri, lastUsed, queueLength) =>
      if fd !in s.objects {
        var o := Fresh(pri, lastUsed, queueLength);
        AddedValid(s, fd, o);
        assert Added(s, fd, o).objects[fd] == o;
      }
    case Remove(fd, o) => RemovedReady(s, fd, o);
    case PollOp(reports) =>
      ReadAllValid(s, reports.events);
      ReadAllReady(s, reports.events);
      var r := ReadAll(s, reports.events);
      if reports.failure.Some? {
        FailedReady(r, reports.failure.value.0, reports.failure.value.1);
      } else {
        TakeReadyKept(r);
      }
    case Tick(_) =>
  }

  lemma RemovedReady(s: State, fd: Fd, o: Sel)
    requires Valid(s) && Ready(s) && (fd in s.objects ==> o == s.objects[fd])
    ensures Ready(Removed(s, fd, o)) <==> forall g | g in s.ready && g != fd && HasData(s.objects[g]) :: !Equivalent(s.objects[g], o)
  {
    RemovedValid(s, fd, o);
    hide Erase, Valid;
    var t := Removed(s, fd, o);
    if g :| g in s.ready && g != fd && HasData(s.objects[g]) && Equivalent(s.objects[g], o) {
      KnownMember(s, g);
      assert g in t.objects && HasData(t.objects[g]) && g !in t.ready;
    } else {
      assert forall g | g in t.objects && HasData(t.objects[g]) :: g in s.ready && g != fd;
    }
  }

  lemma KnownMember(s: State, g: Fd)
    requires Known(s.objects, s.ready) && g in s.ready
    ensures g in s.objects
  {
  }

  ghost predicate AlwaysReady(s: State, ops: seq<Op>)
    requires IsRun(s, ops)
    decreases |ops|
  {
    Ready(s) && (ops == [] || AlwaysReady(Step(s, ops[0]), ops[1..]))
  }

  ghost predicate AlwaysFree(s: State, ops: seq<Op>)
    requires IsRun(s, ops)
    decreases |ops|
  {
    ops == [] || (PlacesFree(s, ops[0]) && AlwaysFree(Step(s, ops[0]), ops[1..]))
  }

  /** Over every run, every object with unread notifications is ready between calls if and only if
      no insertion meets, and no removal hits, another object of the same priority and time, and
      no read fails after giving data to an object that is not ready. */
  lemma {:induction false} ReadyExact(s: State, ops: seq<Op>)
    requires Inv(s) && Ready(s) && IsRun(s, ops)
    ensures AlwaysReady(s, ops) <==> AlwaysFree(s, ops)
    decreases |ops|
  {
    hide Valid, Step, Ready, PlacesFree;
    if ops != [] {
      StepInv(s, ops[0]);
      StepReady(s, ops[0]);
      var t := Step(s, ops[0]);
      if Ready(t) {
        ReadyExact(t, ops[1..]);
      }
    }
  }

  // ---------- Distinct times ----------

  /** No two objects share priority and time. */
  ghost predicate DistinctTimes(s: State) {
    forall g, h | g in s.objects && h in s.objects && g != h :: !Equivalent(s.objects[g], s.objects[h])
  }

  /** The operation brings in no priority and time that is there, and no read fails. */
  ghost predicate Proper(s: State, op: Op) {
    match op
    case Add(fd, pri, lastUsed, queueLength) =>
      fd in s.objects || forall g | g in s.objects :: !Equivalent(s.objects[g], Fresh(pri, lastUsed, queueLength))
    case Remove(fd, o) => fd in s.objects || forall g | g in s.objects :: !Equivalent(s.objects[g], o)
    case PollOp(reports) => reports.failure.None?
    case Tick(_) => true
  }

  lemma {:induction false} DistinctReads(s: State, events: seq<(Fd, nat)>)
    requires Valid(s) && DistinctTimes(s) && Events(s, events)
    ensures ReadsFree(s, events) && DistinctTimes(ReadAll(s, events))
    decreases |events|
  {
    if events != [] {
      hide ReadOne, Valid;
      assert events[0] in events;
      ReadOneValid(s, events[0].0, events[0].1);
      assert forall e | e in events[1..] :: e in events;
      DistinctReads(ReadOne(s, events[0].0, events[0].1), events[1..]);
    }
  }

  lemma {:induction false} DistinctTake(s: State)
    requires Valid(s) && DistinctTimes(s)
    ensures DistinctTimes(Take(s).state)
    decreases |s.ready|
  {
    hide Touch, Select1, Valid;
    if s.ready != [] {
      TouchValid(s);
      if HasData(s.objects[s.ready[0]]) {
        Select1Valid(Touch(s), s.ready[0]);
      } else {
        DistinctTake(Touch(s));
      }
    }
  }

  lemma DistinctStep(s: State, op: Op)
    requires Valid(s) && DistinctTimes(s) && Enabled(s, op) && Proper(s, op)
    ensures PlacesFree(s, op) && DistinctTimes(Step(s, op))
  {
    hide Valid, Insert, Erase, ReadAll, Take, ReadsFree;
    match op
    case Add(_, _, _, _) =>
    case Remove(fd, o) =>
      forall g | g in s.ready && g != fd
        ensures !Equivalent(s.objects[g], o)
      {
        KnownMember(s, g);
      }
    case PollOp(reports) =>
      DistinctReads(s, reports.events);
      ReadAllValid(s, reports.events);
      DistinctTake(ReadAll(s, reports.events));
    case Tick(_) =>
  }

  ghost predicate ProperRun(s: State, ops: seq<Op>)
    requires IsRun(s, ops)
    decreases |ops|
  {
    ops == [] || (Proper(s, ops[0]) && ProperRun(Step(s, ops[0]), ops[1..]))
  }

  /** With distinct times and without read errors an object that started non-negative is in the
      ready set exactly while it has unread notifications. */
  lemma {:induction false} DistinctReady(s: State, ops: seq<Op>)
    requires Inv(s) && Ready(s) && DistinctTimes(s) && IsRun(s, ops) && ProperRun(s, ops)
    ensures var t := Run(s, ops);
            && Inv(t) && Ready(t)
            && forall g | g in t.objects && t.objects[g].initial >= 0 :: g in t.ready <==> t.objects[g].queueLength > 0
    decreases |ops|
  {
    if ops != [] {
      hide Valid, Step, Ready, PlacesFree, DistinctTimes, Proper;
      StepInv(s, ops[0]);
      DistinctStep(s, ops[0]);
      StepReady(s, ops[0]);
      DistinctReady(Step(s, ops[0]), ops[1..]);
    }
  }

  // ---------- Failing cases ----------

  /** For every two objects of one priority and time: while one is ready, a notification for the
      other is read and counted, and it does not become ready. */
  lemma SameTimesLoseReadiness(s: State, g: Fd, fd: Fd, n: nat)
    requires Valid(s) && g in s.ready && fd in s.objects && g != fd && fd !in s.ready
    requires Equivalent(s.objects[g], s.objects[fd])
    ensures var t := ReadOne(s, fd, n);
            && fd !in t.ready && t.objects[fd].queueLength == s.objects[fd].queueLength + n
            && (s.objects[fd].queueLength + n > 0 ==> !Ready(t))
  {
    hide ReadOne;
    ReadOneValid(s, fd, n);
  }

  /** After a read an object whose place is free is in the ready set, but it has data if and only if
      the notifications make up for its length: the default of -1 swallows the first one. */
  lemma NegativeStartSwallows(s: State, fd: Fd, n: nat)
    requires Valid(s) && fd in s.objects && Free(s.objects, s.ready, fd)
    ensures var t := ReadOne(s, fd, n);
            && fd in t.ready
            && (HasData(t.objects[fd]) <==> n > -s.objects[fd].queueLength)
            && (s.ready == [] && n <= -s.objects[fd].queueLength ==> Take(t).result == None)
  {
    ReadOneValid(s, fd, n);
    var t := ReadOne(s, fd, n);
    if s.ready == [] && n <= -s.objects[fd].queueLength {
      hide ReadOne;
      TakeOrder(t);
    }
  }

  // ---------- The object ----------

  /** What epoll_wait and the reads after it come to: a signal, an error, or descriptors read until
      one of them fails. */
  datatype Wait = Interrupted | Failed | Woken(reports: Reports)

  datatype Code = OBJECT | ERROR | TIMEOUT | SIGNALINT

  /** One poll from s ends in t with a result code and an object. */
  ghost predicate Outcome(s: State, wait: Wait, t: State, code: Code, c: Option<Fd>)
    requires Known(s.objects, s.ready) && (wait.Woken? ==> Readable(s, wait.reports))
  {
    match wait
    case Interrupted => code == SIGNALINT && c == None && t == s
    case Failed => code == ERROR && c == None && t == s
    case Woken(reports) =>
      && Taken(t, c) == Polled(s, reports)
      && code == if reports.failure.Some? then ERROR else if c == None then TIMEOUT else OBJECT
  }

  class Selector {
    var objects: map<Fd, Sel>
    var ready: seq<Fd>
    var clock: Time

    ghost function View(): State
      reads this
    {
      State(objects, ready, clock)
    }

    constructor (now: Time)
      ensures View() == State(map[], [], now) && Inv(View()) && Ready(View()) && DistinctTimes(View())
    {
      objects, ready, clock := map[], [], now;
    }

    method AddSelectable(fd: Fd, pri: int, lastUsed: Time, queueLength: int)
      requires Known(objects, ready)
      modifies this
      ensures View() == Added(old(View()), fd, Fresh(pri, lastUsed, queueLength))
    {
      if fd in objects {
        return;
      }
      objects := objects[fd := Fresh(pri, lastUsed, queueLength)];
      if queueLength > 0 {
        ready := Insert(objects, ready, fd);
      }
    }

    method RemoveSelectable(fd: Fd, o: Sel)
      requires Known(objects, ready)
      modifies this
      ensures View() == Removed(old(View()), fd, o)
    {
      ready := Erase(objects, ready, o);
      objects := objects - {fd};
    }

    /** RedisSelect::readData: one blocking read, then those already received; `n` of them succeed
        before the reader runs dry or fails. */
    method ReadData(fd: Fd, n: nat)
      requires fd in objects
      modifies this`objects
      ensures objects == old(objects)[fd := Notified(old(objects)[fd], n)]
    {
      var o := objects[fd];
      objects := objects[fd := Notified(o, 0)];
      for i := 0 to n
        invariant objects == old(objects)[fd := Notified(o, i)]
      {
        objects := objects[fd := Notified(objects[fd], 1)];
      }
    }

    /** poll_descriptors: a signal counts only when the caller asked for it (otherwise epoll_wait
        is tried again, and `wait` is its final answer); a failing read ends the poll. */
    method PollDescriptors(wait: Wait, interruptOnSignal: bool) returns (code: Code, c: Option<Fd>)
      requires Known(objects, ready)
      requires wait.Woken? ==> Readable(View(), wait.reports)
      requires wait.Interrupted? ==> interruptOnSignal
      modifies this
      ensures Outcome(old(View()), wait, View(), code, c)
    {
      hide Take, ReadAll;
      if wait.Interrupted? {
        return SIGNALINT, None;
      }
      if wait.Failed? {
        return ERROR, None;
      }
      ReadEvents(wait.reports.events);
      if wait.reports.failure.Some? {
        ReadData(wait.reports.failure.value.0, wait.reports.failure.value.1);
        return ERROR, None;
      }
      c := TakeReady();
      code := if c == None then TIMEOUT else OBJECT;
    }

    /** select: a poll that does not wait, and if it finds nothing and waiting is allowed, one
        that does. */
    method SelectObject(now: Wait, later: Wait, timeout: int, interruptOnSignal: bool)
      returns (code: Code, c: Option<Fd>)
      requires Known(objects, ready)
      requires !now.Interrupted? && (now.Woken? ==> Readable(View(), now.reports))
      requires later.Woken? ==> Readable(View(), later.reports)
      requires later.Interrupted? ==> interruptOnSignal
      modifies this
      ensures if now.Failed? || now.reports.failure.Some? || timeout == 0 || Polled(old(View()), now.reports).result.Some?
              then Outcome(old(View()), now, View(), code, c)
              else Outcome(Polled(old(View()), now.reports).state, later, View(), code, c)
    {
      hide Take, ReadAll;
      code, c := PollDescriptors(now, false);
      if code != TIMEOUT || timeout == 0 {
        return;
      }
      code, c := PollDescriptors(later, interruptOnSignal);
    }

    method ReadEvents(events: seq<(Fd, nat)>)
      requires Known(objects, ready) && Events(View(), events)
      modifies this
      ensures View() == ReadAll(old(View()), events)
    {
      assert events[0..] == events;
      for i := 0 to |events|
        invariant Known(objects, ready) && Events(View(), events[i..])
        invariant ReadAll(View(), events[i..]) == ReadAll(old(View()), events)
      {
        var (fd, n) := events[i];
        assert events[i..][0] == events[i] && events[i..][1..] == events[i + 1..];
        assert events[i] in events[i..];
        ghost var was := View();
        ReadData(fd, n);
        ready := Insert(objects, ready, fd);
        assert View() == ReadOne(was, fd, n);
        assert forall e | e in events[i + 1..] :: e in events[i..];
      }
      assert events[|events|..] == [];
    }

    method TakeReady() returns (c: Option<Fd>)
      requires Known(objects, ready)
      modifies this
      ensures Taken(View(), c) == Take(old(View()))
    {
      while ready != []
        invariant Known(objects, ready)
        invariant Take(View()) == Take(old(View()))
        decreases |ready|
      {
        var fd := ready[0];
        ghost var was := View();
        ready := ready[1..];
        objects := objects[fd := objects[fd].(lastUsed := clock)];
        clock := clock + 1.0;
        assert View() == Touch(was);
        if !HasData(objects[fd]) {
          continue;
        }
        if HasCachedData(objects[fd]) {
          ready := Insert(objects, ready, fd);
        }
        objects := objects[fd := objects[fd].(queueLength := objects[fd].queueLength - 1,
                                             returned := objects[fd].returned + 1)];
        return Some(fd);
      }
      c := None;
    }
  }
}
