/** The event channel: publishers number their events with a 32-bit counter; the subscriber reads a
    cache and then a channel, drops duplicates, counts what it missed and tracks a bounded number
    of publishers. */
module Events {
  import opened Tables

  const SEQUENCE_MAX: int := 0xFFFF_FFFF
  const MAX_PUBLISHERS_COUNT := 1000
  const CONTROL_PREFIX := "CONTROL_"
  const CONTROL_DEINIT := "CONTROL_DEINIT"
  const EAGAIN := 11

  datatype Message = Message(data: string, runtimeId: string, sequence: nat, epoch: int)

  /** The last accepted sequence number of a publisher and when it was accepted. */
  datatype Info = Info(epochSecs: nat, sequence: nat)

  type Track = map<string, Info>

  // ---------- 32-bit arithmetic ----------

  function Wrap(x: int): (r: int)
    ensures 0 <= r <= SEQUENCE_MAX
  {
    x % 0x1_0000_0000
  }

  /** A 32-bit value stored in an int. */
  function Signed(x: int): int {
    if Wrap(x) < 0x8000_0000 then Wrap(x) else Wrap(x) - 0x1_0000_0000
  }

  /** this_missed_cnt: zero is treated as a rollover. */
  function Gap(sequence: nat, last: nat): int {
    if sequence != 0 then Signed(sequence - last - 1) else Signed(SEQUENCE_MAX - last)
  }

  /** The rollover branch agrees with the general one. */
  lemma RolloverAgrees(sequence: nat, last: nat)
    ensures Gap(sequence, last) == Signed(sequence - last - 1)
  {
    assert sequence == 0 ==> SEQUENCE_MAX - last == (sequence - last - 1) + 0x1_0000_0000;
  }

  lemma WrapDifference(n: int, m: int)
    ensures Wrap(Wrap(n) - Wrap(m) - 1) == Wrap(n - m - 1)
  {
    var qn, qm := n / 0x1_0000_0000, m / 0x1_0000_0000;
    assert Wrap(n) - Wrap(m) - 1 == (n - m - 1) + 0x1_0000_0000 * (qm - qn);
  }

  /** The wrapped numbers tell the true distance exactly when it lies in a half-open window of
      2^32 indices around the last accepted one. */
  lemma GapExact(n: int, m: int)
    ensures Gap(Wrap(n), Wrap(m)) == n - m - 1 <==> -0x8000_0000 < n - m <= 0x8000_0000
  {
    RolloverAgrees(Wrap(n), Wrap(m));
    WrapDifference(n, m);
  }

  // ---------- Pruning ----------

  ghost function AtLeast(track: Track, time: nat): set<string> {
    set r | r in track && track[r].epochSecs >= time
  }

  /** What a prune keeps: the publishers that, with all those touched no earlier, fit the limit. */
  ghost function Prune(track: Track): Track {
    map r | r in track && |AtLeast(track, track[r].epochSecs)| <= MAX_PUBLISHERS_COUNT :: track[r]
  }

  lemma FewerMembers(a: set<string>, b: set<string>)
    requires a <= b
    ensures |a| <= |b|
  {
    assert |b - a| == |b| - |a|;
  }

  /** Some member was touched no later than all the others. */
  lemma {:induction false} Oldest(track: Track, ids: set<string>) returns (r: string)
    requires ids != {} && ids <= track.Keys
    ensures r in ids && forall q | q in ids :: track[r].epochSecs <= track[q].epochSecs
    decreases |ids|
  {
    r :| r in ids;
    var rest := ids - {r};
    if rest != {} {
      var q := Oldest(track, rest);
      if track[q].epochSecs < track[r].epochSecs {
        r := q;
      }
    }
  }

  /** A prune leaves at most the limit, and everything it removes is strictly older than everything
      it keeps; a publisher is removed exactly when those at least as recent are over the limit. */
  lemma PruneKeepsNewest(track: Track)
    ensures |Prune(track)| <= MAX_PUBLISHERS_COUNT
    ensures forall r, q | r in track && r !in Prune(track) && q in Prune(track) :: track[r].epochSecs < track[q].epochSecs
    ensures |track| <= MAX_PUBLISHERS_COUNT ==> Prune(track) == track
  {
    var kept := Prune(track);
    if kept.Keys != {} {
      var r := Oldest(track, kept.Keys);
      FewerMembers(kept.Keys, AtLeast(track, track[r].epochSecs));
    }
    assert |kept| == |kept.Keys|;
    forall r, q | r in track && r !in kept && q in kept
      ensures track[r].epochSecs < track[q].epochSecs
    {
      if track[r].epochSecs >= track[q].epochSecs {
        FewerMembers(AtLeast(track, track[r].epochSecs), AtLeast(track, track[q].epochSecs));
      }
    }
    if |track| <= MAX_PUBLISHERS_COUNT {
      forall r | r in track
        ensures r in kept
      {
        FewerMembers(AtLeast(track, track[r].epochSecs), track.Keys);
      }
    }
  }

  // ---------- One message ----------

  datatype Kind = Duplicate | Control | Data

  datatype Handled = Handled(track: Track, missed: nat, kind: Kind)

  predicate IsControl(data: string) { CONTROL_PREFIX <= data }

  ghost function Handle(track: Track, m: Message, now: nat): Handled {
    var known := m.runtimeId in track;
    var gap := if known then Gap(m.sequence, track[m.runtimeId].sequence) else 0;
    var room := if !known && |track| > MAX_PUBLISHERS_COUNT + 10 then Prune(track) else track;
    if gap < 0 then Handled(room, 0, Duplicate)
    else if !IsControl(m.data) then Handled(room[m.runtimeId := Info(now, m.sequence)], gap, Data)
    else if m.data == CONTROL_DEINIT && known then Handled(room - {m.runtimeId}, gap, Control)
    else Handled(room, gap, Control)
  }

  ghost predicate Bounded(track: Track) { |track| <= MAX_PUBLISHERS_COUNT + 11 }

  lemma HandleBounded(track: Track, m: Message, now: nat)
    requires Bounded(track)
    ensures Bounded(Handle(track, m, now).track)
  {
    PruneKeepsNewest(track);
    var h := Handle(track, m, now).track;
    var room := if m.runtimeId !in track && |track| > MAX_PUBLISHERS_COUNT + 10 then Prune(track) else track;
    assert room[m.runtimeId := Info(now, m.sequence)].Keys == room.Keys + {m.runtimeId};
    FewerMembers((room - {m.runtimeId}).Keys, room.Keys);
  }

  // ---------- A run over the messages that arrive ----------

  /** A message as the subscriber takes it, with the clock reading used if it is accepted. */
  datatype Arrival = Arrival(message: Message, now: nat)

  datatype Entry = Entry(message: Message, missed: nat, kind: Kind)

  ghost function TrackAfter(track: Track, arrivals: seq<Arrival>): Track
    decreases |arrivals|
  {
    if arrivals == [] then track
    else TrackAfter(Handle(track, arrivals[0].message, arrivals[0].now).track, arrivals[1..])
  }

  /** What became of each message. */
  ghost function Log(track: Track, arrivals: seq<Arrival>): seq<Entry>
    decreases |arrivals|
  {
    if arrivals == [] then []
    else
      var h := Handle(track, arrivals[0].message, arrivals[0].now);
      [Entry(arrivals[0].message, h.missed, h.kind)] + Log(h.track, arrivals[1..])
  }

  function Total(log: seq<Entry>): nat {
    if log == [] then 0 else log[0].missed + Total(log[1..])
  }

  /** The events handed to the caller. */
  function Returned(log: seq<Entry>): seq<Message> {
    if log == [] then [] else ReturnedBy(log[0]) + Returned(log[1..])
  }

  function ReturnedBy(e: Entry): seq<Message> {
    if e.kind == Data then [e.message] else []
  }

  function MissedFrom(r: string, log: seq<Entry>): nat {
    if log == [] then 0
    else (if log[0].message.runtimeId == r then log[0].missed else 0) + MissedFrom(r, log[1..])
  }

  /** The tracking map stays bounded over every run. */
  lemma {:induction false} TrackBounded(track: Track, arrivals: seq<Arrival>)
    requires Bounded(track)
    ensures Bounded(TrackAfter(track, arrivals))
    decreases |arrivals|
  {
    if arrivals != [] {
      HandleBounded(track, arrivals[0].message, arrivals[0].now);
      TrackBounded(Handle(track, arrivals[0].message, arrivals[0].now).track, arrivals[1..]);
    }
  }

  // ---------- Conservation for one publisher ----------

  /** The messages carry the true indices, wrapped. */
  ghost predicate Numbered(arrivals: seq<Arrival>, indices: seq<int>) {
    |indices| == |arrivals| && forall i | 0 <= i < |arrivals| :: arrivals[i].message.sequence == Wrap(indices[i])
  }

  /** r stays tracked, and each of its messages lies within the window around the last accepted. */
  ghost predicate Follows(r: string, last: int, track: Track, arrivals: seq<Arrival>, indices: seq<int>)
    requires Numbered(arrivals, indices)
    decreases |arrivals|
  {
    && r in track
    && (arrivals == [] ||
        var h := Handle(track, arrivals[0].message, arrivals[0].now);
        if arrivals[0].message.runtimeId == r then
          && -0x8000_0000 < indices[0] - last <= 0x8000_0000
          && Follows(r, if h.kind == Data then indices[0] else last, h.track, arrivals[1..], indices[1..])
        else Follows(r, last, h.track, arrivals[1..], indices[1..]))
  }

  /** The true indices of r's returned events, in order. */
  ghost function Accepted(r: string, log: seq<Entry>, indices: seq<int>): seq<int>
    requires |log| == |indices|
  {
    if log == [] then []
    else (if log[0].message.runtimeId == r && log[0].kind == Data then [indices[0]] else [])
         + Accepted(r, log[1..], indices[1..])
  }

  /** Misses reported at r's control messages; they do not move the tracked number, so the next
      event reports them again. */
  ghost function ControlGaps(r: string, log: seq<Entry>): nat {
    if log == [] then 0
    else (if log[0].message.runtimeId == r && log[0].kind == Control then log[0].missed else 0) + ControlGaps(r, log[1..])
  }

  function LastOf(last: int, accepted: seq<int>): int {
    if accepted == [] then last else accepted[|accepted| - 1]
  }

  ghost predicate Increasing(last: int, accepted: seq<int>)
    decreases |accepted|
  {
    accepted == [] || (last < accepted[0] && Increasing(accepted[0], accepted[1..]))
  }

  /** One message of r: a repeat is dropped; an event moves on and reports what lies between. */
  lemma HandleExact(track: Track, m: Message, now: nat, last: int, index: int)
    requires m.runtimeId in track && track[m.runtimeId].sequence == Wrap(last) && m.sequence == Wrap(index)
    requires -0x8000_0000 < index - last <= 0x8000_0000
    ensures var h := Handle(track, m, now);
            && (h.kind == Duplicate <==> index <= last)
            && (h.kind == Duplicate ==> h.track == track && h.missed == 0)
            && (index > last ==> h.missed == index - last - 1)
            && (h.kind == Data ==> m.runtimeId in h.track && h.track[m.runtimeId].sequence == Wrap(index))
            && (h.kind == Control && m.runtimeId in h.track ==> h.track == track)
  {
    GapExact(index, last);
  }

  /** A message of another publisher leaves r's entry alone, if r is still tracked after it. */
  lemma HandleOther(track: Track, m: Message, now: nat, r: string)
    requires r in track && m.runtimeId != r && r in Handle(track, m, now).track
    ensures Handle(track, m, now).track[r] == track[r]
  {
  }

  /** The books of r balance: returned and missed against the advance from `last`. */
  ghost predicate Balanced(r: string, last: int, log: seq<Entry>, indices: seq<int>) {
    && |log| == |indices|
    && var accepted := Accepted(r, log, indices);
       && |accepted| + MissedFrom(r, log) == LastOf(last, accepted) - last + ControlGaps(r, log)
       && Increasing(last, accepted)
  }

  lemma BalancedStep(r: string, last: int, e: Entry, log: seq<Entry>, index: int, indices: seq<int>)
    requires Balanced(r, if e.message.runtimeId == r && e.kind == Data then index else last, log, indices)
    requires e.message.runtimeId == r ==> match e.kind case Duplicate => e.missed == 0
                                                       case Control => true
                                                       case Data => index > last && e.missed == index - last - 1
    ensures Balanced(r, last, [e] + log, [index] + indices)
    ensures LastOf(last, Accepted(r, [e] + log, [index] + indices))
            == LastOf(if e.message.runtimeId == r && e.kind == Data then index else last, Accepted(r, log, indices))
  {
    assert ([e] + log)[1..] == log && ([index] + indices)[1..] == indices;
    var accepted := Accepted(r, log, indices);
    if e.message.runtimeId == r && e.kind == Data {
      assert ([index] + accepted)[1..] == accepted;
    } else {
      assert [] + accepted == accepted;
    }
  }

  /** Conservation across wrap-around: while r stays tracked and its messages stay within the
      window, the events returned plus the misses reported equal the advance of the publisher's
      counter, plus what its control messages reported early; no index is returned twice, and
      they come in order. */
  lemma {:induction false} MissedConservation(r: string, last: int, track: Track, arrivals: seq<Arrival>, indices: seq<int>)
    requires Numbered(arrivals, indices) && Follows(r, last, track, arrivals, indices)
    requires track[r].sequence == Wrap(last)
    ensures Balanced(r, last, Log(track, arrivals), indices)
    ensures r in TrackAfter(track, arrivals)
            && TrackAfter(track, arrivals)[r].sequence == Wrap(LastOf(last, Accepted(r, Log(track, arrivals), indices)))
    decreases |arrivals|
  {
    if arrivals != [] {
      hide Wrap, Handle, Balanced, Accepted, LastOf;
      var m, now := arrivals[0].message, arrivals[0].now;
      var h := Handle(track, m, now);
      assert r in h.track;
      var next := if m.runtimeId == r && h.kind == Data then indices[0] else last;
      if m.runtimeId == r {
        HandleExact(track, m, now, last, indices[0]);
      } else {
        HandleOther(track, m, now, r);
      }
      MissedConservation(r, next, h.track, arrivals[1..], indices[1..]);
      BalancedStep(r, last, Entry(m, h.missed, h.kind), Log(h.track, arrivals[1..]), indices[0], indices[1..]);
      assert indices == [indices[0]] + indices[1..];
    }
  }

  ghost predicate ControlsInSequence(r: string, log: seq<Entry>) {
    forall i | 0 <= i < |log| && log[i].message.runtimeId == r && log[i].kind == Control :: log[i].missed == 0
  }

  lemma {:induction false} NoControlGaps(r: string, log: seq<Entry>)
    ensures ControlGaps(r, log) == 0 <==> ControlsInSequence(r, log)
    decreases |log|
  {
    if log != [] {
      NoControlGaps(r, log[1..]);
      assert forall i | 1 <= i < |log| :: log[i] == log[1..][i - 1];
    }
  }

  /** On the arrivals alone: every control message of r is a repeat or the very next index, `last`
      being the highest index among the events of r so far. */
  ghost predicate ControlsInOrder(r: string, last: int, arrivals: seq<Arrival>, indices: seq<int>)
    requires |arrivals| == |indices|
    decreases |arrivals|
  {
    arrivals == [] ||
    var m := arrivals[0].message;
    if m.runtimeId != r then ControlsInOrder(r, last, arrivals[1..], indices[1..])
    else if IsControl(m.data) then indices[0] <= last + 1 && ControlsInOrder(r, last, arrivals[1..], indices[1..])
    else ControlsInOrder(r, if indices[0] > last then indices[0] else last, arrivals[1..], indices[1..])
  }

  lemma ControlsFirst(r: string, e: Entry, log: seq<Entry>)
    ensures ControlsInSequence(r, [e] + log) <==>
            (e.message.runtimeId == r && e.kind == Control ==> e.missed == 0) && ControlsInSequence(r, log)
  {
    var all := [e] + log;
    assert all[0] == e && forall i | 0 <= i < |log| :: all[i + 1] == log[i];
    if ControlsInSequence(r, log) {
      assert forall i | 1 <= i < |all| :: all[i] == log[i - 1];
    }
  }

  lemma {:induction false} ControlsExact(r: string, last: int, track: Track, arrivals: seq<Arrival>, indices: seq<int>)
    requires Numbered(arrivals, indices) && Follows(r, last, track, arrivals, indices)
    requires track[r].sequence == Wrap(last)
    ensures ControlsInSequence(r, Log(track, arrivals)) <==> ControlsInOrder(r, last, arrivals, indices)
    decreases |arrivals|
  {
    if arrivals != [] {
      hide Wrap, ControlsInSequence;
      var m, now := arrivals[0].message, arrivals[0].now;
      var h := Handle(track, m, now);
      assert h.kind == Control ==> IsControl(m.data);
      assert h.kind == Data ==> !IsControl(m.data);
      hide Handle, IsControl;
      assert r in h.track;
      if m.runtimeId == r {
        HandleExact(track, m, now, last, indices[0]);
      } else {
        HandleOther(track, m, now, r);
      }
      ControlsFirst(r, Entry(m, h.missed, h.kind), Log(h.track, arrivals[1..]));
      ControlsExact(r, if m.runtimeId == r && h.kind == Data then indices[0] else last, h.track, arrivals[1..], indices[1..]);
    }
  }

  /** The count is exact if and only if every control message of r arrives in order. */
  lemma CountExact(r: string, last: int, track: Track, arrivals: seq<Arrival>, indices: seq<int>)
    requires Numbered(arrivals, indices) && Follows(r, last, track, arrivals, indices)
    requires track[r].sequence == Wrap(last)
    ensures var log := Log(track, arrivals);
            && |log| == |indices|
            && var accepted := Accepted(r, log, indices);
               |accepted| + MissedFrom(r, log) == LastOf(last, accepted) - last <==> ControlsInOrder(r, last, arrivals, indices)
  {
    hide Wrap, Handle, Log, Follows, Accepted, MissedFrom, ControlGaps, ControlsInSequence, ControlsInOrder;
    MissedConservation(r, last, track, arrivals, indices);
    NoControlGaps(r, Log(track, arrivals));
    ControlsExact(r, last, track, arrivals, indices);
  }

  /** A control message after a gap: the gap is reported with it and again with the next event. */
  lemma GapReportedTwice(r: string, now: nat)
    ensures var track := map[r := Info(now, 5)];
            var control, event := Message("CONTROL_X", r, 8, 0), Message("{}", r, 9, 0);
            var h := Handle(track, control, now);
            h.missed == 2 && h.kind == Control && Handle(h.track, event, now).missed == 3
  {
    assert CONTROL_PREFIX <= "CONTROL_X";
    assert "{}"[0] != CONTROL_PREFIX[0];
  }

  lemma {:induction false} IncreasingDistinct(last: int, accepted: seq<int>)
    requires Increasing(last, accepted)
    ensures forall i, j | 0 <= i < j < |accepted| :: last < accepted[i] < accepted[j]
    ensures forall i | 0 <= i < |accepted| :: last < accepted[i]
    decreases |accepted|
  {
    if accepted != [] {
      IncreasingDistinct(accepted[0], accepted[1..]);
      assert forall i | 1 <= i < |accepted| :: accepted[i] == accepted[1..][i - 1];
    }
  }

  // ---------- What the calls report ----------

  /** What a read yields: a message, or an error (a timeout is one). */
  datatype Item = Arrived(arrival: Arrival) | Failed(rc: int)

  datatype Call = Call(track: Track, rest: seq<Item>, missed: nat, rc: int, event: Option<Message>)

  /** event_receive over the stream of reads; missed_cnt is a 32-bit sum. */
  ghost function Receive(track: Track, items: seq<Item>, missed: nat): Call
    decreases |items|
  {
    if items == [] then Call(track, [], missed, EAGAIN, None)
    else match items[0]
      case Failed(rc) => Call(track, items[1..], missed, rc, None)
      case Arrived(a) =>
        var h := Handle(track, a.message, a.now);
        var sum := Wrap(missed + h.missed);
        if h.kind == Data then Call(h.track, items[1..], sum, 0, Some(a.message))
        else Receive(h.track, items[1..], sum)
  }

  /** The call returns within these reads: at an error, or with an event. */
  ghost predicate Settles(track: Track, items: seq<Item>)
    decreases |items|
  {
    && items != []
    && match items[0]
       case Failed(_) => true
       case Arrived(a) =>
         var h := Handle(track, a.message, a.now);
         h.kind == Data || Settles(h.track, items[1..])
  }

  /** A call looks at no more than it needs to return; and one that has read everything without
      returning goes on, however long it waits, as if what comes later had been there at once. */
  lemma {:induction false} ReceiveWaits(track: Track, items: seq<Item>, more: seq<Item>, missed: nat)
    ensures var c := Receive(track, items, missed);
            Receive(track, items + more, missed)
            == if Settles(track, items) then c.(rest := c.rest + more) else Receive(c.track, more, c.missed)
    decreases |items|
  {
    hide Handle, Wrap;
    if items == [] {
      assert items + more == more;
    } else {
      assert (items + more)[1..] == items[1..] + more;
      match items[0] {
        case Failed(_) =>
        case Arrived(a) =>
          var h := Handle(track, a.message, a.now);
          ReceiveWaits(h.track, items[1..], more, Wrap(missed + h.missed));
      }
    }
  }

  function Arrivals(items: seq<Item>): seq<Arrival> {
    if items == [] then [] else ArrivalOf(items[0]) + Arrivals(items[1..])
  }

  function ArrivalOf(item: Item): seq<Arrival> {
    if item.Arrived? then [item.arrival] else []
  }

  function EventOf(event: Option<Message>): seq<Message> {
    if event.Some? then [event.value] else []
  }

  lemma WrapSum(a: int, b: int)
    ensures Wrap(Wrap(a) + b) == Wrap(a + b)
  {
    assert Wrap(a) + b == (a + b) - 0x1_0000_0000 * (a / 0x1_0000_0000);
  }

  lemma LogFirst(track: Track, a: Arrival, rest: seq<Arrival>)
    ensures var h := Handle(track, a.message, a.now);
            && TrackAfter(track, [a] + rest) == TrackAfter(h.track, rest)
            && Total(Log(track, [a] + rest)) == h.missed + Total(Log(h.track, rest))
            && Returned(Log(track, [a] + rest)) == (if h.kind == Data then [a.message] else []) + Returned(Log(h.track, rest))
  {
    hide Handle;
    var h := Handle(track, a.message, a.now);
    assert ([a] + rest)[1..] == rest;
    var e, log := Entry(a.message, h.missed, h.kind), Log(h.track, rest);
    assert Log(track, [a] + rest) == [e] + log && ([e] + log)[1..] == log;
  }

  lemma LogEmpty(track: Track)
    ensures TrackAfter(track, []) == track && Total(Log(track, [])) == 0 && Returned(Log(track, [])) == []
  {
  }

  lemma ArrivalsFirst(item: Item, rest: seq<Item>)
    ensures Arrivals([item] + rest) == (if item.Arrived? then [item.arrival] else []) + Arrivals(rest)
    ensures Arrivals([item]) == if item.Arrived? then [item.arrival] else []
    ensures Arrivals([]) == []
  {
    assert ([item] + rest)[1..] == rest && [item][1..] == [];
  }

  lemma WrapSmall(x: nat)
    requires x <= SEQUENCE_MAX
    ensures Wrap(x) == x
  {
  }

  /** A prefix of the stream is consumed, ending at the first event or error. */
  lemma {:induction false} ReceiveLog(track: Track, items: seq<Item>, missed: nat) returns (used: seq<Item>)
    requires missed <= SEQUENCE_MAX
    ensures var c := Receive(track, items, missed);
            && items == used + c.rest
            && c.track == TrackAfter(track, Arrivals(used))
            && c.missed == Wrap(missed + Total(Log(track, Arrivals(used))))
            && Returned(Log(track, Arrivals(used))) == EventOf(c.event)
    decreases |items|
  {
    hide Wrap, Handle, Log, TrackAfter, Total, Returned, Arrivals;
    LogEmpty(track);
    WrapSmall(missed);
    if items == [] {
      used := [];
      ArrivalsFirst(Failed(0), []);
    } else {
      ArrivalsFirst(items[0], []);
      used := [items[0]];
      if items[0].Arrived? {
        var a := items[0].arrival;
        var h := Handle(track, a.message, a.now);
        var rest := [];
        if h.kind == Data {
          LogEmpty(h.track);
        } else {
          rest := ReceiveLog(h.track, items[1..], Wrap(missed + h.missed));
          used := [items[0]] + rest;
        }
        ArrivalsFirst(items[0], rest);
        LogFirst(track, a, Arrivals(rest));
        assert [a] + [] == [a];
        WrapSum(missed + h.missed, Total(Log(h.track, Arrivals(rest))));
      }
    }
  }

  datatype Session = Session(track: Track, rest: seq<Item>, reported: nat, events: seq<Message>)

  /** n calls, each with its own missed count. */
  ghost function Calls(track: Track, items: seq<Item>, n: nat): Session
    decreases n
  {
    if n == 0 then Session(track, items, 0, [])
    else
      var c := Receive(track, items, 0);
      var s := Calls(c.track, c.rest, n - 1);
      s.(reported := c.missed + s.reported, events := EventOf(c.event) + s.events)
  }

  lemma {:induction false} ArrivalsConcat(a: seq<Item>, b: seq<Item>)
    ensures Arrivals(a + b) == Arrivals(a) + Arrivals(b)
    decreases |a|
  {
    if a == [] {
      assert a + b == b;
    } else {
      hide ArrivalOf;
      ArrivalsConcat(a[1..], b);
      assert (a + b)[1..] == a[1..] + b;
      var x, y, z := ArrivalOf(a[0]), Arrivals(a[1..]), Arrivals(b);
      assert x + (y + z) == (x + y) + z;
    }
  }

  lemma {:induction false} LogConcat(track: Track, a: seq<Arrival>, b: seq<Arrival>)
    ensures TrackAfter(track, a + b) == TrackAfter(TrackAfter(track, a), b)
    ensures Log(track, a + b) == Log(track, a) + Log(TrackAfter(track, a), b)
    decreases |a|
  {
    hide Handle;
    if a == [] {
      assert a + b == b;
    } else {
      LogConcat(Handle(track, a[0].message, a[0].now).track, a[1..], b);
      assert (a + b)[1..] == a[1..] + b;
    }
  }

  lemma {:induction false} TotalConcat(a: seq<Entry>, b: seq<Entry>)
    ensures Total(a + b) == Total(a) + Total(b)
    decreases |a|
  {
    if a == [] {
      assert a + b == b;
    } else {
      TotalConcat(a[1..], b);
      assert (a + b)[1..] == a[1..] + b;
    }
  }

  lemma {:induction false} ReturnedConcat(a: seq<Entry>, b: seq<Entry>)
    ensures Returned(a + b) == Returned(a) + Returned(b)
    decreases |a|
  {
    if a == [] {
      assert a + b == b;
    } else {
      hide ReturnedBy;
      ReturnedConcat(a[1..], b);
      assert (a + b)[1..] == a[1..] + b;
      var x, y, z := ReturnedBy(a[0]), Returned(a[1..]), Returned(b);
      assert x + (y + z) == (x + y) + z;
    }
  }

  /** Over any number of calls: a prefix of the stream is consumed, its events are returned in
      order, and the reported counts add up, modulo 2^32, to everything counted as missed. */
  lemma {:induction false} CallsLog(track: Track, items: seq<Item>, n: nat) returns (used: seq<Item>)
    ensures var s := Calls(track, items, n);
            && items == used + s.rest
            && s.track == TrackAfter(track, Arrivals(used))
            && s.events == Returned(Log(track, Arrivals(used)))
            && Wrap(s.reported) == Wrap(Total(Log(track, Arrivals(used))))
    decreases n
  {
    hide Wrap, Receive, Log, TrackAfter, Total, Returned, Arrivals, EventOf;
    if n == 0 {
      used := [];
      LogEmpty(track);
      ArrivalsFirst(Failed(0), []);
    } else {
      var c := Receive(track, items, 0);
      var first := ReceiveLog(track, items, 0);
      var rest := CallsLog(c.track, c.rest, n - 1);
      used := first + rest;
      assert items == used + Calls(track, items, n).rest;
      ArrivalsConcat(first, rest);
      LogConcat(track, Arrivals(first), Arrivals(rest));
      var log1, log2 := Log(track, Arrivals(first)), Log(c.track, Arrivals(rest));
      TotalConcat(log1, log2);
      ReturnedConcat(log1, log2);
      var s := Calls(c.track, c.rest, n - 1);
      WrapSum(Total(log1), s.reported);
      WrapSum(s.reported, Total(log1));
      WrapSum(Total(log2), Total(log1));
    }
  }

  // ---------- Conservation for all publishers ----------

  /** The advance of r's counter over a run, with what its control messages reported early. */
  ghost function Advance(r: string, last: int, log: seq<Entry>, indices: seq<int>): int
    requires |log| == |indices|
  {
    LastOf(last, Accepted(r, log, indices)) - last + ControlGaps(r, log)
  }

  ghost function AdvanceAll(ids: seq<string>, lasts: map<string, int>, log: seq<Entry>, indices: seq<int>): int
    requires |log| == |indices| && forall i | 0 <= i < |ids| :: ids[i] in lasts
  {
    if ids == [] then 0
    else Advance(ids[0], lasts[ids[0]], log, indices) + AdvanceAll(ids[1..], lasts, log, indices)
  }

  function Weight(e: Entry): nat { e.missed + if e.kind == Data then 1 else 0 }

  /** What the log accounts for from r: its returned events and its misses. */
  function Accounted(r: string, log: seq<Entry>): nat {
    if log == [] then 0
    else (if log[0].message.runtimeId == r then Weight(log[0]) else 0) + Accounted(r, log[1..])
  }

  function AccountedAll(ids: seq<string>, log: seq<Entry>): nat {
    if ids == [] then 0 else Accounted(ids[0], log) + AccountedAll(ids[1..], log)
  }

  lemma {:induction false} AccountedFrom(r: string, log: seq<Entry>, indices: seq<int>)
    requires |log| == |indices|
    ensures Accounted(r, log) == |Accepted(r, log, indices)| + MissedFrom(r, log)
    decreases |log|
  {
    if log != [] {
      AccountedFrom(r, log[1..], indices[1..]);
    }
  }

  lemma {:induction false} AccountedStep(ids: seq<string>, log: seq<Entry>)
    requires log != [] && Distinct(ids)
    ensures AccountedAll(ids, log)
            == AccountedAll(ids, log[1..]) + if log[0].message.runtimeId in ids then Weight(log[0]) else 0
    decreases |ids|
  {
    if ids != [] {
      var rest := ids[1..];
      assert forall i | 0 <= i < |rest| :: rest[i] == ids[i + 1];
      assert ids == [ids[0]] + rest;
      AccountedStep(rest, log);
    }
  }

  lemma {:induction false} NothingAccounted(ids: seq<string>)
    ensures AccountedAll(ids, []) == 0
    decreases |ids|
  {
    if ids != [] {
      NothingAccounted(ids[1..]);
    }
  }

  /** Every entry belongs to exactly one publisher. */
  lemma {:induction false} AccountedSplit(ids: seq<string>, log: seq<Entry>)
    requires Distinct(ids) && forall e | e in log :: e.message.runtimeId in ids
    ensures AccountedAll(ids, log) == Total(log) + |Returned(log)|
    decreases |log|
  {
    if log == [] {
      NothingAccounted(ids);
    } else {
      AccountedStep(ids, log);
      assert log[0] in log;
      AccountedSplit(ids, log[1..]);
    }
  }

  lemma {:induction false} AdvancesAccounted(ids: seq<string>, lasts: map<string, int>, log: seq<Entry>, indices: seq<int>)
    requires forall i | 0 <= i < |ids| :: ids[i] in lasts && Balanced(ids[i], lasts[ids[i]], log, indices)
    requires |log| == |indices|
    ensures AccountedAll(ids, log) == AdvanceAll(ids, lasts, log, indices)
    decreases |ids|
  {
    if ids != [] {
      var rest := ids[1..];
      assert forall i | 0 <= i < |rest| :: rest[i] == ids[i + 1];
      AccountedFrom(ids[0], log, indices);
      assert Balanced(ids[0], lasts[ids[0]], log, indices);
      AdvancesAccounted(rest, lasts, log, indices);
    }
  }

  lemma {:induction false} LogMessages(track: Track, arrivals: seq<Arrival>)
    ensures |Log(track, arrivals)| == |arrivals|
    ensures forall i | 0 <= i < |arrivals| :: Log(track, arrivals)[i].message == arrivals[i].message
    decreases |arrivals|
  {
    hide Handle;
    if arrivals != [] {
      LogMessages(Handle(track, arrivals[0].message, arrivals[0].now).track, arrivals[1..]);
    }
  }

  /** Every arrival is from one of `ids`, and each of these stays tracked and within its window. */
  ghost predicate AllFollow(ids: seq<string>, lasts: map<string, int>, track: Track, arrivals: seq<Arrival>, indices: seq<int>) {
    && Numbered(arrivals, indices)
    && Distinct(ids)
    && (forall i | 0 <= i < |arrivals| :: arrivals[i].message.runtimeId in ids)
    && (forall i | 0 <= i < |ids| ::
          && ids[i] in lasts && ids[i] in track
          && track[ids[i]].sequence == Wrap(lasts[ids[i]])
          && Follows(ids[i], lasts[ids[i]], track, arrivals, indices))
  }

  lemma LogConservation(ids: seq<string>, lasts: map<string, int>, track: Track, arrivals: seq<Arrival>, indices: seq<int>)
    requires AllFollow(ids, lasts, track, arrivals, indices)
    ensures var log := Log(track, arrivals);
            |log| == |indices| && Total(log) + |Returned(log)| == AdvanceAll(ids, lasts, log, indices)
  {
    hide Wrap, Log, Follows, Balanced, AdvanceAll, AccountedAll, Total, Returned;
    var log := Log(track, arrivals);
    LogMessages(track, arrivals);
    forall i | 0 <= i < |ids|
      ensures Balanced(ids[i], lasts[ids[i]], log, indices)
    {
      MissedConservation(ids[i], lasts[ids[i]], track, arrivals, indices);
    }
    AccountedSplit(ids, log);
    AdvancesAccounted(ids, lasts, log, indices);
  }

  /** What the caller sees: over any number of calls, the events returned plus the counts reported
      equal, modulo 2^32, the advance of the publishers' counters over what was consumed. */
  lemma ReportedConservation(track: Track, items: seq<Item>, n: nat, used: seq<Item>,
                             ids: seq<string>, lasts: map<string, int>, indices: seq<int>)
    requires items == used + Calls(track, items, n).rest
    requires AllFollow(ids, lasts, track, Arrivals(used), indices)
    ensures var s, log := Calls(track, items, n), Log(track, Arrivals(used));
            && |log| == |indices|
            && Wrap(|s.events| + s.reported) == Wrap(AdvanceAll(ids, lasts, log, indices))
  {
    hide Wrap, Calls, Log, AllFollow, AdvanceAll, Total, Returned, Arrivals;
    var consumed := CallsLog(track, items, n);
    assert used == items[..|used|] == consumed;
    LogConservation(ids, lasts, track, Arrivals(used), indices);
    var log, s := Log(track, Arrivals(used)), Calls(track, items, n);
    WrapSum(s.reported, |s.events|);
    WrapSum(Total(log), |s.events|);
  }

  // ---------- The objects ----------

  class EventPublisher {
    const runtimeId: string
    var sequence: nat
    ghost var sent: nat

    ghost predicate Valid()
      reads this
    {
      sequence == Wrap(sent)
    }

    constructor (id: string)
      ensures Valid() && sent == 0 && runtimeId == id
    {
      runtimeId, sequence, sent := id, 0, 0;
    }

    /** send_evt: the n-th event carries n modulo 2^32. */
    method SendEvent(data: string, now: int) returns (m: Message)
      requires Valid()
      modifies this
      ensures Valid() && sent == old(sent) + 1
      ensures m == Message(data, runtimeId, Wrap(sent), now)
    {
      WrapSum(sent, 1);
      sequence := Wrap(sequence + 1);
      sent := sent + 1;
      m := Message(data, runtimeId, sequence, now);
    }
  }

  /** What the cache service will answer, call by call, and what the channel will yield. */
  class Sources {
    var cache: seq<seq<Item>>
    var channel: seq<Item>
  }

  /** The cache is read until it answers with nothing. */
  function Cached(cache: seq<seq<Item>>): seq<Item> {
    if cache == [] || cache[0] == [] then [] else cache[0] + Cached(cache[1..])
  }

  class EventSubscriber {
    var track: Track
    var fromCache: seq<Item>
    var cacheRead: bool

    /** What is still to be read, in order: the cache and then the channel. */
    ghost function Stream(src: Sources): seq<Item>
      reads this, src
    {
      fromCache + (if cacheRead then Cached(src.cache) else []) + src.channel
    }

    constructor (activeCache: bool)
      ensures track == map[] && fromCache == [] && cacheRead == activeCache
    {
      track, fromCache, cacheRead := map[], [], activeCache;
    }

    /** Asks the cache for more once what it gave is used up. */
    method ReadCache(src: Sources)
      modifies this`fromCache, this`cacheRead, src`cache
      ensures Stream(src) == old(Stream(src))
      ensures fromCache == [] ==> !cacheRead
    {
      if cacheRead && fromCache == [] {
        if src.cache != [] {
          fromCache := src.cache[0];
          src.cache := src.cache[1..];
        }
        cacheRead := fromCache != [];
      }
    }

    /** The next item of the stream, if there is one. */
    method Next(src: Sources) returns (item: Option<Item>)
      modifies this`fromCache, this`cacheRead, src
      ensures old(Stream(src)) == (if item.Some? then [item.value] else []) + Stream(src)
      ensures item == None ==> Stream(src) == []
    {
      ReadCache(src);
      hide Cached;
      ghost var stream := Stream(src);
      if fromCache != [] {
        item := Some(fromCache[0]);
        fromCache := fromCache[1..];
        assert stream == [item.value] + Stream(src);
      } else if src.channel != [] {
        item := Some(src.channel[0]);
        src.channel := src.channel[1..];
        assert stream == [item.value] + Stream(src);
      } else {
        item := None;
      }
    }

    method EventReceive(src: Sources) returns (missed: nat, rc: int, event: Option<Message>)
      modifies this, src
      ensures Call(track, Stream(src), missed, rc, event) == Receive(old(track), old(Stream(src)), 0)
    {
      hide Wrap, Handle, Cached;
      missed := 0;
      while true
        invariant missed <= SEQUENCE_MAX
        invariant Receive(track, Stream(src), missed) == Receive(old(track), old(Stream(src)), 0)
        decreases |Stream(src)|
      {
        ghost var stream, before := Stream(src), track;
        var item := Next(src);
        if item == None {
          return missed, EAGAIN, None;
        }
        assert stream[0] == item.value && stream[1..] == Stream(src);
        if item.value.Failed? {
          return missed, item.value.rc, None;
        }
        var m, now := item.value.arrival.message, item.value.arrival.now;
        var gap, kind := HandleMessage(m, now);
        missed := Wrap(missed + gap);
        if kind == Data {
          return missed, 0, Some(m);
        }
      }
    }

    method HandleMessage(m: Message, now: nat) returns (missed: nat, kind: Kind)
      modifies this`track
      ensures Handled(track, missed, kind) == Handle(old(track), m, now)
    {
      var known, gap := m.runtimeId in track, 0;
      if known {
        gap := Gap(m.sequence, track[m.runtimeId].sequence);
      } else if |track| > MAX_PUBLISHERS_COUNT + 10 {
        PruneTrack();
      }
      if gap < 0 {
        return 0, Duplicate;
      }
      if !IsControl(m.data) {
        track := track[m.runtimeId := Info(now, m.sequence)];
        return gap, Data;
      }
      if m.data == CONTROL_DEINIT && known {
        track := track - {m.runtimeId};
      }
      return gap, Control;
    }

    /** Publishers by the time they were last touched. */
    method GroupByTime() returns (groups: map<nat, seq<string>>)
      ensures forall t | t in groups :: forall r | r in groups[t] :: r in track && track[r].epochSecs == t
      ensures forall r | r in track :: track[r].epochSecs in groups && r in groups[track[r].epochSecs]
    {
      groups := map[];
      var todo := track.Keys;
      while todo != {}
        invariant todo <= track.Keys
        invariant forall t | t in groups :: forall r | r in groups[t] :: r in track && track[r].epochSecs == t
        invariant forall r | r in track && r !in todo :: track[r].epochSecs in groups && r in groups[track[r].epochSecs]
        decreases |todo|
      {
        var r :| r in todo;
        var t := track[r].epochSecs;
        groups := groups[t := (if t in groups then groups[t] else []) + [r]];
        todo := todo - {r};
      }
    }

    /** prune_track: whole groups go, the earliest first, while the map is over the limit. */
    method PruneTrack()
      modifies this`track
      ensures track == Prune(old(track))
    {
      hide Prune;
      var groups := GroupByTime();
      var times := groups.Keys;
      ghost var all := track;
      while times != {} && |track| > MAX_PUBLISHERS_COUNT
        invariant times <= groups.Keys
        invariant Pruning(all, track, groups.Keys, times)
        decreases |times|
      {
        var t := Lowest(times);
        ghost var before := track;
        EraseAll(groups[t]);
        GroupErased(all, before, groups.Keys, times, t, groups[t]);
        times := times - {t};
      }
      Pruned(all, track, groups.Keys, times);
    }

    method EraseAll(ids: seq<string>)
      modifies this`track
      ensures track == map r | r in old(track) && r !in ids :: old(track)[r]
    {
      for i := 0 to |ids|
        invariant track == map r | r in old(track) && r !in ids[..i] :: old(track)[r]
      {
        track := track - {ids[i]};
        assert ids[..i + 1] == ids[..i] + [ids[i]];
      }
      assert ids[..|ids|] == ids;
    }
  }

  /** The groups not in `times` are gone: the earliest ones, each while the map was over the limit. */
  ghost predicate Pruning(all: Track, track: Track, groups: set<nat>, times: set<nat>) {
    && (forall r | r in all :: all[r].epochSecs in groups)
    && (forall t, u | t in groups && t !in times && u in times :: t < u)
    && track == (map r | r in all && all[r].epochSecs in times :: all[r])
    && (forall t | t in groups && t !in times :: |AtLeast(all, t)| > MAX_PUBLISHERS_COUNT)
  }

  lemma GroupErased(all: Track, track: Track, groups: set<nat>, times: set<nat>, t: nat, ids: seq<string>)
    requires Pruning(all, track, groups, times) && times <= groups
    requires t in times && (forall u | u in times :: t <= u) && |track| > MAX_PUBLISHERS_COUNT
    requires forall r :: r in ids <==> r in all && all[r].epochSecs == t
    ensures Pruning(all, map r | r in track && r !in ids :: track[r], groups, times - {t})
  {
    assert track.Keys == AtLeast(all, t);
    assert |track| == |track.Keys|;
  }

  lemma Pruned(all: Track, track: Track, groups: set<nat>, times: set<nat>)
    requires Pruning(all, track, groups, times) && times <= groups
    requires times == {} || |track| <= MAX_PUBLISHERS_COUNT
    ensures track == Prune(all)
  {
    forall r | r in track
      ensures r in Prune(all)
    {
      FewerMembers(AtLeast(all, all[r].epochSecs), track.Keys);
      assert |track| == |track.Keys|;
    }
  }

  method Lowest(times: set<nat>) returns (low: nat)
    requires times != {}
    ensures low in times && forall t | t in times :: low <= t
  {
    low :| low in times;
    var rest := times - {low};
    while rest != {}
      invariant low in times && rest <= times
      invariant forall t | t in times && t !in rest :: low <= t
      decreases |rest|
    {
      var t :| t in rest;
      rest := rest - {t};
      if t < low {
        low := t;
      }
    }
  }
}
