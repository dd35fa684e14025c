/** What becomes of a pushed packet: which are accepted, by distance on the sequence circle, and that an accepted one
    is played at its own position unless four later ones push it out. */
module AudioPlayoutPush {
  import opened Words
  import opened AudioPlayout

  /** How far a sequence number is ahead of another, going round. */
  function Distance(sequence: u16, from: u16): u16 { Wrap16(sequence - from) }

  predicate Holds(queue: seq<Packet>, sequence: u16) { exists p :: p in queue && p.sequence == sequence }

  /** Not behind a running clock, not queued, and less than half the circle after the last one queued. */
  predicate Welcome(s: Playout, sequence: u16) {
    && (s.started ==> Distance(sequence, s.expected) < 0x8000)
    && !Holds(s.queue, sequence)
    && (|s.queue| > 0 ==> 0 < Distance(sequence, s.queue[|s.queue| - 1].sequence) < 0x8000)
  }

  /** Exactly the welcome packets are accepted, running or not: then the queue grows by the packet and loses only its
      oldest when it held four; any other leaves it alone. Each push is counted once, as what it was. */
  lemma PushAcceptsExactly(s: Playout, p: Packet)
    requires WellFormed(s)
    ensures var (t, ok) := Push(s, p); var q := s.queue;
      && (ok <==> Welcome(s, p.sequence))
      && t.queue == (if !ok then q else if |q| == 4 then q[1..] + [p] else q + [p])
      && (t.accepted, t.overruns) ==
           (s.accepted + (if ok then 1 else 0), s.overruns + if ok && |q| == 4 then 1 else 0)
      && (t.duplicates - s.duplicates, t.stale - s.stale) ==
           (if ok then (0, 0)
            else if Holds(q, p.sequence) && (s.started ==> Distance(p.sequence, s.expected) < 0x8000) then (1, 0)
            else (0, 1))
  {
    var q := s.queue;
    if Holds(q, p.sequence) {
      var x :| x in q && x.sequence == p.sequence;
      var i :| 0 <= i < |q| && q[i] == x;
      assert q[i].sequence == p.sequence;
    }
    if i :| 0 <= i < |q| && q[i].sequence == p.sequence {
      assert q[i] in q;
    }
  }

  /** In order, being after the last one queued already means not being queued. */
  lemma AfterLastIsNew(s: Playout, sequence: u16)
    requires Ordered(s) && Distance(sequence, s.expected) < 0x8000
    ensures |s.queue| > 0 && 0 < Distance(sequence, s.queue[|s.queue| - 1].sequence) < 0x8000 ==>
      Welcome(s, sequence)
  {
    var q := s.queue;
    if |q| > 0 && 0 < Distance(sequence, q[|q| - 1].sequence) < 0x8000 {
      AfterIsFurther(sequence, q[|q| - 1].sequence, Upcoming(s));
      forall p | p in q ensures p.sequence != sequence {
        var i :| 0 <= i < |q| && q[i] == p;
        assert i < |q| - 1 ==>
          Ahead(q[i].sequence, Upcoming(s)) < Ahead(q[|q| - 1].sequence, Upcoming(s));
      }
    }
  }

  // ----- until its position -----

  /** Calls left until the first half of a position is due. */
  function CallsUntil(s: Playout, sequence: u16): int { 2 * Distance(sequence, s.expected) - s.half }

  /** The packet has exactly these many behind it. */
  predicate Behind(queue: seq<Packet>, p: Packet, later: nat) { |queue| > later && queue[|queue| - 1 - later] == p }

  /** A packet has exactly these many accepted after it behind it in the queue; with four of those it is gone and
      they are all that is queued. */
  predicate InPlace(queue: seq<Packet>, p: Packet, later: nat, position: u16) {
    if later < QUEUE_CAPACITY then Behind(queue, p, later)
    else
      && |queue| == QUEUE_CAPACITY
      && forall i :: 0 <= i < |queue| ==> Ahead(queue[i].sequence, position) > Ahead(p.sequence, position)
  }

  /** The clock has not passed the first half of a position less than half the circle ahead. */
  predicate Before(s: Playout, sequence: u16) {
    s.started && Distance(sequence, s.expected) < 0x8000 && CallsUntil(s, sequence) >= 0
  }

  predicate Waits(s: Playout, p: Packet, later: nat) {
    WellFormed(s) && Ordered(s) && Before(s, p.sequence) && InPlace(s.queue, p, later, Upcoming(s))
  }

  lemma AppendedBehind(queue: seq<Packet>, p: Packet, later: nat, x: Packet, position: u16)
    requires InOrder(queue, position, 0) && InPlace(queue, p, later, position) && |queue| <= QUEUE_CAPACITY
    requires After16(x.sequence, queue[|queue| - 1].sequence)
    ensures InPlace((if |queue| == QUEUE_CAPACITY then queue[1..] else queue) + [x], p, later + 1, position)
  {
    var last := queue[|queue| - 1].sequence;
    AfterIsFurther(x.sequence, last, position);
    if later >= QUEUE_CAPACITY - 1 {
      var grown := queue[1..] + [x];
      forall i | 0 <= i < |grown| ensures Ahead(grown[i].sequence, position) > Ahead(p.sequence, position) {
        if i < |queue| - 1 {
          assert grown[i] == queue[i + 1];
        } else {
          assert grown[i] == x && (later == QUEUE_CAPACITY - 1 ==> queue[0] == p);
        }
      }
    }
  }

  lemma Nearer(sequence: u16, position: u16)
    requires Ahead(sequence, position) >= 1
    ensures Ahead(sequence, Wrap16(position + 1)) == Ahead(sequence, position) - 1
  {
  }

  lemma DistanceIsAhead(sequence: u16, expected: u16)
    requires Distance(sequence, expected) < 0x8000
    ensures Ahead(sequence, expected) == Distance(sequence, expected) + 1
    ensures !Stale(sequence, expected) && (Distance(sequence, expected) == 0 <==> sequence == expected)
    ensures Distance(sequence, expected) > 0 ==>
      Distance(sequence, Wrap16(expected + 1)) == Distance(sequence, expected) - 1
  {
  }

  lemma BehindTail(queue: seq<Packet>, p: Packet, later: nat)
    requires Behind(queue, p, later) && queue[0] != p
    ensures Behind(queue[1..], p, later)
  {
  }

  lemma {:induction false} DroppedAhead(queue: seq<Packet>, p: Packet, later: nat, expected: u16)
    requires Behind(queue, p, later) && !Stale(p.sequence, expected)
    ensures Behind(DropStale(queue, expected), p, later)
  {
    if Stale(queue[0].sequence, expected) {
      BehindTail(queue, p, later);
      DroppedAhead(queue[1..], p, later, expected);
    }
  }

  lemma LoadedAhead(queue: seq<Packet>, p: Packet, later: nat, expected: u16)
    requires Behind(queue, p, later) && !Stale(p.sequence, expected) && p.sequence != expected
    ensures Behind(TakeDue(queue, expected).1, p, later)
  {
    DroppedAhead(queue, p, later, expected);
    var kept := DropStale(queue, expected);
    if kept[0].sequence == expected {
      BehindTail(kept, p, later);
    }
  }

  lemma LoadedBeyond(queue: seq<Packet>, p: Packet, later: nat, expected: u16)
    requires later >= QUEUE_CAPACITY && InOrder(queue, expected, 0) && InPlace(queue, p, later, expected)
    requires Ahead(p.sequence, expected) >= 1
    ensures TakeDue(queue, expected).1 == queue && InPlace(queue, p, later, Wrap16(expected + 1))
  {
    FrontDecides(queue, expected);
    Nearer(p.sequence, expected);
    forall i | 0 <= i < |queue|
      ensures Ahead(queue[i].sequence, Wrap16(expected + 1)) > Ahead(p.sequence, Wrap16(expected + 1)) {
      Nearer(queue[i].sequence, expected);
    }
  }

  /** Loading an earlier position takes nothing that lies at or behind the packet. */
  lemma LoadedBefore(queue: seq<Packet>, p: Packet, later: nat, expected: u16)
    requires InOrder(queue, expected, 0) && InPlace(queue, p, later, expected)
    requires 0 < Distance(p.sequence, expected) < 0x8000
    ensures InPlace(TakeDue(queue, expected).1, p, later, Wrap16(expected + 1))
  {
    DistanceIsAhead(p.sequence, expected);
    if later < QUEUE_CAPACITY {
      LoadedAhead(queue, p, later, expected);
    } else {
      LoadedBeyond(queue, p, later, expected);
    }
  }

  lemma ClockTurns(s: Playout, t: Playout, sequence: u16)
    requires Before(s, sequence) && CallsUntil(s, sequence) > 0 && s.half < 2 && t.started
    requires (t.expected, t.half) == Turn((s.expected, s.half))
    ensures Before(t, sequence) && CallsUntil(t, sequence) == CallsUntil(s, sequence) - 1
    ensures Upcoming(t) == Wrap16(s.expected + 1)
  {
    DistanceIsAhead(sequence, s.expected);
  }

  lemma TurnedWaits(s: Playout, t: Playout, p: Packet, later: nat)
    requires Waits(s, p, later) && CallsUntil(s, p.sequence) > 0 && WellFormed(t) && Ordered(t)
    requires (t.expected, t.half) == Turn((s.expected, s.half))
    requires t.queue == if s.half == 0 then TakeDue(s.queue, s.expected).1 else s.queue
    ensures Waits(t, p, later) && CallsUntil(t, p.sequence) == CallsUntil(s, p.sequence) - 1
  {
    ClockTurns(s, t, p.sequence);
    if s.half == 0 {
      LoadedBefore(s.queue, p, later, s.expected);
    }
  }

  lemma CallWaits(s: Playout, p: Packet, later: nat)
    requires Waits(s, p, later) && CallsUntil(s, p.sequence) > 0
    ensures var t := Next(s).0;
      && Waits(t, p, later) && t.accepted == s.accepted
      && CallsUntil(t, p.sequence) == CallsUntil(s, p.sequence) - 1
  {
    NextKeepsOrder(s);
    if s.half == 0 {
      FirstHalfCall(s);
    } else {
      SecondHalfCall(s);
    }
    TurnedWaits(s, Next(s).0, p, later);
  }

  /** The packet waits, with this many calls left until its position. */
  predicate WaitsFor(s: Playout, p: Packet, later: nat, left: int) {
    Waits(s, p, later) && CallsUntil(s, p.sequence) == left
  }

  lemma SameClockWaits(s: Playout, t: Playout, p: Packet, later: nat, now: nat)
    requires Waits(s, p, later) && WellFormed(t) && Ordered(t)
    requires t.started == s.started && t.expected == s.expected && t.half == s.half
    requires InPlace(t.queue, p, now, Upcoming(s))
    ensures WaitsFor(t, p, now, CallsUntil(s, p.sequence))
  {
  }

  lemma PushWaits(s: Playout, p: Packet, later: nat, x: Packet)
    requires Waits(s, p, later)
    ensures var (t, ok) := Push(s, x);
      && t.accepted == s.accepted + (if ok then 1 else 0)
      && WaitsFor(t, p, if ok then later + 1 else later, CallsUntil(s, p.sequence))
  {
    var (t, ok) := Push(s, x);
    PushKeepsOrder(s, x);
    PushEffect(s, x);
    PushAcceptsExactly(s, x);
    if ok {
      AppendedBehind(s.queue, p, later, x, Upcoming(s));
      SameClockWaits(s, t, p, later, later + 1);
    } else {
      SameClockWaits(s, t, p, later, later);
    }
  }

  function Accepted(s: Playout, e: Event): nat
    requires WellFormed(s)
  {
    if e.PushPacket? && Push(s, e.packet).1 then 1 else 0
  }

  lemma StepWaits(s: Playout, p: Packet, later: nat, left: nat, e: Event)
    requires WaitsFor(s, p, later, left) && (e.CallNext? ==> left > 0)
    ensures Step(s, e).accepted == s.accepted + Accepted(s, e)
    ensures WaitsFor(Step(s, e), p, later + Accepted(s, e), if e.CallNext? then left - 1 else left)
  {
    match e
    case PushPacket(x) => PushWaits(s, p, later, x);
    case CallNext => CallWaits(s, p, later);
  }

  /** Since the count of accepted packets stood at the given one, each accepted packet has moved it one place. */
  predicate Through(t: Playout, p: Packet, accepted: nat, later: nat, left: int) {
    t.accepted >= accepted && WaitsFor(t, p, later + (t.accepted - accepted), left)
  }

  lemma StepThrough(u: Playout, p: Packet, accepted: nat, later: nat, left: nat, e: Event)
    requires Through(u, p, accepted, later, left) && (e.CallNext? ==> left > 0)
    ensures Through(Step(u, e), p, accepted, later, if e.CallNext? then left - 1 else left)
  {
    StepWaits(u, p, later + (u.accepted - accepted), left, e);
  }

  lemma {:induction false} WaitsThrough(s: Playout, p: Packet, later: nat, left: nat, events: seq<Event>)
    requires WaitsFor(s, p, later, left) && Calls(events) <= left
    ensures Through(After(s, events), p, s.accepted, later, left - Calls(events))
  {
    if |events| > 0 {
      var earlier, e := events[..|events| - 1], events[|events| - 1];
      WaitsThrough(s, p, later, left, earlier);
      StepThrough(After(s, earlier), p, s.accepted, later, left - Calls(earlier), e);
    }
  }

  // ----- at its position -----

  lemma {:induction false} FindsAt(queue: seq<Packet>, position: u16, i: nat)
    requires InOrder(queue, position, 0) && i < |queue| && queue[i].sequence == position
    ensures Find(queue, position) == Some(queue[i])
  {
    if i > 0 {
      assert Ahead(queue[0].sequence, position) < Ahead(queue[i].sequence, position);
      assert forall k :: 0 <= k < |queue| - 1 ==> queue[1..][k] == queue[k + 1];
      FindsAt(queue[1..], position, i - 1);
    }
  }

  /** When its first half is due, the packet is found exactly if fewer than four were accepted after it. */
  lemma FoundExactly(s: Playout, p: Packet, later: nat)
    requires Waits(s, p, later) && CallsUntil(s, p.sequence) == 0
    ensures s.half == 0 && s.expected == p.sequence
    ensures TakeDue(s.queue, s.expected).0 == if later < 4 then Some(p) else None
  {
    DistanceIsAhead(p.sequence, s.expected);
    FrontFindsDuePacket(s.queue, s.expected, 0);
    if later < 4 {
      FindsAt(s.queue, s.expected, |s.queue| - 1 - later);
    } else {
      FindMisses(s.queue, s.expected);
    }
  }

  lemma PlaysAt(u: Playout, p: Packet, accepted: nat)
    requires Through(u, p, accepted, 0, 0)
    ensures var (v, out) := Next(u);
      && (u.expected, u.half) == (p.sequence, 0)
      && v.current == (if u.accepted - accepted < 4 then Some(p) else None)
      && out == Emit(v.current, 0)
  {
    FoundExactly(u, p, u.accepted - accepted);
    FirstHalfCall(u);
  }

  lemma AcceptedWaits(s: Playout, p: Packet)
    requires WellFormed(s) && Ordered(s) && Push(s, p).1 && CallsUntil(s, p.sequence) >= 0
    ensures WaitsFor(Push(s, p).0, p, 0, CallsUntil(s, p.sequence))
  {
    PushKeepsOrder(s, p);
    PushAcceptsExactly(s, p);
    PushEffect(s, p);
  }

  /** From the moment it is accepted by a running clock: at the call for the first half of its own position the
      packet is played, or concealed if flagged missing, exactly if fewer than four packets were accepted after it;
      otherwise nothing is. And it stays loaded for the second half. */
  lemma AcceptedIsPlayedExactly(s: Playout, p: Packet, events: seq<Event>)
    requires WellFormed(s) && Ordered(s) && Push(s, p).1 && (p.sequence == s.expected ==> s.half == 0)
    requires Calls(events) == CallsUntil(s, p.sequence)
    ensures var t := Push(s, p).0; var u := After(t, events); var (v, out) := Next(u);
      && (u.expected, u.half) == (p.sequence, 0)
      && v.current == (if u.accepted - t.accepted < 4 then Some(p) else None)
      && out == Emit(v.current, 0)
  {
    var t := Push(s, p).0;
    AcceptedWaits(s, p);
    WaitsThrough(t, p, 0, CallsUntil(s, p.sequence), events);
    PlaysAt(After(t, events), p, t.accepted);
  }

  lemma {:induction false} LateClock(s: Playout, events: seq<Event>)
    requires WellFormed(s) && s.started && s.half == 1 && Calls(events) <= 1
    ensures var u := After(s, events);
      u.started && (u.expected, u.half) == if Calls(events) == 0 then (s.expected, 1) else Turn((s.expected, 1))
  {
    if |events| > 0 {
      var earlier := events[..|events| - 1];
      LateClock(s, earlier);
      match events[|events| - 1]
      case PushPacket(x) => PushEffect(After(s, earlier), x);
      case CallNext => SecondHalfCall(After(s, earlier));
    }
  }

  predicate GoneFrom(current: Option<Packet>, queue: seq<Packet>, p: Packet) { current != Some(p) && p !in queue }

  lemma Overtaken(queue: seq<Packet>, p: Packet, position: u16)
    requires InOrder(queue, position, 0) && Ahead(p.sequence, position) == 0
    ensures GoneFrom(TakeDue(queue, position).0, TakeDue(queue, position).1, p)
  {
    FrontFindsDuePacket(queue, position, 0);
    StaleIsBehind(p.sequence, position);
  }

  predicate Overdue(u: Playout, p: Packet) { u.started && u.half == 0 && Ahead(p.sequence, u.expected) == 0 }

  lemma LeftBehind(u: Playout, p: Packet)
    requires WellFormed(u) && InOrder(u.queue, u.expected, 0) && Overdue(u, p)
    ensures GoneFrom(Next(u).0.current, Next(u).0.queue, p)
  {
    FirstHalfCall(u);
    Overtaken(u.queue, p, u.expected);
  }

  lemma BecomesOverdue(t: Playout, p: Packet, events: seq<Event>)
    requires WellFormed(t) && t.started && t.expected == p.sequence && t.half == 1 && Calls(events) == 1
    ensures Overdue(After(t, events), p)
  {
    LateClock(t, events);
  }

  lemma OrderedAtLoad(t: Playout, events: seq<Event>)
    requires WellFormed(t) && Ordered(t)
    ensures After(t, events).half == 0 ==> InOrder(After(t, events).queue, After(t, events).expected, 0)
  {
    OrderedRun(t, events);
  }

  lemma IsLeftBehind(t: Playout, p: Packet, events: seq<Event>)
    requires WellFormed(t) && Ordered(t) && t.expected == p.sequence && t.half == 1 && Calls(events) == 1
    ensures var v := Next(After(t, events)).0; GoneFrom(v.current, v.queue, p)
  {
    OrderedAtLoad(t, events);
    BecomesOverdue(t, p, events);
    LeftBehind(After(t, events), p);
  }

  /** A packet whose position is half played is accepted too, but never played: the load that comes next drops it. */
  lemma HalfPlayedIsDropped(s: Playout, p: Packet, events: seq<Event>)
    requires WellFormed(s) && Ordered(s) && Push(s, p).1 && p.sequence == s.expected && s.half == 1
    requires Calls(events) == 1
    ensures var v := Next(After(Push(s, p).0, events)).0; p !in v.queue && v.current != Some(p)
  {
    var t := Push(s, p).0;
    PushKeepsOrder(s, p);
    PushEffect(s, p);
    IsLeftBehind(t, p, events);
  }

  /** The next call after that, whatever is pushed in between, is for the second half of the same packet. */
  lemma {:induction false} SecondHalfFollows(v: Playout, pushes: seq<Event>)
    requires WellFormed(v) && v.started && v.half == 1 && Calls(pushes) == 0
    ensures var w := After(v, pushes);
      w.half == 1 && w.current == v.current && Next(w).1 == Emit(v.current, 1)
  {
    if |pushes| > 0 {
      SecondHalfFollows(v, pushes[..|pushes| - 1]);
      var w := After(v, pushes[..|pushes| - 1]);
      PushEffect(w, pushes[|pushes| - 1].packet);
    }
    SecondHalfCall(After(v, pushes));
  }
}
