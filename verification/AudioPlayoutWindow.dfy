/** Exactly when playout follows its clock: the packets waiting at the start may lie up to half the sequence
    circle behind the front one, and for every wider queue some continuation conceals a queued packet. */
module AudioPlayoutWindow {
  import opened Words
  import opened AudioPlayout

  /** Whatever is pushed from the first call on, every output is the one the clock prescribes. */
  ghost predicate FollowsClock(t: Playout)
    requires WellFormed(t) && |t.queue| > 0
  {
    forall events: seq<Event> :: Starting(events) ==>
      Next(After(t, events)).1 == Prescribed(Start(t), t.queue[0].sequence, events)
  }

  // ----- runs that start the clock -----

  lemma AfterOneMore(s: Playout, events: seq<Event>, e: Event)
    requires WellFormed(s)
    ensures After(s, events + [e]) == Step(After(s, events), e)
    ensures Calls(events + [e]) == Calls(events) + if e.CallNext? then 1 else 0
  {
    assert (events + [e])[..|events|] == events;
  }

  predicate Opens(events: seq<Event>) { |events| > 0 && events[0].CallNext? }

  ghost predicate Leads(t: Playout, u: Playout)
    requires WellFormed(t)
  {
    exists events: seq<Event> :: Opens(events) && After(t, events) == u
  }

  lemma LeadsOn(t: Playout, u: Playout, e: Event)
    requires WellFormed(t) && WellFormed(u) && Leads(t, u)
    ensures Leads(t, Step(u, e))
  {
    var events: seq<Event> :| Opens(events) && After(t, events) == u;
    AfterOneMore(t, events, e);
    assert Opens(events + [e]);
  }

  lemma FirstCallLeads(t: Playout)
    requires WellFormed(t)
    ensures Leads(t, Next(t).0)
  {
    AfterOneMore(t, [], CallNext);
    assert Opens([] + [CallNext]);
  }

  /** A load that misses what is queued is not what the clock prescribes. */
  lemma MissedLoad(t: Playout, u: Playout)
    requires WellFormed(t) && !t.started && |t.queue| > 0 && Leads(t, u)
    requires WellFormed(u) && u.half == 0 && Next(u).1 != Emit(Find(u.queue, u.expected), 0)
    ensures !FollowsClock(t)
  {
    var events: seq<Event> :| Opens(events) && After(t, events) == u;
    assert Starting(events);
    StartingIsPartOfTheFirstCall(t, events);
    ClockPosition(Start(t), events);
  }

  // ----- one packet position at a time -----

  function Position(front: u16, m: nat): u16 { Wrap16(front + m) }

  /** The state between two packets: the clock at a position, and what is queued. */
  predicate Between(u: Playout, position: u16, queue: seq<Packet>) {
    WellFormed(u) && u.started && u.half == 0 && u.expected == position && u.queue == queue
  }

  predicate Within(u: Playout, position: u16, queue: seq<Packet>) {
    WellFormed(u) && u.started && u.half == 1 && u.expected == position && u.queue == queue
  }

  lemma LoadLeads(t: Playout, u: Playout, position: u16, queue: seq<Packet>) returns (v: Playout)
    requires WellFormed(t) && Between(u, position, queue) && Leads(t, u)
    ensures Leads(t, v) && Within(v, position, TakeDue(queue, position).1)
  {
    LeadsOn(t, u, CallNext);
    FirstHalfCall(u);
    v := Next(u).0;
  }

  lemma MoveLeads(t: Playout, u: Playout, position: u16, queue: seq<Packet>) returns (v: Playout)
    requires WellFormed(t) && Within(u, position, queue) && Leads(t, u)
    ensures Leads(t, v) && Between(v, Position(position, 1), queue)
  {
    v := Next(u).0;
    SecondHalfCall(u);
    assert Between(v, Position(position, 1), queue);
    LeadsOn(t, u, CallNext);
  }

  lemma LaterIsNotDue(sequence: u16, position: u16)
    requires After16(sequence, position)
    ensures sequence != position && !Stale(sequence, position)
  {
    assert sequence - position != 0;
  }

  lemma LivesOn(queue: seq<Packet>, position: u16)
    requires |queue| > 0 && After16(queue[0].sequence, position)
    ensures TakeDue(queue, position) == (None, queue)
  {
    LaterIsNotDue(queue[0].sequence, position);
  }

  /** A position passes with a later packet at the front: nothing is taken, whatever else is queued. */
  lemma IdleRound(t: Playout, u: Playout, position: u16, queue: seq<Packet>) returns (v: Playout)
    requires WellFormed(t) && Between(u, position, queue) && Leads(t, u)
    requires |queue| > 0 && After16(queue[0].sequence, position)
    ensures Leads(t, v) && Between(v, Position(position, 1), queue)
  {
    LivesOn(queue, position);
    v := LoadLeads(t, u, position, queue);
    v := MoveLeads(t, v, position, queue);
  }

  lemma PlayRound(t: Playout, u: Playout, position: u16, queue: seq<Packet>) returns (v: Playout)
    requires WellFormed(t) && Between(u, position, queue) && Leads(t, u)
    requires |queue| > 0 && queue[0].sequence == position
    ensures Leads(t, v) && Between(v, Position(position, 1), queue[1..])
  {
    FrontIsDue(queue);
    v := LoadLeads(t, u, position, queue);
    v := MoveLeads(t, v, position, queue[1..]);
  }

  // ----- pushing the packet that is due -----

  predicate Queued(queue: seq<Packet>, sequence: u16) {
    exists i :: 0 <= i < |queue| && queue[i].sequence == sequence
  }

  function Room(queue: seq<Packet>): seq<Packet> { if |queue| == QUEUE_CAPACITY then queue[1..] else queue }

  /** The packet of the current position is accepted behind whatever it serially follows. */
  lemma PushDue(t: Playout, u: Playout, p: Packet) returns (v: Playout)
    requires WellFormed(t) && WellFormed(u) && u.started && Leads(t, u)
    requires |u.queue| > 0 && p.sequence == u.expected && !Queued(u.queue, p.sequence)
    requires After16(p.sequence, u.queue[|u.queue| - 1].sequence)
    ensures Leads(t, v) && WellFormed(v) && v.started && v.half == u.half && v.expected == u.expected
    ensures v.queue == Room(u.queue) + [p]
  {
    LeadsOn(t, u, PushPacket(p));
    v := Push(u, p).0;
  }

  lemma {:induction false} FindLast(queue: seq<Packet>, p: Packet)
    requires !Queued(queue, p.sequence)
    ensures Find(queue + [p], p.sequence) == Some(p)
  {
    if |queue| > 0 {
      assert queue[0].sequence != p.sequence;
      assert (queue + [p])[1..] == queue[1..] + [p];
      FindLast(queue[1..], p);
    } else {
      assert queue + [p] == [p];
    }
  }

  lemma HiddenBehindFront(u: Playout, p: Packet)
    requires Between(u, p.sequence, u.queue) && |u.queue| > 0 && After16(u.queue[0].sequence, p.sequence)
    requires Find(u.queue, p.sequence) == Some(p) && p.flags == 3
    ensures Next(u).1 != Emit(Find(u.queue, u.expected), 0)
  {
    FirstHalfCall(u);
    LivesOn(u.queue, p.sequence);
  }

  lemma RoomKeepsOut(queue: seq<Packet>, sequence: u16)
    requires !Queued(queue, sequence)
    ensures !Queued(Room(queue), sequence)
  {
  }

  /** Pushed behind a packet of a later position, the due packet is queued but not played. */
  lemma PushHides(t: Playout, u: Playout, position: u16, queue: seq<Packet>, p: Packet)
    requires WellFormed(t) && !t.started && |t.queue| > 0 && Leads(t, u) && Between(u, position, queue)
    requires p.sequence == position && p.flags == 3 && !Queued(queue, position)
    requires |queue| > 0 && After16(position, queue[|queue| - 1].sequence)
    requires |Room(queue)| > 0 && After16(Room(queue)[0].sequence, position)
    ensures !FollowsClock(t)
  {
    var v := PushDue(t, u, p);
    RoomKeepsOut(queue, position);
    FindLast(Room(queue), p);
    assert v.queue[0] == Room(queue)[0];
    HiddenBehindFront(v, p);
    MissedLoad(t, v);
  }

  // ----- every wide queue has such a moment -----

  /** How far behind the front packet a sequence number is. */
  function Offset(sequence: u16, front: u16): u16 { Wrap16(sequence - front) }

  function Due(position: u16, payload: Payload): Packet { Packet(position, 3, payload) }

  lemma NextPosition(front: u16, m: nat)
    ensures Position(Position(front, m), 1) == Position(front, m + 1)
  {
    WrapSum16(front + m, 1);
  }

  lemma OffsetOfPosition(front: u16, m: nat)
    requires m < 0x1_0000
    ensures Offset(Position(front, m), front) == m
  {
  }

  lemma SeenFrom(sequence: u16, front: u16, m: nat)
    requires m < 0x8000
    ensures m < Offset(sequence, front) < m + 0x8000 ==> After16(sequence, Position(front, m))
    ensures Offset(sequence, front) != m ==> sequence != Position(front, m)
    ensures Offset(sequence, front) > m + 0x8000 ==> After16(Position(front, m), sequence)
    ensures Offset(sequence, front) < m ==> After16(Position(front, m), sequence)
  {
    OffsetOfPosition(front, m);
  }

  lemma StepOfChain(next: u16, last: u16, front: u16)
    requires After16(next, last)
    ensures var a, b := Offset(last, front), Offset(next, front);
      a < b < a + 0x8000 || b + 0x1_0000 < a + 0x8000
  {
  }

  lemma Opening(t: Playout) returns (u: Playout)
    requires WellFormed(t) && !t.started && |t.queue| > 0
    ensures Leads(t, u) && Within(u, t.queue[0].sequence, t.queue[1..])
  {
    u := Next(t).0;
    FirstCallLeads(t);
    FirstHalfCall(t);
    FrontIsDue(t.queue);
  }

  lemma Refill(t: Playout, u: Playout, queue: seq<Packet>, p: Packet) returns (v: Playout)
    requires WellFormed(t) && Leads(t, u) && Within(u, p.sequence, queue) && 0 < |queue| < QUEUE_CAPACITY
    requires !Queued(queue, p.sequence) && After16(p.sequence, queue[|queue| - 1].sequence)
    ensures Leads(t, v) && Between(v, Position(p.sequence, 1), queue + [p])
  {
    v := PushDue(t, u, p);
    v := MoveLeads(t, v, p.sequence, queue + [p]);
  }

  // ----- the cases: which packet is the first too far behind, and what comes after it -----

  /** Nothing in the queue is for this position. */
  lemma NoneFor(queue: seq<Packet>, front: u16, m: nat)
    requires m < 0x8000 && forall i :: 0 <= i < |queue| ==> Offset(queue[i].sequence, front) != m
    ensures !Queued(queue, Position(front, m))
  {
    forall i | 0 <= i < |queue| ensures queue[i].sequence != Position(front, m) {
      SeenFrom(queue[i].sequence, front, m);
    }
  }

  lemma NewBehind(queue: seq<Packet>, f: u16)
    requires |queue| > 0 && Offset(queue[|queue| - 1].sequence, f) > 0x8000
    requires forall i :: 0 <= i < |queue| ==> Offset(queue[i].sequence, f) != 0
    ensures !Queued(queue, f) && After16(f, queue[|queue| - 1].sequence)
  {
    assert Position(f, 0) == f;
    SeenFrom(queue[|queue| - 1].sequence, f, 0);
    NoneFor(queue, f, 0);
  }

  /** The first packet again, pushed while its position is being played, is accepted behind one too far back. */
  lemma OpenAndRefill(t: Playout, f: u16, queue: seq<Packet>, payload: Payload) returns (v: Playout)
    requires WellFormed(t) && !t.started && |t.queue| > 1 && t.queue[0].sequence == f && t.queue[1..] == queue
    requires forall i :: 0 <= i < |queue| ==> Offset(queue[i].sequence, f) != 0
    requires Offset(queue[|queue| - 1].sequence, f) > 0x8000
    ensures Leads(t, v) && Between(v, Position(f, 1), queue + [Due(f, payload)])
  {
    v := Opening(t);
    NewBehind(queue, f);
    v := Refill(t, v, queue, Due(f, payload));
  }

  lemma ThreeWaiting(t: Playout, f: u16, a: Packet, b: Packet, payload: Payload)
    requires WellFormed(t) && !t.started && |t.queue| == 3 && t.queue[0].sequence == f && t.queue[1..] == [a, b]
    requires 2 <= Offset(a.sequence, f) < 0x8000 && Offset(b.sequence, f) > 0x8000
    ensures !FollowsClock(t)
  {
    var v := OpenAndRefill(t, f, [a, b], payload);
    assert [a, b] + [Due(f, payload)] == [a, b, Due(f, payload)];
    BehindAll(t, v, f, 1, [a, b, Due(f, payload)], payload);
  }

  lemma {:induction false} IdleRounds(t: Playout, u: Playout, f: u16, m: nat, k: nat, queue: seq<Packet>)
    returns (v: Playout)
    requires WellFormed(t) && Leads(t, u) && Between(u, Position(f, m), queue) && |queue| > 0
    requires m <= k < Offset(queue[0].sequence, f) < 0x8000
    ensures Leads(t, v) && Between(v, Position(f, k), queue)
    decreases k - m
  {
    v := u;
    if m < k {
      SeenFrom(queue[0].sequence, f, m);
      NextPosition(f, m);
      v := IdleRound(t, u, Position(f, m), queue);
      v := IdleRounds(t, v, f, m + 1, k, queue);
    }
  }

  /** Up to any position before the second packet's, nothing but the first packet is played. */
  lemma WaitForSecond(t: Playout, f: u16, queue: seq<Packet>, m: nat) returns (v: Playout)
    requires WellFormed(t) && !t.started && |t.queue| > 1 && t.queue[0].sequence == f && t.queue[1..] == queue
    requires 1 <= m < Offset(queue[0].sequence, f) < 0x8000
    ensures Leads(t, v) && Between(v, Position(f, m), queue)
  {
    v := Opening(t);
    v := MoveLeads(t, v, f, queue);
    v := IdleRounds(t, v, f, 1, m, queue);
  }

  /** A position not queued, serially after the last packet, comes due while the second is at the front. */
  lemma DueBehindSecond(t: Playout, f: u16, a: Packet, b: Packet, c: Packet, m: nat, payload: Payload)
    requires WellFormed(t) && !t.started && |t.queue| == 4 && t.queue[0].sequence == f && t.queue[1..] == [a, b, c]
    requires 1 <= m < Offset(a.sequence, f) < 0x8000
    requires Offset(b.sequence, f) != m && Offset(c.sequence, f) != m && After16(Position(f, m), c.sequence)
    ensures !FollowsClock(t)
  {
    var v := WaitForSecond(t, f, [a, b, c], m);
    SeenFrom(a.sequence, f, m);
    NoneFor([a, b, c], f, m);
    PushHides(t, v, Position(f, m), [a, b, c], Due(Position(f, m), payload));
  }

  /** The third packet is too far behind. The fourth is further still, or has come round to before the second:
      then the position after it comes due while the second is still at the front. */
  lemma ThirdTooFar(t: Playout, f: u16, a: Packet, b: Packet, c: Packet, payload: Payload)
    requires WellFormed(t) && !t.started && |t.queue| == 4 && t.queue[0].sequence == f && t.queue[1..] == [a, b, c]
    requires 2 <= Offset(a.sequence, f) < 0x8000 && Offset(b.sequence, f) > 0x8000
    requires Offset(b.sequence, f) < Offset(c.sequence, f) || Offset(c.sequence, f) + 2 <= Offset(a.sequence, f)
    ensures !FollowsClock(t)
  {
    var m := if Offset(b.sequence, f) < Offset(c.sequence, f) then 1 else Offset(c.sequence, f) + 1;
    SeenFrom(c.sequence, f, m);
    DueBehindSecond(t, f, a, b, c, m, payload);
  }

  lemma FromOffset(sequence: u16, front: u16)
    ensures sequence == Position(front, Offset(sequence, front))
  {
  }

  /** Only the fourth is too far behind. The first position not queued comes due with a later packet in front. */
  lemma FourthTooFar(t: Playout, f: u16, a: Packet, b: Packet, c: Packet, payload: Payload)
    requires WellFormed(t) && !t.started && |t.queue| == 4 && t.queue[0].sequence == f && t.queue[1..] == [a, b, c]
    requires 1 <= Offset(a.sequence, f) < Offset(b.sequence, f) <= 0x8000 < Offset(c.sequence, f)
    requires Offset(a.sequence, f) < 0x8000 && Offset(c.sequence, f) < Offset(b.sequence, f) + 0x8000
    ensures !FollowsClock(t)
  {
    var v := OpenAndRefill(t, f, [a, b, c], payload);
    assert [a, b, c] + [Due(f, payload)] == [a, b, c, Due(f, payload)];
    FirstGap(t, v, f, a, b, c, Due(f, payload));
  }

  lemma FirstGap(t: Playout, u: Playout, f: u16, a: Packet, b: Packet, c: Packet, p: Packet)
    requires WellFormed(t) && !t.started && |t.queue| > 0 && Leads(t, u) && Between(u, Position(f, 1), [a, b, c, p])
    requires 1 <= Offset(a.sequence, f) < Offset(b.sequence, f) <= 0x8000 < Offset(c.sequence, f)
    requires Offset(a.sequence, f) < 0x8000 && Offset(c.sequence, f) < Offset(b.sequence, f) + 0x8000
    requires p.sequence == f
    ensures !FollowsClock(t)
  {
    if Offset(a.sequence, f) > 1 {
      BehindAll(t, u, f, 1, [a, b, c, p], p.payload);
    } else {
      var v := PlayOn(t, u, f, 1, [a, b, c, p]);
      assert [a, b, c, p][1..] == [b, c, p];
      SecondGap(t, v, f, b, c, p);
    }
  }

  lemma SecondGap(t: Playout, u: Playout, f: u16, b: Packet, c: Packet, p: Packet)
    requires WellFormed(t) && !t.started && |t.queue| > 0 && Leads(t, u) && Between(u, Position(f, 2), [b, c, p])
    requires 1 < Offset(b.sequence, f) <= 0x8000 < Offset(c.sequence, f) < Offset(b.sequence, f) + 0x8000
    requires p.sequence == f
    ensures !FollowsClock(t)
  {
    if Offset(b.sequence, f) > 2 {
      BehindAll(t, u, f, 2, [b, c, p], p.payload);
    } else {
      var v := PlayOn(t, u, f, 2, [b, c, p]);
      assert [b, c, p][1..] == [c, p];
      BehindAll(t, v, f, 3, [c, p], p.payload);
    }
  }

  lemma PlayOn(t: Playout, u: Playout, f: u16, m: nat, queue: seq<Packet>) returns (v: Playout)
    requires WellFormed(t) && Leads(t, u) && Between(u, Position(f, m), queue)
    requires |queue| > 0 && Offset(queue[0].sequence, f) == m
    ensures Leads(t, v) && Between(v, Position(f, m + 1), queue[1..])
  {
    FromOffset(queue[0].sequence, f);
    NextPosition(f, m);
    v := PlayRound(t, u, Position(f, m), queue);
  }

  /** With a packet of the first position at the back, the due one can be pushed behind it. */
  lemma BehindAll(t: Playout, v: Playout, f: u16, m: nat, queue: seq<Packet>, payload: Payload)
    requires WellFormed(t) && !t.started && |t.queue| > 0 && Leads(t, v) && Between(v, Position(f, m), queue)
    requires 1 <= m < 0x8000 && |queue| > 1 && queue[|queue| - 1].sequence == f
    requires forall i :: 0 <= i < |queue| ==> Offset(queue[i].sequence, f) != m
    requires m < Offset(Room(queue)[0].sequence, f) < m + 0x8000
    ensures !FollowsClock(t)
  {
    SeenFrom(f, f, m);
    SeenFrom(Room(queue)[0].sequence, f, m);
    NoneFor(queue, f, m);
    PushHides(t, v, Position(f, m), queue, Due(Position(f, m), payload));
  }

  lemma WideQueueMisses(t: Playout, payload: Payload)
    requires WellFormed(t) && !t.started && |t.queue| > 0 && Chained(t.queue) && !WithinHalfCircle(t.queue)
    ensures !FollowsClock(t)
  {
    var q, f := t.queue, t.queue[0].sequence;
    assert Offset(f, f) == 0;
    assert |q| > 1;
    StepOfChain(q[1].sequence, f, f);
    assert |q| > 2;
    StepOfChain(q[2].sequence, q[1].sequence, f);
    if |q| == 3 {
      ThreeWaiting(t, f, q[1], q[2], payload);
    } else {
      StepOfChain(q[3].sequence, q[2].sequence, f);
      if Offset(q[2].sequence, f) > 0x8000 {
        ThirdTooFar(t, f, q[1], q[2], q[3], payload);
      } else {
        FourthTooFar(t, f, q[1], q[2], q[3], payload);
      }
    }
  }

  /** The exact condition. From power-up, any pushes and early calls: whatever happens from the first call on,
      every output is the prescribed one, if and only if no waiting packet is more than half the circle behind
      the front one. */
  lemma FollowsClockExactly(waiting: seq<Event>)
    requires var t := After(Initial, waiting); !t.started && |t.queue| > 0
    ensures var t := After(Initial, waiting); FollowsClock(t) <==> WithinHalfCircle(t.queue)
  {
    var t := After(Initial, waiting);
    if WithinHalfCircle(t.queue) {
      forall events: seq<Event> | Starting(events)
        ensures Next(After(t, events)).1 == Prescribed(Start(t), t.queue[0].sequence, events) {
        PlayoutRefinesClock(waiting, events);
      }
    } else {
      UnstartedQueueIsChained(waiting);
      WideQueueMisses(t, seq(PAYLOAD_BYTES, _ => 0));
    }
  }

  // ----- a queue that is too wide -----

  lemma TakesNewest(t: Playout, p: Packet)
    requires !t.started && |t.queue| < QUEUE_CAPACITY && !Queued(t.queue, p.sequence)
    requires |t.queue| > 0 ==> After16(p.sequence, t.queue[|t.queue| - 1].sequence)
    ensures !Push(t, p).0.started && Push(t, p).0.queue == t.queue + [p]
  {
  }

  ghost predicate WaitingAre(waiting: seq<Event>, queue: seq<Packet>) {
    !After(Initial, waiting).started && After(Initial, waiting).queue == queue
  }

  lemma WaitingTakes(events: seq<Event>, queue: seq<Packet>, p: Packet)
    requires WaitingAre(events, queue) && |queue| < QUEUE_CAPACITY && !Queued(queue, p.sequence)
    requires |queue| > 0 ==> After16(p.sequence, queue[|queue| - 1].sequence)
    ensures WaitingAre(events + [PushPacket(p)], queue + [p])
  {
    AfterOneMore(Initial, events, PushPacket(p));
    TakesNewest(After(Initial, events), p);
  }

  function WideWindow(payload: Payload): seq<Packet> {
    [Packet(0, 3, payload), Packet(30000, 3, payload), Packet(60000, 3, payload), Packet(1, 3, payload)]
  }

  lemma WideWindowTakes(payload: Payload, k: nat)
    requires k < 4
    ensures var w := WideWindow(payload);
      && !Queued(w[..k], w[k].sequence)
      && (k > 0 ==> After16(w[k].sequence, w[k - 1].sequence))
  {
  }

  lemma {:induction false} WideWindowFills(payload: Payload, k: nat) returns (waiting: seq<Event>)
    requires k <= 4
    ensures WaitingAre(waiting, WideWindow(payload)[..k])
  {
    var w := WideWindow(payload);
    if k == 0 {
      waiting := [];
    } else {
      waiting := WideWindowFills(payload, k - 1);
      WideWindowTakes(payload, k - 1);
      WaitingTakes(waiting, w[..k - 1], w[k - 1]);
      assert w[..k] == w[..k - 1] + [w[k - 1]];
      waiting := waiting + [PushPacket(w[k - 1])];
    }
  }

  lemma WideWindowIsReachable(payload: Payload) returns (waiting: seq<Event>)
    ensures !After(Initial, waiting).started
    ensures After(Initial, waiting).queue == WideWindow(payload)
  {
    waiting := WideWindowFills(payload, 4);
    assert WideWindow(payload)[..4] == WideWindow(payload);
  }

  lemma WideWindowIsWide(payload: Payload)
    ensures !WithinHalfCircle(WideWindow(payload))
  {
    assert Wrap16(WideWindow(payload)[2].sequence - WideWindow(payload)[0].sequence) > 0x8000;
  }

  /** Four pushes from power-up leave 0, 30000, 60000 and 1 waiting, too wide a queue to follow the clock. */
  lemma WideWindowMisses(payload: Payload) returns (waiting: seq<Event>)
    ensures var t := After(Initial, waiting); !t.started && t.queue == WideWindow(payload) && !FollowsClock(t)
  {
    waiting := WideWindowIsReachable(payload);
    WideWindowIsWide(payload);
    FollowsClockExactly(waiting);
  }

  lemma WideWindowFirstPacket(s: Playout, payload: Payload)
    requires WellFormed(s) && !s.started && s.queue == WideWindow(payload)
    ensures var t := Next(Next(s).0).0;
      t.started && t.half == 0 && t.expected == 1 && t.queue == WideWindow(payload)[1..]
  {
    var w := WideWindow(payload);
    assert TakeDue(w, 0) == (Some(w[0]), w[1..]);
    var u := Next(s).0;
    assert u.started && u.half == 1 && u.expected == 0 && u.queue == w[1..];
  }

  /** From there position 1 comes due after two calls while 30000 is at the front; 30000 is
      not stale, so packet 1 is concealed though it is queued with both flags set. */
  lemma WideWindowHidesDuePacket(s: Playout, payload: Payload)
    requires WellFormed(s) && !s.started && s.queue == WideWindow(payload)
    ensures var t := Next(Next(s).0).0;
      && t.expected == 1 && t.half == 0 && Find(t.queue, 1) == Some(Packet(1, 3, payload))
      && Next(t).1 == Conceal
  {
    var w := WideWindow(payload);
    WideWindowFirstPacket(s, payload);
    var t := Next(Next(s).0).0;
    WideWindowSearch(payload);
  }

  lemma WideWindowSearch(payload: Payload)
    ensures var q := WideWindow(payload)[1..];
      Find(q, 1) == Some(Packet(1, 3, payload)) && TakeDue(q, 1) == (None, q)
  {
    var q := WideWindow(payload)[1..];
    assert q[1..][1..] == [Packet(1, 3, payload)];
    assert Find([Packet(1, 3, payload)], 1) == Some(Packet(1, 3, payload));
  }
}
