/** The per-source jitter buffer: a ring of four packets ordered by 16-bit serial numbers, read
    out one codec half-frame at a time. */
module AudioPlayout {
  import opened Words

  const QUEUE_CAPACITY: nat := 4
  const CODEC_FRAME_BYTES: nat := 40
  const PAYLOAD_BYTES: nat := 80

  type Payload = p: seq<Byte> | |p| == PAYLOAD_BYTES witness seq(PAYLOAD_BYTES, _ => 0)

  datatype Packet = Packet(sequence: u16, flags: Byte, payload: Payload) {
    predicate HalfValid(half: nat) {
      if half == 0 then flags % 2 == 1 else flags / 2 % 2 == 1
    }

    function Half(half: nat): (frame: seq<Byte>)
      requires half < 2
      ensures |frame| == CODEC_FRAME_BYTES
    {
      payload[half * CODEC_FRAME_BYTES..half * CODEC_FRAME_BYTES + CODEC_FRAME_BYTES]
    }
  }

  /** What one call to next hands the decoder: a codec frame, or a request to conceal. */
  datatype Output = Conceal | Deliver(frame: seq<Byte>)

  /** The abstract value of one source: the ring as a sequence, oldest packet first. */
  datatype Playout = Playout(
    queue: seq<Packet>, started: bool, expected: u16, half: nat, current: Option<Packet>,
    accepted: nat, duplicates: nat, stale: nat, overruns: nat, concealed: nat, delivered: nat)

  const Initial := Playout([], false, 0, 0, None, 0, 0, 0, 0, 0, 0)

  predicate WellFormed(s: Playout) {
    && s.half < 2
    && |s.queue| <= QUEUE_CAPACITY
    && (!s.started ==> s.half == 0 && s.current == None)
    && (s.half == 0 ==> s.current == None)
  }

  predicate Stale(sequence: u16, expected: u16) {
    sequence != expected && !After16(sequence, expected)
  }

  function DropStale(queue: seq<Packet>, expected: u16): (rest: seq<Packet>)
    ensures |rest| <= |queue| && rest == queue[|queue| - |rest|..]
  {
    if |queue| > 0 && Stale(queue[0].sequence, expected) then DropStale(queue[1..], expected)
    else queue
  }

  datatype Verdict = Accept | Duplicate | TooOld

  function Judge(s: Playout, sequence: u16): Verdict {
    if s.started && Stale(sequence, s.expected) then TooOld
    else if exists i :: 0 <= i < |s.queue| && s.queue[i].sequence == sequence then Duplicate
    else if |s.queue| > 0 && !After16(sequence, s.queue[|s.queue| - 1].sequence) then TooOld
    else Accept
  }

  function Insert(s: Playout, p: Packet): Playout {
    var full := |s.queue| == QUEUE_CAPACITY;
    s.(queue := (if full then s.queue[1..] else s.queue) + [p],
       overruns := if full then s.overruns + 1 else s.overruns,
       accepted := s.accepted + 1)
  }

  function Push(s: Playout, p: Packet): (r: (Playout, bool))
    ensures WellFormed(s) ==> WellFormed(r.0)
  {
    match Judge(s, p.sequence)
    case Accept => (Insert(s, p), true)
    case Duplicate => (s.(duplicates := s.duplicates + 1), false)
    case TooOld => (s.(stale := s.stale + 1), false)
  }

  /** The first call on a nonempty queue fixes the clock to the packet at the front. */
  function Start(s: Playout): Playout {
    if s.started || |s.queue| == 0 then s
    else s.(started := true, expected := s.queue[0].sequence)
  }

  /** What the front of the ring yields for a position, and what stays queued. */
  function TakeDue(queue: seq<Packet>, expected: u16): (r: (Option<Packet>, seq<Packet>))
    ensures |r.1| <= |queue|
  {
    var kept := DropStale(queue, expected);
    if |kept| > 0 && kept[0].sequence == expected then (Some(kept[0]), kept[1..]) else (None, kept)
  }

  function Load(s: Playout): Playout {
    var (due, rest) := TakeDue(s.queue, s.expected);
    var dropped := |s.queue| - |DropStale(s.queue, s.expected)|;
    s.(queue := rest, current := due, stale := s.stale + dropped)
  }

  function Emit(current: Option<Packet>, half: nat): Output
    requires half < 2
  {
    match current
    case Some(p) => if p.HalfValid(half) then Deliver(p.Half(half)) else Conceal
    case None => Conceal
  }

  function Count(s: Playout, out: Output): Playout {
    if out.Deliver? then s.(delivered := s.delivered + 1)
    else s.(concealed := s.concealed + 1)
  }

  function Advance(s: Playout): Playout {
    if s.half == 0 then s.(half := 1)
    else s.(half := 0, current := None, expected := Wrap16(s.expected + 1))
  }

  /** One call on a running clock: load at a packet's first half, emit, advance. */
  function Play(t: Playout): (r: (Playout, Output))
    requires t.half < 2
    ensures WellFormed(t) && t.started ==> WellFormed(r.0)
  {
    var u := if t.half == 0 then Load(t) else t;
    var out := Emit(u.current, u.half);
    (Advance(Count(u, out)), out)
  }

  function Next(s: Playout): (r: (Playout, Output))
    requires WellFormed(s)
    ensures WellFormed(r.0)
  {
    var t := Start(s);
    if !t.started then (Count(s, Conceal), Conceal) else Play(t)
  }

  // ----- runs -----

  datatype Event = PushPacket(packet: Packet) | CallNext

  function Step(s: Playout, e: Event): (t: Playout)
    requires WellFormed(s)
    ensures WellFormed(t)
  {
    match e
    case PushPacket(p) => Push(s, p).0
    case CallNext => Next(s).0
  }

  function After(s: Playout, events: seq<Event>): (t: Playout)
    requires WellFormed(s)
    ensures WellFormed(t)
  {
    if |events| == 0 then s else Step(After(s, events[..|events| - 1]), events[|events| - 1])
  }

  function Calls(events: seq<Event>): nat {
    if |events| == 0 then 0
    else Calls(events[..|events| - 1]) + (if events[|events| - 1].CallNext? then 1 else 0)
  }

  // ----- ordering inside the half circle -----

  /** Position of a sequence number on the circle, counted from the one before the given one. */
  function Ahead(sequence: u16, position: u16): u16 { Wrap16(sequence - position + 1) }

  /** Queued packets are strictly ordered, at least lowest and at most half the circle ahead. */
  predicate InOrder(queue: seq<Packet>, position: u16, lowest: nat) {
    && (forall i :: 0 <= i < |queue| ==> lowest <= Ahead(queue[i].sequence, position) <= 0x8000)
    && (forall i, j :: 0 <= i < j < |queue| ==>
          Ahead(queue[i].sequence, position) < Ahead(queue[j].sequence, position))
  }

  /** The position whose packet is loaded next. */
  function Upcoming(s: Playout): u16 { if s.half == 0 then s.expected else Wrap16(s.expected + 1) }

  predicate Ordered(s: Playout) { s.started && InOrder(s.queue, Upcoming(s), 0) }

  lemma StaleIsBehind(sequence: u16, expected: u16)
    requires Ahead(sequence, expected) <= 0x8000
    ensures Stale(sequence, expected) <==> Ahead(sequence, expected) == 0
    ensures sequence == expected <==> Ahead(sequence, expected) == 1
  {
  }

  lemma CurrentIsNear(candidate: u16, s: Playout)
    requires !Stale(candidate, s.expected)
    ensures Ahead(candidate, Upcoming(s)) <= 0x8000
  {
  }

  lemma AfterIsFurther(candidate: u16, last: u16, position: u16)
    requires Ahead(last, position) <= 0x8000 && After16(candidate, last)
    ensures Ahead(last, position) < Ahead(candidate, position)
  {
  }

  /** What a push can do to the queue; it never moves the clock. */
  lemma PushEffect(s: Playout, p: Packet)
    ensures var t := Push(s, p).0; var q := s.queue;
      && t.started == s.started && t.expected == s.expected && t.half == s.half && t.current == s.current
      && (t.queue == q || (
            && (s.started ==> !Stale(p.sequence, s.expected))
            && (|q| > 0 ==> After16(p.sequence, q[|q| - 1].sequence))
            && t.queue == (if |q| == QUEUE_CAPACITY then q[1..] else q) + [p]))
  {
  }

  lemma GrownIsOrdered(s: Playout, t: Playout, p: Packet)
    requires Ordered(s) && t.started && t.expected == s.expected && t.half == s.half
    requires !Stale(p.sequence, s.expected)
    requires |s.queue| > 0 ==> After16(p.sequence, s.queue[|s.queue| - 1].sequence)
    requires t.queue == s.queue + [p] || (|s.queue| > 0 && t.queue == s.queue[1..] + [p])
    ensures Ordered(t)
  {
    CurrentIsNear(p.sequence, s);
    InsertKeepsOrder(s.queue, p, Upcoming(s));
  }

  lemma PushKeepsOrder(s: Playout, p: Packet)
    requires Ordered(s) && WellFormed(s)
    ensures Ordered(Push(s, p).0)
  {
    PushEffect(s, p);
    if Push(s, p).0.queue != s.queue {
      GrownIsOrdered(s, Push(s, p).0, p);
    }
  }

  lemma InsertKeepsOrder(queue: seq<Packet>, p: Packet, position: u16)
    requires InOrder(queue, position, 0) && Ahead(p.sequence, position) <= 0x8000
    requires |queue| > 0 ==> After16(p.sequence, queue[|queue| - 1].sequence)
    ensures InOrder(queue + [p], position, 0)
    ensures |queue| > 0 ==> InOrder(queue[1..] + [p], position, 0)
  {
    var n := |queue|;
    if n > 0 {
      AfterIsFurther(p.sequence, queue[n - 1].sequence, position);
      AppendInOrder(queue[1..], p, position, 0);
    }
    AppendInOrder(queue, p, position, 0);
  }

  lemma AppendInOrder(queue: seq<Packet>, p: Packet, expected: u16, lowest: nat)
    requires InOrder(queue, expected, lowest)
    requires lowest <= Ahead(p.sequence, expected) <= 0x8000
    requires |queue| > 0 ==>
      Ahead(queue[|queue| - 1].sequence, expected) < Ahead(p.sequence, expected)
    ensures InOrder(queue + [p], expected, lowest)
  {
  }

  /** The packet queued for a position, wherever in the queue it stands. */
  function Find(queue: seq<Packet>, position: u16): Option<Packet> {
    if |queue| == 0 then None
    else if queue[0].sequence == position then Some(queue[0])
    else Find(queue[1..], position)
  }

  lemma {:induction false} FindMisses(queue: seq<Packet>, position: u16)
    requires forall i :: 0 <= i < |queue| ==> Ahead(queue[i].sequence, position) >= 2
    ensures Find(queue, position) == None
  {
    if |queue| > 0 {
      FindMisses(queue[1..], position);
    }
  }

  lemma RaiseFloor(queue: seq<Packet>, expected: u16, lowest: nat)
    requires |queue| > 0 && InOrder(queue, expected, lowest)
    ensures InOrder(queue, expected, Ahead(queue[0].sequence, expected))
    ensures InOrder(queue[1..], expected, Ahead(queue[0].sequence, expected) + 1)
  {
  }

  /** How the front packet decides: one position behind it is dropped, at the position it is taken, and further
      ahead it stays. */
  lemma FrontDecides(queue: seq<Packet>, expected: u16)
    requires |queue| > 0 && Ahead(queue[0].sequence, expected) <= 0x8000
    ensures var front := Ahead(queue[0].sequence, expected);
      && (front == 0 ==> TakeDue(queue, expected) == TakeDue(queue[1..], expected))
      && (front == 1 ==> TakeDue(queue, expected) == (Some(queue[0]), queue[1..]))
      && (front > 1 ==> TakeDue(queue, expected) == (None, queue))
      && (front == 1 <==> queue[0].sequence == expected)
  {
    StaleIsBehind(queue[0].sequence, expected);
  }

  /** Looking at the front of the ring after dropping stale packets finds a due packet whenever
      one is queued anywhere, and leaves only later ones. */
  lemma {:induction false} FrontFindsDuePacket(queue: seq<Packet>, expected: u16, lowest: nat)
    requires InOrder(queue, expected, lowest)
    ensures TakeDue(queue, expected).0 == Find(queue, expected)
    ensures InOrder(TakeDue(queue, expected).1, expected, 2)
  {
    if |queue| > 0 {
      FrontDecides(queue, expected);
      RaiseFloor(queue, expected, lowest);
      if Ahead(queue[0].sequence, expected) == 0 {
        FrontFindsDuePacket(queue[1..], expected, 1);
      } else if Ahead(queue[0].sequence, expected) > 1 {
        FindMisses(queue, expected);
      }
    }
  }

  lemma StepToNextPosition(queue: seq<Packet>, expected: u16)
    requires InOrder(queue, expected, 1)
    ensures InOrder(queue, Wrap16(expected + 1), 0)
  {
    forall i | 0 <= i < |queue|
      ensures Ahead(queue[i].sequence, Wrap16(expected + 1)) == Ahead(queue[i].sequence, expected) - 1
    {
    }
  }

  /** The first half's call loads; the second half's call moves the clock. */
  lemma FirstHalfCall(s: Playout)
    requires WellFormed(s) && s.half == 0 && (s.started || |s.queue| > 0)
    ensures var (t, out) := Next(s); var expected := Start(s).expected;
      && t.started && t.half == 1 && t.expected == expected
      && (t.current, t.queue) == TakeDue(s.queue, expected)
      && out == Emit(t.current, 0)
  {
  }

  lemma SecondHalfCall(s: Playout)
    requires WellFormed(s) && s.half == 1
    ensures var (t, out) := Next(s);
      && t.started && t.half == 0 && t.expected == Wrap16(s.expected + 1)
      && t.current == None && t.queue == s.queue
      && out == Emit(s.current, 1)
  {
  }

  lemma LoadingKeepsOrder(queue: seq<Packet>, expected: u16)
    requires InOrder(queue, expected, 0)
    ensures InOrder(TakeDue(queue, expected).1, Wrap16(expected + 1), 0)
  {
    FrontFindsDuePacket(queue, expected, 0);
    StepToNextPosition(TakeDue(queue, expected).1, expected);
  }

  lemma OrderedAt(t: Playout, queue: seq<Packet>, position: u16)
    requires t.started && t.queue == queue && Upcoming(t) == position && InOrder(queue, position, 0)
    ensures Ordered(t)
  {
  }

  lemma LoadedIsOrdered(t: Playout, queue: seq<Packet>, expected: u16)
    requires InOrder(queue, expected, 0) && t.started && t.half == 1 && t.expected == expected
    requires t.queue == TakeDue(queue, expected).1
    ensures Ordered(t)
  {
    LoadingKeepsOrder(queue, expected);
    OrderedAt(t, TakeDue(queue, expected).1, Wrap16(expected + 1));
  }

  lemma NextKeepsOrder(s: Playout)
    requires Ordered(s) && WellFormed(s)
    ensures Ordered(Next(s).0)
  {
    if s.half == 0 {
      FirstHalfCall(s);
      LoadedIsOrdered(Next(s).0, s.queue, s.expected);
    } else {
      SecondHalfCall(s);
      OrderedAt(Next(s).0, s.queue, Wrap16(s.expected + 1));
    }
  }

  // ----- the playout follows a simple clock -----

  lemma {:induction false} OrderedRun(s: Playout, events: seq<Event>)
    requires WellFormed(s) && Ordered(s)
    ensures Ordered(After(s, events))
  {
    if |events| > 0 {
      var earlier := events[..|events| - 1];
      OrderedRun(s, earlier);
      OrderedStep(After(s, earlier), events[|events| - 1]);
    }
  }

  lemma OrderedStep(s: Playout, e: Event)
    requires WellFormed(s) && Ordered(s)
    ensures Ordered(Step(s, e))
  {
    match e
    case PushPacket(p) => PushKeepsOrder(s, p);
    case CallNext => NextKeepsOrder(s);
  }

  /** Where the clock stands after n calls: packet position and half. */
  function Hand(start: u16, n: nat): (u16, nat) { (Wrap16(start + n / 2), n % 2) }

  function Turn(hand: (u16, nat)): (u16, nat) {
    if hand.1 == 0 then (hand.0, 1) else (Wrap16(hand.0 + 1), 0)
  }

  lemma HandTurns(start: u16, n: nat)
    ensures Hand(start, n + 1) == Turn(Hand(start, n))
  {
    HalfOfNext(n);
    WrapSum16(start + n / 2, 1);
  }

  predicate AtHand(s: Playout, start: u16, n: nat) {
    s.started && (s.expected, s.half) == Hand(start, n)
  }

  lemma OneStepOfTheClock(s: Playout, e: Event, start: u16, n: nat)
    requires WellFormed(s) && AtHand(s, start, n)
    ensures AtHand(Step(s, e), start, if e.CallNext? then n + 1 else n)
  {
    HandTurns(start, n);
    if e.CallNext? {
      assert Called(s) == Turn((s.expected, s.half));
    }
  }

  function Called(s: Playout): (u16, nat)
    requires WellFormed(s)
  {
    (Next(s).0.expected, Next(s).0.half)
  }

  lemma {:induction false} ClockPosition(s: Playout, events: seq<Event>)
    requires WellFormed(s) && s.started && s.half == 0
    ensures AtHand(After(s, events), s.expected, Calls(events))
  {
    if |events| > 0 {
      var earlier := events[..|events| - 1];
      ClockPosition(s, earlier);
      OneStepOfTheClock(After(s, earlier), events[|events| - 1], s.expected, Calls(earlier));
    }
  }

  /** What was queued when the packet of the call after these events was due to be loaded: the
      queue itself before a first half, the queue one call earlier before a second half. */
  function QueueAtLoad(s: Playout, events: seq<Event>): seq<Packet>
    requires WellFormed(s)
  {
    if Calls(events) % 2 == 0 then After(s, events).queue
    else QueueAtLoad(s, events[..|events| - 1])
  }

  // ----- the clock has just been set -----

  /** The clock stands at the front packet, and what is queued is ordered as seen from the position after it,
      which lets the last packet lie exactly half the circle behind the front. */
  predicate JustSet(s: Playout) {
    && s.started && s.half == 0 && |s.queue| > 0 && s.queue[0].sequence == s.expected
    && InOrder(s.queue, Wrap16(s.expected + 1), 0)
  }

  /** A run from such a state begins with the call that set the clock. */
  predicate OnCourse(s: Playout, events: seq<Event>) {
    Ordered(s) || (JustSet(s) && Starting(events))
  }

  predicate Starting(events: seq<Event>) { |events| > 0 ==> events[0].CallNext? }

  lemma FrontIsDue(queue: seq<Packet>)
    requires |queue| > 0
    ensures TakeDue(queue, queue[0].sequence) == (Some(queue[0]), queue[1..])
    ensures Find(queue, queue[0].sequence) == Some(queue[0])
  {
  }

  /** Before the first packet a call conceals and starts nothing; with packets waiting it starts the clock at the
      oldest. */
  lemma StartsAtTheFront(s: Playout)
    requires WellFormed(s) && !s.started
    ensures var (t, out) := Next(s);
      if s.queue == [] then t == s.(concealed := s.concealed + 1) && out == Conceal
      else
        && t.started && (t.expected, t.half) == (s.queue[0].sequence, 1) && t.queue == s.queue[1..]
        && t.current == Some(s.queue[0]) && out == Emit(Some(s.queue[0]), 0)
  {
    if s.queue != [] {
      FirstHalfCall(s);
      FrontIsDue(s.queue);
    }
  }

  lemma FirstCallOrders(s: Playout)
    requires WellFormed(s) && JustSet(s)
    ensures Ordered(Next(s).0)
  {
    FirstHalfCall(s);
    FrontIsDue(s.queue);
    OrderedAt(Next(s).0, s.queue[1..], Wrap16(s.expected + 1));
  }

  lemma {:induction false} CourseIsKept(s: Playout, events: seq<Event>)
    requires WellFormed(s) && OnCourse(s, events)
    ensures Ordered(After(s, events)) || (|events| == 0 && JustSet(s))
  {
    if |events| > 0 {
      var earlier := events[..|events| - 1];
      CourseIsKept(s, earlier);
      if Ordered(After(s, earlier)) {
        OrderedStep(After(s, earlier), events[|events| - 1]);
      } else {
        FirstCallOrders(s);
      }
    }
  }

  lemma LoadsWhenOrdered(t: Playout)
    requires t.half == 0 && (Ordered(t) || JustSet(t))
    ensures TakeDue(t.queue, t.expected).0 == Find(t.queue, t.expected)
  {
    if Ordered(t) {
      FrontFindsDuePacket(t.queue, t.expected, 0);
    } else {
      FrontIsDue(t.queue);
    }
  }

  /** What is loaded on course is what a search of the whole queue finds. */
  lemma LoadsWhatIsQueued(s: Playout, events: seq<Event>)
    requires WellFormed(s) && OnCourse(s, events)
    ensures var t := After(s, events);
      t.half == 0 ==> TakeDue(t.queue, t.expected).0 == Find(t.queue, t.expected)
  {
    CourseIsKept(s, events);
    if After(s, events).half == 0 {
      LoadsWhenOrdered(After(s, events));
    }
  }

  lemma {:induction false} CurrentIsTheLoadedPacket(s: Playout, events: seq<Event>)
    requires WellFormed(s) && s.started && s.half == 0 && OnCourse(s, events)
    ensures Calls(events) % 2 == 1 ==>
      After(s, events).current == Find(QueueAtLoad(s, events), After(s, events).expected)
  {
    if Calls(events) % 2 == 1 {
      var earlier := events[..|events| - 1];
      ClockPosition(s, earlier);
      ClockPosition(s, events);
      if events[|events| - 1].CallNext? {
        LoadsWhatIsQueued(s, earlier);
      } else {
        CurrentIsTheLoadedPacket(s, earlier);
      }
    }
  }

  /** The output the clock prescribes for the call after these events. */
  function Prescribed(s: Playout, start: u16, events: seq<Event>): Output
    requires WellFormed(s)
  {
    var (position, half) := Hand(start, Calls(events));
    Emit(Find(QueueAtLoad(s, events), position), half)
  }

  /** After any events, the next call is for half n mod 2 of position start + n div 2, where n calls
      came before. It delivers that half of the packet queued for that position when the packet was
      due, wherever in the queue it stood, and conceals when there was none or its flag is clear. */
  lemma NextFollowsClock(s: Playout, events: seq<Event>)
    requires WellFormed(s) && s.started && s.half == 0 && OnCourse(s, events)
    ensures Next(After(s, events)).1 == Prescribed(s, s.expected, events)
  {
    ClockPosition(s, events);
    if After(s, events).half == 0 {
      LoadsWhatIsQueued(s, events);
    } else {
      CurrentIsTheLoadedPacket(s, events);
    }
  }

  /** No position of the clock comes round again within a whole circle of packets. */
  lemma PositionsAreFresh(start: u16, n: nat, m: nat)
    requires n < m < n + 0x2_0000
    ensures Hand(start, n) != Hand(start, m)
  {
    if n % 2 == m % 2 {
      assert 0 < m / 2 - n / 2 < 0x1_0000;
    }
  }

  lemma OneStepCounts(s: Playout, e: Event)
    requires WellFormed(s)
    ensures var t := Step(s, e);
      t.delivered + t.concealed == s.delivered + s.concealed + if e.CallNext? then 1 else 0
  {
  }

  lemma {:induction false} EveryCallIsCounted(s: Playout, events: seq<Event>)
    requires WellFormed(s)
    ensures var t := After(s, events);
      t.delivered + t.concealed == s.delivered + s.concealed + Calls(events)
  {
    if |events| > 0 {
      var earlier := events[..|events| - 1];
      EveryCallIsCounted(s, earlier);
      OneStepCounts(After(s, earlier), events[|events| - 1]);
    }
  }

  // ----- from power-up to the start of the clock -----

  predicate Chained(queue: seq<Packet>) {
    forall i :: 0 <= i < |queue| - 1 ==> After16(queue[i + 1].sequence, queue[i].sequence)
  }

  lemma {:induction false} UnstartedQueueIsChained(events: seq<Event>)
    ensures !After(Initial, events).started ==> Chained(After(Initial, events).queue)
  {
    if |events| > 0 {
      UnstartedQueueIsChained(events[..|events| - 1]);
    }
  }

  /** Every packet waiting at the start lies at most half the circle behind the front one. */
  predicate WithinHalfCircle(queue: seq<Packet>) {
    forall i :: 0 <= i < |queue| ==> Wrap16(queue[i].sequence - queue[0].sequence) <= 0x8000
  }

  lemma {:induction false} ChainedWindowIsOrdered(queue: seq<Packet>, n: nat)
    requires 0 < n <= |queue| && Chained(queue) && WithinHalfCircle(queue)
    ensures InOrder(queue[..n], Wrap16(queue[0].sequence + 1), 0)
  {
    var next := Wrap16(queue[0].sequence + 1);
    if n > 1 {
      ChainedWindowIsOrdered(queue, n - 1);
      var last, p := queue[n - 2], queue[n - 1];
      assert queue[..n - 1][n - 2] == last;
      AheadOfNext(p.sequence, queue[0].sequence);
      AfterIsFurther(p.sequence, last.sequence, next);
      AppendInOrder(queue[..n - 1], p, next, 0);
      assert queue[..n] == queue[..n - 1] + [p];
    } else {
      AheadOfNext(queue[0].sequence, queue[0].sequence);
    }
  }

  lemma AheadOfNext(sequence: u16, front: u16)
    ensures Ahead(sequence, Wrap16(front + 1)) == Wrap16(sequence - front)
  {
  }

  lemma {:induction false} StartingIsPartOfTheFirstCall(s: Playout, events: seq<Event>)
    requires WellFormed(s) && Starting(events)
    ensures |events| > 0 ==> After(s, events) == After(Start(s), events)
    ensures Next(After(s, events)) == Next(After(Start(s), events))
  {
    if |events| > 1 {
      StartingIsPartOfTheFirstCall(s, events[..|events| - 1]);
    } else if |events| == 1 {
      assert events[..0] == [];
    }
  }

  lemma StartSetsTheClock(t: Playout)
    requires !t.started && |t.queue| > 0 && t.half == 0 && Chained(t.queue) && WithinHalfCircle(t.queue)
    ensures JustSet(Start(t))
  {
    ChainedWindowIsOrdered(t.queue, |t.queue|);
    assert t.queue[..|t.queue|] == t.queue;
  }

  /** From power-up, any pushes and early calls, then the call that starts the clock and anything
      after it: each output is the one the clock prescribes. */
  lemma PlayoutRefinesClock(waiting: seq<Event>, events: seq<Event>)
    requires var t := After(Initial, waiting);
      !t.started && |t.queue| > 0 && WithinHalfCircle(t.queue)
    requires Starting(events)
    ensures var t := After(Initial, waiting);
      Next(After(t, events)).1 == Prescribed(Start(t), t.queue[0].sequence, events)
  {
    var t := After(Initial, waiting);
    UnstartedQueueIsChained(waiting);
    StartSetsTheClock(t);
    StartingIsPartOfTheFirstCall(t, events);
    NextFollowsClock(Start(t), events);
  }
}
