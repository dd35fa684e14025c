/** With no faults and room for a frame, no slot goes unused: each node transmits exactly one voice frame at each of
    its slot times before the stop time. */
module VoiceService {
  import opened Words
  import opened VoiceSimulation
  import opened VoiceScenario
  import opened Multiples
  import M = SharedMedium
  import Slots = VoiceSlots

  /** When a node's voice transmissions started and ended. */
  function Spans(txs: seq<M.Tx>, node: nat): seq<(int, int)> {
    if |txs| == 0 then []
    else
      var last := txs[|txs| - 1];
      Spans(txs[..|txs| - 1], node) + if last.voice == Some(node) then [(last.start, last.end)] else []
  }

  /** A node has a slot with this number: its first, and those before the stop time. */
  predicate HasSlot(c: Config, node: nat, k: nat) { k == 0 || Slots.SlotTime(c, node, k) < c.stop }

  /** One airtime in each of the first slots. */
  function SlotSpans(c: Config, node: nat, n: nat): seq<(int, int)> {
    seq(n, k requires 0 <= k < n => (Slots.SlotTime(c, node, k), Slots.SlotTime(c, node, k) + c.airtime))
  }

  // ----- what each node's events and frames look like -----

  /** The one event with this action is due at slot k, if there is such a slot. */
  ghost predicate DueAt(c: Config, events: seq<Event>, node: nat, action: Action, k: nat) {
    && (forall e :: e in events && e.action == action ==> HasSlot(c, node, k) && e.time == Slots.SlotTime(c, node, k))
    && (forall e, f :: e in events && f in events && e.action == action && f.action == action ==> e == f)
    && (HasSlot(c, node, k) ==> exists e :: e in events && e.action == action)
  }

  /** Whatever is due at one slot is generated before it is sent. */
  ghost predicate GeneratesFirst(events: seq<Event>, node: nat) {
    forall e, f :: e in events && f in events && e.action == Generate(node) && f.action == Slot(node) && e.time == f.time
      ==> e.order < f.order
  }

  ghost predicate SlotsSoFar(c: Config, s: Sim, node: nat, j: nat) {
    && Spans(s.medium.txs, node) == SlotSpans(c, node, j)
    && (forall k :: 0 <= k < j ==> HasSlot(c, node, k) && Slots.SlotTime(c, node, k) <= s.now)
  }

  /** The node has used j slots and generated the frame of each, and perhaps the next. */
  ghost predicate Serves(c: Config, s: Sim, node: nat, j: nat) {
    && node < |s.nodes| && s.nodes[node].enabled && |s.nodes[node].queue| <= 1
    && SlotsSoFar(c, s, node, j)
    && DueAt(c, s.events, node, Generate(node), j + |s.nodes[node].queue|)
    && DueAt(c, s.events, node, Slot(node), j)
    && (|s.nodes[node].queue| == 1 ==> HasSlot(c, node, j))
    && GeneratesFirst(s.events, node)
  }

  /** Only existing nodes have events, and there are no faults. */
  ghost predicate Orderly(s: Sim) {
    && Queued(s) && !s.raised
    && forall e :: e in s.events ==>
      && !e.action.Enable?
      && (e.action.Generate? || e.action.Slot? ==> e.action.node < |s.nodes|)
  }

  ghost predicate AllServe(c: Config, s: Sim) {
    Orderly(s) && forall i :: 0 <= i < |s.nodes| ==> Serves(c, s, i, Used(s, i))
  }

  function Used(s: Sim, node: nat): nat { |Spans(s.medium.txs, node)| }

  predicate Roomy(c: Config) { c.interval > 0 && c.spacing >= 0 && c.maxQueue >= 1 }

  // ----- events -----

  lemma ScheduledMembers(s: Sim, time: int, action: Action)
    requires Queued(s)
    ensures var t := Schedule(s, time, action);
      && Queued(t) && t == s.(events := t.events, nextOrder := t.nextOrder) && t.nextOrder >= s.nextOrder
      && forall e :: e in t.events <==> e in s.events || (s.now <= time && e == Event(time, s.nextOrder, action))
  {
    if s.now <= time {
      ScheduleKeepsQueue(s, time, action);
    }
  }

  lemma PoppedQueue(s: Sim)
    requires Queued(s) && |s.events| > 0
    ensures Queued(Popped(s)) && s.events[0] !in s.events[1..]
    ensures forall e :: e in s.events <==> e == s.events[0] || e in s.events[1..]
    ensures forall e :: e in s.events[1..] ==> Before(s.events[0], e)
  {
    InOrderTail(s.events);
    assert s.events == [s.events[0]] + s.events[1..];
  }

  predicate Concerns(action: Action, node: nat) { action == Generate(node) || action == Slot(node) }

  /** Same node, same transmissions of it, same events of it. */
  ghost predicate SameNode(s: Sim, t: Sim, node: nat) {
    && |t.nodes| == |s.nodes| && node < |s.nodes| && t.nodes[node] == s.nodes[node] && s.now <= t.now
    && Spans(t.medium.txs, node) == Spans(s.medium.txs, node)
    && forall e: Event :: Concerns(e.action, node) ==> (e in t.events <==> e in s.events)
  }

  lemma DueStays(c: Config, events: seq<Event>, later: seq<Event>, node: nat, action: Action, k: nat)
    requires DueAt(c, events, node, action, k)
    requires forall e: Event :: e.action == action ==> (e in later <==> e in events)
    ensures DueAt(c, later, node, action, k)
  {
    if HasSlot(c, node, k) {
      var e :| e in events && e.action == action;
      assert e in later;
    }
  }

  lemma ServesStays(c: Config, s: Sim, t: Sim, node: nat, j: nat)
    requires Serves(c, s, node, j) && SameNode(s, t, node)
    ensures Serves(c, t, node, j)
  {
    DueStays(c, s.events, t.events, node, Generate(node), j + |s.nodes[node].queue|);
    DueStays(c, s.events, t.events, node, Slot(node), j);
  }

  // ----- transmissions -----

  lemma {:induction false} SpansSame(txs: seq<M.Tx>, us: seq<M.Tx>, node: nat)
    requires |us| == |txs|
    requires forall i :: 0 <= i < |txs| ==>
      us[i].voice == txs[i].voice && us[i].start == txs[i].start && us[i].end == txs[i].end
    ensures Spans(us, node) == Spans(txs, node)
  {
    if |txs| > 0 {
      SpansSame(txs[..|txs| - 1], us[..|txs| - 1], node);
    }
  }

  lemma SpansOneMore(m: M.Medium, now: int, airtime: int, voice: Option<nat>, node: nat)
    ensures Spans(M.Transmit(m, now, airtime, voice).txs, node) ==
      Spans(m.txs, node) + if voice == Some(node) then [(now, now + airtime)] else []
  {
    var after := M.Transmit(m, now, airtime, voice).txs;
    assert after[..|m.txs|] == M.Spoil(m, now);
    SpansSame(m.txs, M.Spoil(m, now), node);
  }

  // ----- one step -----

  /** Scheduling something else leaves the node's part as it is. */
  lemma ScheduleSame(s: Sim, time: int, action: Action, node: nat)
    requires Queued(s) && node < |s.nodes| && !Concerns(action, node)
    ensures SameNode(s, Schedule(s, time, action), node)
  {
    ScheduledMembers(s, time, action);
  }

  lemma AgainSame(c: Config, s: Sim, action: Action, node: nat)
    requires Queued(s) && node < |s.nodes| && !Concerns(action, node)
    ensures SameNode(s, Again(c, s, action), node)
  {
    ScheduleSame(s, s.now + c.interval, action, node);
  }

  lemma SameTwice(s: Sim, t: Sim, u: Sim, node: nat)
    requires SameNode(s, t, node) && SameNode(t, u, node)
    ensures SameNode(s, u, node)
  {
  }

  lemma MediumSame(s: Sim, airtime: int, voice: Option<nat>, node: nat)
    requires node < |s.nodes| && voice != Some(node)
    ensures SameNode(s, s.(medium := M.Transmit(s.medium, s.now, airtime, voice)), node)
  {
    SpansOneMore(s.medium, s.now, airtime, voice, node);
  }

  lemma TransmitSame(s: Sim, airtime: int, voice: Option<nat>, node: nat)
    requires Queued(s) && node < |s.nodes| && voice != Some(node)
    ensures SameNode(s, Transmit(s, airtime, voice), node)
  {
    var u := s.(medium := M.Transmit(s.medium, s.now, airtime, voice));
    MediumSame(s, airtime, voice, node);
    ScheduleSame(u, s.now + airtime, Finish(|s.medium.txs|), node);
    SameTwice(s, u, Transmit(s, airtime, voice), node);
  }

  lemma PerformSame(c: Config, s: Sim, action: Action, node: nat)
    requires Queued(s) && node < |s.nodes| && !Concerns(action, node) && !action.Enable?
    ensures SameNode(s, Perform(c, s, action), node)
  {
    match action {
      case Generate(n) =>
        if n < |s.nodes| && !Stuck(s.nodes[n], c.maxQueue) {
          var v := s.nodes[n];
          var t := if v.enabled then s.(nodes := s.nodes[n := Enqueue(v, s.now, c.maxQueue)]) else s;
          AgainSame(c, t, action, node);
          SameTwice(s, t, Again(c, t, action), node);
        }
      case Slot(n) =>
        if n < |s.nodes| {
          var v := s.nodes[n];
          if v.enabled && |v.queue| > 0 {
            var u := s.(nodes := s.nodes[n := v.(queue := v.queue[1..])]);
            var t := Transmit(u, c.airtime, Some(n));
            TransmitQueued(u, c.airtime, Some(n));
            TransmitSame(u, c.airtime, Some(n), node);
            AgainSame(c, t, action, node);
            SameTwice(s, u, t, node);
            SameTwice(s, t, Again(c, t, action), node);
          } else {
            AgainSame(c, s, action, node);
          }
        }
      case Beacon(airtime) =>
        if airtime > 0 {
          TransmitSame(s, airtime, None, node);
        }
      case Finish(tx) =>
        if tx < |s.medium.txs| {
          SpansSame(s.medium.txs, M.Complete(s.medium, tx).txs, node);
        }
    }
  }

  lemma TransmitQueued(s: Sim, airtime: int, voice: Option<nat>)
    requires Queued(s)
    ensures var t := Transmit(s, airtime, voice);
      && Queued(t) && t.nodes == s.nodes && t.now == s.now && t.raised == s.raised && t.nextOrder >= s.nextOrder
      && forall e :: e in t.events ==> e in s.events || e.action.Finish?
  {
    var u := s.(medium := M.Transmit(s.medium, s.now, airtime, voice));
    ScheduledMembers(u, s.now + airtime, Finish(|s.medium.txs|));
  }

  lemma AgainOrderly(c: Config, s: Sim, action: Action)
    requires Orderly(s) && (action.Generate? || action.Slot?) && action.node < |s.nodes|
    ensures Orderly(Again(c, s, action))
  {
    ScheduledMembers(s, s.now + c.interval, action);
  }

  lemma TransmitOrderly(s: Sim, airtime: int, voice: Option<nat>)
    requires Orderly(s)
    ensures Orderly(Transmit(s, airtime, voice)) && |Transmit(s, airtime, voice).nodes| == |s.nodes|
  {
    TransmitQueued(s, airtime, voice);
  }

  lemma PerformOrderly(c: Config, s: Sim, action: Action)
    requires Orderly(s) && Roomy(c) && !action.Enable?
    requires action.Generate? || action.Slot? ==> action.node < |s.nodes|
    ensures Orderly(Perform(c, s, action))
  {
    match action {
      case Generate(n) =>
        var v := s.nodes[n];
        AgainOrderly(c, if v.enabled then s.(nodes := s.nodes[n := Enqueue(v, s.now, c.maxQueue)]) else s, action);
      case Slot(n) =>
        var v := s.nodes[n];
        if v.enabled && |v.queue| > 0 {
          var u := s.(nodes := s.nodes[n := v.(queue := v.queue[1..])]);
          TransmitOrderly(u, c.airtime, Some(n));
          AgainOrderly(c, Transmit(u, c.airtime, Some(n)), action);
        } else {
          AgainOrderly(c, s, action);
        }
      case Beacon(airtime) => if airtime > 0 { TransmitOrderly(s, airtime, None); }
      case Finish(tx) =>
    }
  }

  lemma NextSlotTime(c: Config, node: nat, k: nat)
    ensures Slots.SlotTime(c, node, k + 1) == Slots.SlotTime(c, node, k) + c.interval
  {
    assert (k + 1) * c.interval == k * c.interval + c.interval;
  }

  lemma SpansGrow(c: Config, node: nat, j: nat)
    ensures SlotSpans(c, node, j + 1) ==
      SlotSpans(c, node, j) + [(Slots.SlotTime(c, node, j), Slots.SlotTime(c, node, j) + c.airtime)]
  {
  }

  /** When a frame is generated, the one before has been sent. */
  lemma GeneratesWhenEmpty(c: Config, s: Sim, node: nat, j: nat)
    requires Queued(s) && |s.events| > 0 && Serves(c, s, node, j) && c.interval > 0
    requires s.events[0].action == Generate(node)
    ensures s.nodes[node].queue == []
  {
    PoppedQueue(s);
    NextSlotTime(c, node, j);
    assert s.events[0] in s.events;
  }

  /** When a slot comes, its frame has been generated. */
  lemma SlotFindsFrame(c: Config, s: Sim, node: nat, j: nat)
    requires Queued(s) && |s.events| > 0 && Serves(c, s, node, j)
    requires s.events[0].action == Slot(node)
    ensures |s.nodes[node].queue| == 1
  {
    PoppedQueue(s);
    assert s.events[0] in s.events;
  }

  /** The event of an action is replaced by its next occurrence. */
  lemma DueNext(c: Config, events: seq<Event>, later: seq<Event>, node: nat, action: Action, k: nat, e: Event)
    requires DueAt(c, events, node, action, k) && HasSlot(c, node, k) && e.action == action
    requires e.time == Slots.SlotTime(c, node, k + 1)
    requires forall f: Event :: f.action == action ==> (f in later <==> HasSlot(c, node, k + 1) && f == e)
    ensures DueAt(c, later, node, action, k + 1)
  {
    if HasSlot(c, node, k + 1) {
      assert e in later;
    }
  }

  /** The event that comes next after an action of the node: the same one interval later, before the stop time. */
  ghost predicate Replaces(c: Config, s: Sim, t: Sim, action: Action, e: Event) {
    && e.action == action && e.time == t.now + c.interval && e.order >= s.nextOrder
    && forall f: Event :: f.action == action ==> (f in t.events <==> e.time < c.stop && f == e)
  }

  ghost predicate SameEvents(s: Sim, t: Sim, action: Action) {
    forall f: Event :: f.action == action ==> (f in t.events <==> f in s.events)
  }

  lemma GenerateEffect(c: Config, s: Sim, node: nat, k: nat) returns (e: Event)
    requires Queued(s) && |s.events| > 0 && s.events[0].action == Generate(node) && Roomy(c)
    requires node < |s.nodes| && s.nodes[node].enabled && s.nodes[node].queue == []
    requires DueAt(c, s.events, node, Generate(node), k)
    ensures var t := Step(c, s);
      && t.now == s.events[0].time && t.medium == s.medium && |t.nodes| == |s.nodes|
      && t.nodes[node].enabled && |t.nodes[node].queue| == 1
      && Replaces(c, s, t, Generate(node), e) && SameEvents(s, t, Slot(node))
  {
    PoppedQueue(s);
    var t := Popped(s);
    var u := t.(nodes := t.nodes[node := Enqueue(t.nodes[node], t.now, c.maxQueue)]);
    ScheduledMembers(u, u.now + c.interval, Generate(node));
    e := Event(u.now + c.interval, u.nextOrder, Generate(node));
    assert s.events[0] in s.events;
  }

  lemma GeneratedServes(c: Config, s: Sim, t: Sim, node: nat, j: nat, e: Event)
    requires Serves(c, s, node, j) && s.nodes[node].queue == [] && HasSlot(c, node, j) && Queued(s)
    requires t.now == Slots.SlotTime(c, node, j) && s.now <= t.now && t.medium == s.medium && |t.nodes| == |s.nodes|
    requires t.nodes[node].enabled && |t.nodes[node].queue| == 1 && c.interval > 0
    requires Replaces(c, s, t, Generate(node), e) && SameEvents(s, t, Slot(node))
    ensures Serves(c, t, node, j)
  {
    NextSlotTime(c, node, j);
    DueNext(c, s.events, t.events, node, Generate(node), j, e);
    DueStays(c, s.events, t.events, node, Slot(node), j);
  }

  lemma GenerateServes(c: Config, s: Sim, node: nat, j: nat)
    requires Queued(s) && |s.events| > 0 && Serves(c, s, node, j) && Roomy(c)
    requires s.events[0].action == Generate(node)
    ensures Serves(c, Step(c, s), node, j)
  {
    GeneratesWhenEmpty(c, s, node, j);
    assert s.events[0] in s.events;
    var e := GenerateEffect(c, s, node, j);
    GeneratedServes(c, s, Step(c, s), node, j, e);
  }

  /** An action that is queued nowhere is queued once, one interval on, if that is before the stop time. */
  lemma AgainReplaces(c: Config, s: Sim, w: Sim, action: Action, other: Action) returns (e: Event)
    requires Queued(w) && other != action && w.nextOrder >= s.nextOrder && c.interval > 0
    requires forall f: Event :: f.action == action ==> f !in w.events
    requires SameEvents(s, w, other)
    ensures var t := Again(c, w, action);
      && t.now == w.now && t.nodes == w.nodes && t.medium == w.medium
      && Replaces(c, s, t, action, e) && SameEvents(s, t, other)
  {
    ScheduledMembers(w, w.now + c.interval, action);
    e := Event(w.now + c.interval, w.nextOrder, action);
  }

  lemma OnlyOneQueued(c: Config, s: Sim, node: nat, k: nat)
    requires Queued(s) && |s.events| > 0 && s.events[0].action == Slot(node)
    requires DueAt(c, s.events, node, Slot(node), k)
    ensures forall f: Event :: f.action == Slot(node) ==> f !in Popped(s).events
    ensures Queued(Popped(s)) && SameEvents(s, Popped(s), Generate(node))
  {
    PoppedQueue(s);
    assert s.events[0] in s.events;
  }

  /** The simulation when a slot has taken its frame off the queue. */
  function Taken(s: Sim, node: nat): Sim
    requires |s.events| > 0 && node < |s.nodes| && |s.nodes[node].queue| > 0
  {
    var v := s.nodes[node];
    Popped(s).(nodes := s.nodes[node := v.(queue := v.queue[1..])])
  }

  lemma SlotStep(c: Config, s: Sim, node: nat)
    requires |s.events| > 0 && s.events[0].action == Slot(node)
    requires node < |s.nodes| && s.nodes[node].enabled && |s.nodes[node].queue| > 0
    ensures Step(c, s) == Again(c, Transmit(Taken(s, node), c.airtime, Some(node)), Slot(node))
  {
  }

  lemma SlotSent(c: Config, s: Sim, node: nat, k: nat)
    requires Queued(s) && |s.events| > 0 && s.events[0].action == Slot(node)
    requires node < |s.nodes| && |s.nodes[node].queue| > 0 && DueAt(c, s.events, node, Slot(node), k)
    ensures var w := Transmit(Taken(s, node), c.airtime, Some(node));
      && Queued(w) && w.nodes == Taken(s, node).nodes && w.now == s.events[0].time && w.nextOrder >= s.nextOrder
      && Spans(w.medium.txs, node) == Spans(s.medium.txs, node) + [(w.now, w.now + c.airtime)]
      && (forall f: Event :: f.action == Slot(node) ==> f !in w.events) && SameEvents(s, w, Generate(node))
  {
    OnlyOneQueued(c, s, node, k);
    TransmitOwn(Taken(s, node), c.airtime, node);
  }

  lemma SlotEffect(c: Config, s: Sim, node: nat, k: nat) returns (e: Event)
    requires Queued(s) && |s.events| > 0 && s.events[0].action == Slot(node) && Roomy(c)
    requires node < |s.nodes| && s.nodes[node].enabled && |s.nodes[node].queue| == 1
    requires DueAt(c, s.events, node, Slot(node), k)
    ensures var t := Step(c, s);
      && t.now == s.events[0].time && |t.nodes| == |s.nodes|
      && t.nodes[node].enabled && t.nodes[node].queue == []
      && Spans(t.medium.txs, node) == Spans(s.medium.txs, node) + [(t.now, t.now + c.airtime)]
      && Replaces(c, s, t, Slot(node), e) && SameEvents(s, t, Generate(node))
  {
    SlotSent(c, s, node, k);
    SlotStep(c, s, node);
    e := AgainReplaces(c, s, Transmit(Taken(s, node), c.airtime, Some(node)), Slot(node), Generate(node));
  }

  lemma TransmitOwn(s: Sim, airtime: int, node: nat)
    requires Queued(s)
    ensures var t := Transmit(s, airtime, Some(node));
      && Queued(t) && t.nodes == s.nodes && t.now == s.now && t.nextOrder >= s.nextOrder
      && Spans(t.medium.txs, node) == Spans(s.medium.txs, node) + [(s.now, s.now + airtime)]
      && forall e: Event :: Concerns(e.action, node) ==> (e in t.events <==> e in s.events)
  {
    SpansOneMore(s.medium, s.now, airtime, Some(node), node);
    var u := s.(medium := M.Transmit(s.medium, s.now, airtime, Some(node)));
    ScheduledMembers(u, s.now + airtime, Finish(|s.medium.txs|));
  }

  lemma SentServes(c: Config, s: Sim, t: Sim, node: nat, j: nat, e: Event)
    requires Serves(c, s, node, j) && |s.nodes[node].queue| == 1 && Queued(s)
    requires t.now == Slots.SlotTime(c, node, j) && s.now <= t.now && |t.nodes| == |s.nodes|
    requires t.nodes[node].enabled && t.nodes[node].queue == [] && c.interval > 0
    requires Spans(t.medium.txs, node) == Spans(s.medium.txs, node) + [(t.now, t.now + c.airtime)]
    requires Replaces(c, s, t, Slot(node), e) && SameEvents(s, t, Generate(node))
    ensures Serves(c, t, node, j + 1)
  {
    NextSlotTime(c, node, j);
    SpansGrow(c, node, j);
    DueNext(c, s.events, t.events, node, Slot(node), j, e);
    DueStays(c, s.events, t.events, node, Generate(node), j + 1);
  }

  lemma SlotServes(c: Config, s: Sim, node: nat, j: nat)
    requires Queued(s) && |s.events| > 0 && Serves(c, s, node, j) && Roomy(c)
    requires s.events[0].action == Slot(node)
    ensures Serves(c, Step(c, s), node, j + 1)
  {
    SlotFindsFrame(c, s, node, j);
    assert s.events[0] in s.events;
    var e := SlotEffect(c, s, node, j);
    SentServes(c, s, Step(c, s), node, j, e);
  }

  lemma ServedCount(c: Config, s: Sim, node: nat, j: nat)
    requires Serves(c, s, node, j)
    ensures Used(s, node) == j
  {
  }

  lemma StepServes(c: Config, s: Sim, node: nat)
    requires |s.events| > 0 && Orderly(s) && Roomy(c) && node < |s.nodes| && Serves(c, s, node, Used(s, node))
    ensures Serves(c, Step(c, s), node, Used(Step(c, s), node))
  {
    var j, e := Used(s, node), s.events[0];
    PoppedQueue(s);
    assert e in s.events;
    if e.action == Generate(node) {
      GenerateServes(c, s, node, j);
      ServedCount(c, Step(c, s), node, j);
    } else if e.action == Slot(node) {
      SlotServes(c, s, node, j);
      ServedCount(c, Step(c, s), node, j + 1);
    } else {
      PerformSame(c, Popped(s), e.action, node);
      SameTwice(s, Popped(s), Step(c, s), node);
      ServesStays(c, s, Step(c, s), node, j);
    }
  }

  lemma PoppedOrderly(s: Sim)
    requires Orderly(s) && |s.events| > 0
    ensures Orderly(Popped(s))
  {
    PoppedQueue(s);
  }

  lemma StepAllServe(c: Config, s: Sim)
    requires |s.events| > 0 && AllServe(c, s) && Roomy(c)
    ensures AllServe(c, Step(c, s)) && |Step(c, s).nodes| == |s.nodes|
  {
    var e := s.events[0];
    assert e in s.events;
    PoppedOrderly(s);
    PerformOrderly(c, Popped(s), e.action);
    NodesStay(c, Popped(s), e.action);
    forall i | 0 <= i < |s.nodes| ensures Serves(c, Step(c, s), i, Used(Step(c, s), i)) {
      StepServes(c, s, i);
    }
  }

  lemma NodesStay(c: Config, s: Sim, action: Action)
    ensures |Perform(c, s, action).nodes| == |s.nodes|
  {
  }

  // ----- from the wiring on -----

  lemma FreshServes(c: Config, s: Sim, node: nat, g: Event, f: Event)
    requires node < |s.nodes| && s.nodes[node] == Voice(true, [], 0, 0) && Spans(s.medium.txs, node) == []
    requires g.action == Generate(node) && f.action == Slot(node)
    requires g.time == f.time == Slots.SlotTime(c, node, 0) && g.order < f.order
    requires forall e: Event :: e.action == Generate(node) ==> (e in s.events <==> e == g)
    requires forall e: Event :: e.action == Slot(node) ==> (e in s.events <==> e == f)
    ensures Serves(c, s, node, 0)
  {
    assert g in s.events && f in s.events;
  }

  lemma AddedNode(c: Config, s: Sim)
    requires AllServe(c, s) && Roomy(c) && s.now == 0 && s.medium == M.Silent
    ensures var n := |s.nodes|;
      var t := s.(nodes := s.nodes + [Voice(true, [], 0, 0)]);
      var u := Schedule(Schedule(t, n * c.spacing, Generate(n)), n * c.spacing, Slot(n));
      AllServe(c, u) && u.now == 0 && u.medium == M.Silent && |u.nodes| == n + 1
  {
    var n := |s.nodes|;
    var t := s.(nodes := s.nodes + [Voice(true, [], 0, 0)]);
    var offset := n * c.spacing;
    assert offset >= 0 && offset == Slots.SlotTime(c, n, 0);
    var v := Schedule(t, offset, Generate(n));
    ScheduledMembers(t, offset, Generate(n));
    var u := Schedule(v, offset, Slot(n));
    ScheduledMembers(v, offset, Slot(n));
    FreshServes(c, u, n, Event(offset, t.nextOrder, Generate(n)), Event(offset, v.nextOrder, Slot(n)));
    forall i | 0 <= i < n ensures Serves(c, u, i, Used(u, i)) {
      OlderServes(c, s, u, i);
    }
  }

  lemma OlderServes(c: Config, s: Sim, u: Sim, i: nat)
    requires i < |s.nodes| < |u.nodes| && Serves(c, s, i, Used(s, i)) && u.nodes[i] == s.nodes[i]
    requires u.now == s.now && u.medium == s.medium
    requires forall e: Event :: Concerns(e.action, i) ==> (e in u.events <==> e in s.events)
    ensures Serves(c, u, i, Used(u, i))
  {
    var j := Used(s, i);
    DueStays(c, s.events, u.events, i, Generate(i), j + |s.nodes[i].queue|);
    DueStays(c, s.events, u.events, i, Slot(i), j);
  }

  lemma {:induction false} WiredServes(c: Config, count: nat)
    requires Roomy(c)
    ensures var s := Wired(c, count); AllServe(c, s) && s.now == 0 && s.medium == M.Silent && |s.nodes| == count
  {
    if count > 0 {
      WiredServes(c, count - 1);
      AddedNode(c, Wired(c, count - 1));
    }
  }

  lemma {:induction false} ScheduledServes(c: Config, s: Sim, extras: seq<Extra>)
    requires AllServe(c, s) && forall i :: 0 <= i < |extras| ==> extras[i].action.Beacon?
    ensures var t := Scheduled(s, extras); AllServe(c, t) && |t.nodes| == |s.nodes|
  {
    if |extras| > 0 {
      var front, last := extras[..|extras| - 1], extras[|extras| - 1];
      ScheduledServes(c, s, front);
      var t := Scheduled(s, front);
      ScheduledMembers(t, last.time, last.action);
      forall i | 0 <= i < |t.nodes| ensures Serves(c, Scheduled(s, extras), i, Used(Scheduled(s, extras), i)) {
        ScheduleSame(t, last.time, last.action, i);
        ServesStays(c, t, Scheduled(s, extras), i, Used(t, i));
      }
    }
  }

  lemma {:induction false} StepsServe(c: Config, s: Sim, n: nat)
    requires AllServe(c, s) && Roomy(c)
    ensures AllServe(c, Steps(c, s, n)) && |Steps(c, s, n).nodes| == |s.nodes|
  {
    if n > 0 {
      StepsServe(c, s, n - 1);
      if |Steps(c, s, n - 1).events| > 0 {
        StepAllServe(c, Steps(c, s, n - 1));
      }
    }
  }

  lemma SlotsRise(c: Config, node: nat, j: nat, k: nat)
    requires j <= k && c.interval > 0
    ensures Slots.SlotTime(c, node, j) <= Slots.SlotTime(c, node, k)
  {
    Rises(j, k, c.interval);
  }

  /** A slot whose time has passed has been used. */
  lemma PassedSlotIsUsed(c: Config, s: Sim, node: nat, j: nat, k: nat, time: int)
    requires Queued(s) && Serves(c, s, node, j) && Roomy(c) && HasSlot(c, node, k)
    requires Slots.SlotTime(c, node, k) <= time && forall e :: e in s.events ==> time < e.time
    ensures k < j
  {
    if j <= k {
      SlotsRise(c, node, j, k);
    }
  }

  /** In a scenario without faults and with room for a frame, at any point of any run, whatever else is on the channel:
      a node's voice transmissions are one airtime from each of its first slots, none left out and none twice; every
      slot whose time has passed is among them, and so is every slot until a time no event is left for. */
  lemma EverySlotIsUsed(c: Config, count: nat, extras: seq<Extra>, n: nat, node: nat, k: nat, time: int)
    requires Roomy(c) && node < count && forall i :: 0 <= i < |extras| ==> extras[i].action.Beacon?
    ensures var t := Steps(c, Scenario(c, count, extras), n); var used := |Spans(t.medium.txs, node)|;
      && !t.raised && Spans(t.medium.txs, node) == SlotSpans(c, node, used)
      && (k < used ==> HasSlot(c, node, k) && Slots.SlotTime(c, node, k) <= t.now)
      && (HasSlot(c, node, k) && Slots.SlotTime(c, node, k) < t.now ==> k < used)
      && (HasSlot(c, node, k) && Slots.SlotTime(c, node, k) <= time && (|t.events| == 0 || t.events[0].time > time) ==>
            k < used)
  {
    WiredServes(c, count);
    ScheduledServes(c, Wired(c, count), extras);
    StepsServe(c, Scenario(c, count, extras), n);
    var t := Steps(c, Scenario(c, count, extras), n);
    var used := Used(t, node);
    if HasSlot(c, node, k) && Slots.SlotTime(c, node, k) < t.now {
      PassedSlotIsUsed(c, t, node, used, k, t.now - 1);
    }
    if HasSlot(c, node, k) && Slots.SlotTime(c, node, k) <= time && (|t.events| == 0 || t.events[0].time > time) {
      if |t.events| > 0 {
        FirstIsEarliest(t);
      }
      PassedSlotIsUsed(c, t, node, used, k, time);
    }
  }

  lemma FirstIsEarliest(s: Sim)
    requires Queued(s) && |s.events| > 0
    ensures forall e :: e in s.events ==> s.events[0].time <= e.time
  {
    PoppedQueue(s);
  }
}
