/** Where slots fit the interval, voice frames start on their node's slots only, so they never overlap. */
module VoiceSlots {
  import opened Words
  import opened VoiceSimulation
  import opened VoiceChannel
  import M = SharedMedium

  /** No slot guard is negative, and the schedule from the first slot to the end of the last frame fits the
      frame interval. */
  predicate ValidConfig(c: Config, count: nat) {
    && c.interval > 0 && c.airtime > 0 && c.airtime <= c.spacing
    && (count - 1) * c.spacing + c.airtime <= c.interval
  }

  // ----- slots -----

  ghost predicate OnGrid(c: Config, node: nat, time: int) {
    exists m: nat :: time == SlotTime(c, node, m)
  }

  function SlotTime(c: Config, node: nat, m: nat): int { node * c.spacing + m * c.interval }

  ghost predicate SlotsOnGrid(c: Config, s: Sim) {
    forall e :: e in s.events && e.action.Slot? ==> e.action.node < |s.nodes| && OnGrid(c, e.action.node, e.time)
  }

  /** No node's slot is queued twice. */
  ghost predicate SlotsOnce(events: seq<Event>) {
    forall e, f :: e in events && f in events && e.action == f.action && e.action.Slot? ==> e == f
  }

  /** Voice frames start on the grid, last one airtime, and lie a full interval before the node's next slot. */
  ghost predicate VoiceOnGrid(c: Config, s: Sim) {
    forall k :: 0 <= k < |s.medium.txs| && s.medium.txs[k].voice.Some? ==>
      var t := s.medium.txs[k];
      && t.voice.value < |s.nodes| && OnGrid(c, t.voice.value, t.start) && t.end == t.start + c.airtime
      && t.start <= s.now
      && forall e :: e in s.events && e.action == Slot(t.voice.value) ==> t.start + c.interval <= e.time
  }

  ghost predicate VoiceSpaced(c: Config, txs: seq<M.Tx>) {
    forall k, l :: 0 <= k < l < |txs| && txs[k].voice.Some? && txs[k].voice == txs[l].voice ==>
      txs[k].start + c.interval <= txs[l].start
  }

  ghost predicate OnSchedule(c: Config, s: Sim) {
    && ValidConfig(c, |s.nodes|) && SlotsOnce(s.events) && SlotsOnGrid(c, s) && VoiceOnGrid(c, s)
    && VoiceSpaced(c, s.medium.txs)
  }

  ghost predicate Kept(c: Config, s: Sim) { Consistent(s) && OnSchedule(c, s) }

  // ----- the queue -----

  lemma PopSchedule(c: Config, s: Sim)
    requires |s.events| > 0 && Channel(s) && OnSchedule(c, s)
    ensures OnSchedule(c, Popped(s))
  {
    InOrderTail(s.events);
    assert s.events == [s.events[0]] + s.events[1..];
    assert s.events[0] in s.events;
  }

  lemma AddOffSchedule(c: Config, s: Sim, time: int, action: Action)
    requires Queued(s) && s.now <= time && !action.Slot? && OnSchedule(c, s)
    ensures OnSchedule(c, Schedule(s, time, action))
  {
    ScheduleKeepsQueue(s, time, action);
  }

  lemma NextOnGrid(c: Config, node: nat, time: int)
    requires OnGrid(c, node, time)
    ensures OnGrid(c, node, time + c.interval)
  {
    var m: nat :| time == SlotTime(c, node, m);
    assert (m + 1) * c.interval == m * c.interval + c.interval;
    assert time + c.interval == SlotTime(c, node, m + 1);
  }

  lemma AddSlot(c: Config, s: Sim, node: nat)
    requires Queued(s) && OnSchedule(c, s)
    requires node < |s.nodes| && OnGrid(c, node, s.now)
    requires forall f :: f in s.events ==> f.action != Slot(node)
    ensures OnSchedule(c, Again(c, s, Slot(node)))
  {
    if s.now + c.interval < c.stop {
      ScheduleKeepsQueue(s, s.now + c.interval, Slot(node));
      NextOnGrid(c, node, s.now);
    }
  }

  // ----- transmitting -----

  /** A voice frame may start now: it is the node's slot, and the node's next one is not queued yet. */
  ghost predicate MaySend(c: Config, s: Sim, node: nat) {
    && node < |s.nodes| && OnGrid(c, node, s.now)
    && (forall f :: f in s.events ==> f.action != Slot(node))
    && (forall k :: 0 <= k < |s.medium.txs| && s.medium.txs[k].voice == Some(node) ==>
          s.medium.txs[k].start + c.interval <= s.now)
  }

  lemma TransmitSchedule(c: Config, s: Sim, airtime: int, voice: Option<nat>)
    requires Channel(s) && airtime > 0 && OnSchedule(c, s)
    requires voice.Some? ==> airtime == c.airtime && MaySend(c, s, voice.value)
    ensures var t := Transmit(s, airtime, voice);
      && OnSchedule(c, t) && t.now == s.now && t.nodes == s.nodes
      && (forall f :: f in t.events ==> f in s.events || f.action.Finish?)
  {
    var u := s.(medium := M.Transmit(s.medium, s.now, airtime, voice));
    TransmitParts(s.medium, s.now, airtime, voice);
    ScheduleKeepsQueue(u, s.now + airtime, Finish(|s.medium.txs|));
  }

  lemma NodesKeepSchedule(c: Config, s: Sim, nodes: seq<Voice>)
    requires |nodes| == |s.nodes|
    ensures OnSchedule(c, s) ==> OnSchedule(c, s.(nodes := nodes)) && OnSchedule(c, s.(nodes := nodes, raised := true))
  {
  }

  // ----- one step -----

  lemma SlotSchedule(c: Config, s: Sim, node: nat)
    requires Consistent(s) && OnSchedule(c, s) && MaySend(c, s, node)
    ensures OnSchedule(c, Perform(c, s, Slot(node)))
  {
    var v := s.nodes[node];
    if v.enabled && |v.queue| > 0 {
      var u := s.(nodes := s.nodes[node := v.(queue := v.queue[1..])]);
      NodesDoNotMatter(s, u.nodes);
      NodesKeepSchedule(c, s, u.nodes);
      assert MaySend(c, u, node);
      TransmitSchedule(c, u, c.airtime, Some(node));
      TransmitConsistent(u, c.airtime, Some(node));
      AddSlot(c, Transmit(u, c.airtime, Some(node)), node);
    } else {
      AddSlot(c, s, node);
    }
  }

  lemma FrameSchedule(c: Config, s: Sim, node: nat)
    requires Queued(s) && OnSchedule(c, s) && node < |s.nodes| && !Stuck(s.nodes[node], c.maxQueue)
    ensures OnSchedule(c, Perform(c, s, Generate(node)))
  {
    var v := s.nodes[node];
    var t := if v.enabled then s.(nodes := s.nodes[node := Enqueue(v, s.now, c.maxQueue)]) else s;
    NodesKeepSchedule(c, s, t.nodes);
    AddOffSchedule(c, t, s.now + c.interval, Generate(node));
  }

  lemma GenerateSchedule(c: Config, s: Sim, node: nat)
    requires Queued(s) && OnSchedule(c, s) && node < |s.nodes|
    ensures OnSchedule(c, Perform(c, s, Generate(node)))
  {
    var v := s.nodes[node];
    if Stuck(v, c.maxQueue) {
      NodesKeepSchedule(c, s, s.nodes[node := v.(sequence := v.sequence + 1)]);
    } else {
      FrameSchedule(c, s, node);
    }
  }

  lemma SlotMaySend(c: Config, s: Sim, node: nat)
    requires |s.events| > 0 && s.events[0].action == Slot(node) && Kept(c, s)
    ensures MaySend(c, Popped(s), node)
  {
    PopChannel(s);
    InOrderTail(s.events);
    assert s.events[0] in s.events;
  }

  lemma FinishSchedule(c: Config, s: Sim, tx: nat)
    requires OnSchedule(c, s) && tx < |s.medium.txs|
    ensures OnSchedule(c, s.(medium := M.Complete(s.medium, tx)))
  {
  }

  lemma StepOnSchedule(c: Config, s: Sim)
    requires |s.events| > 0 && Kept(c, s)
    requires Channel(Popped(s)) && (s.events[0].action.Slot? ==> Consistent(Popped(s)))
    ensures OnSchedule(c, Step(c, s))
  {
    var e, t := s.events[0], Popped(s);
    PopSchedule(c, s);
    match e.action {
      case Finish(tx) => if tx < |t.medium.txs| { FinishSchedule(c, t, tx); }
      case Slot(node) =>
        SlotMaySend(c, s, node);
        SlotSchedule(c, t, node);
      case Generate(node) => if node < |t.nodes| { GenerateSchedule(c, t, node); }
      case Beacon(airtime) => if airtime > 0 { TransmitSchedule(c, t, airtime, None); }
      case Enable(node, on) =>
        if node < |t.nodes| { NodesKeepSchedule(c, t, t.nodes[node := t.nodes[node].(enabled := on)]); }
    }
  }

  /** Every event taken off the queue keeps voice on its slots. */
  lemma StepKeeps(c: Config, s: Sim)
    requires |s.events| > 0 && Kept(c, s)
    ensures Kept(c, Step(c, s))
  {
    PopChannel(s);
    PopFinishes(s);
    StepIsConsistent(c, s);
    StepOnSchedule(c, s);
  }
}
