/** What every step of the simulation keeps, whatever the configuration: the event queue completes each
    transmission exactly when it ends, so collisions are marked exactly. */
module VoiceChannel {
  import opened Words
  import opened VoiceSimulation
  import M = SharedMedium

  // ----- completion events -----

  ghost predicate Pending(events: seq<Event>, tx: nat) { exists e :: e in events && e.action == Finish(tx) }

  /** Each completion event belongs to a transmission under way, at its end. */
  ghost predicate FinishesAreDue(s: Sim) {
    forall e :: e in s.events && e.action.Finish? ==>
      && e.action.tx < |s.medium.txs| && s.medium.txs[e.action.tx].outcome == None
      && s.medium.txs[e.action.tx].end == e.time
  }

  ghost predicate EveryoneFinishes(s: Sim) {
    forall i :: 0 <= i < |s.medium.txs| && s.medium.txs[i].outcome == None ==> Pending(s.events, i)
  }

  /** No completion is queued twice. */
  ghost predicate FinishesOnce(events: seq<Event>) {
    forall e, f :: e in events && f in events && e.action == f.action && e.action.Finish? ==> e == f
  }

  ghost predicate Channel(s: Sim) {
    Queued(s) && FinishesOnce(s.events) && FinishesAreDue(s) && M.Exact(s.medium, s.now)
  }

  ghost predicate Consistent(s: Sim) { Channel(s) && EveryoneFinishes(s) }

  // ----- taking an event off the queue -----

  lemma PopChannel(s: Sim)
    requires |s.events| > 0 && Consistent(s)
    ensures Channel(Popped(s))
    ensures forall f :: f in s.events <==> f == s.events[0] || f in s.events[1..]
    ensures s.events[0].action.Finish? ==> forall f :: f in s.events[1..] ==> f.action != s.events[0].action
  {
    var e := s.events[0];
    InOrderTail(s.events);
    assert s.events == [e] + s.events[1..];
    forall i | 0 <= i < |s.medium.txs| && s.medium.txs[i].outcome == None ensures e.time <= s.medium.txs[i].end {
      assert Pending(s.events, i);
    }
    M.WaitIsExact(s.medium, s.now, e.time);
  }

  lemma PopFinishes(s: Sim)
    requires |s.events| > 0 && Consistent(s)
    ensures forall i :: 0 <= i < |s.medium.txs| && s.medium.txs[i].outcome == None ==>
      Pending(Popped(s).events, i) || s.events[0].action == Finish(i)
  {
    assert s.events == [s.events[0]] + s.events[1..];
    forall i | 0 <= i < |s.medium.txs| && s.medium.txs[i].outcome == None && s.events[0].action != Finish(i)
      ensures Pending(Popped(s).events, i) {
      assert Pending(s.events, i);
      var e :| e in s.events && e.action == Finish(i);
      assert e in s.events[1..];
    }
  }

  // ----- scheduling -----

  lemma PendingGrows(s: Sim, t: Sim)
    requires s.medium == t.medium && forall e :: e in s.events ==> e in t.events
    ensures EveryoneFinishes(s) ==> EveryoneFinishes(t)
  {
    if EveryoneFinishes(s) {
      forall i | 0 <= i < |t.medium.txs| && t.medium.txs[i].outcome == None ensures Pending(t.events, i) {
        assert Pending(s.events, i);
      }
    }
  }

  /** Anything but a completion may be scheduled freely; in the past it is refused. */
  lemma AddPlain(s: Sim, time: int, action: Action)
    requires Consistent(s) && !action.Finish?
    ensures Consistent(Schedule(s, time, action))
  {
    if s.now <= time {
      ScheduleKeepsQueue(s, time, action);
      PendingGrows(s, Schedule(s, time, action));
    }
  }

  // ----- transmitting -----

  lemma TransmitParts(m: M.Medium, now: int, airtime: int, voice: Option<nat>)
    ensures var after := M.Transmit(m, now, airtime, voice);
      && |after.txs| == |m.txs| + 1
      && (forall k :: 0 <= k < |m.txs| ==>
            && after.txs[k].start == m.txs[k].start && after.txs[k].end == m.txs[k].end
            && after.txs[k].voice == m.txs[k].voice && after.txs[k].outcome == m.txs[k].outcome)
      && after.txs[|m.txs|].start == now && after.txs[|m.txs|].end == now + airtime
      && after.txs[|m.txs|].voice == voice && after.txs[|m.txs|].outcome == None
  {
  }

  lemma TransmitChannel(s: Sim, airtime: int, voice: Option<nat>)
    requires Channel(s) && airtime > 0
    ensures Channel(Transmit(s, airtime, voice))
  {
    var u := s.(medium := M.Transmit(s.medium, s.now, airtime, voice));
    TransmitParts(s.medium, s.now, airtime, voice);
    M.TransmitIsExact(s.medium, s.now, airtime, voice);
    ScheduleKeepsQueue(u, s.now + airtime, Finish(|s.medium.txs|));
  }

  lemma TransmitFinishes(s: Sim, airtime: int, voice: Option<nat>)
    requires Consistent(s) && airtime > 0
    ensures EveryoneFinishes(Transmit(s, airtime, voice))
  {
    var u := s.(medium := M.Transmit(s.medium, s.now, airtime, voice));
    var t := Transmit(s, airtime, voice);
    TransmitParts(s.medium, s.now, airtime, voice);
    ScheduleKeepsQueue(u, s.now + airtime, Finish(|s.medium.txs|));
    forall i | 0 <= i < |t.medium.txs| && t.medium.txs[i].outcome == None ensures Pending(t.events, i) {
      if i < |s.medium.txs| {
        assert Pending(s.events, i);
      } else {
        assert Event(s.now + airtime, s.nextOrder, Finish(i)) in t.events;
      }
    }
  }

  lemma TransmitConsistent(s: Sim, airtime: int, voice: Option<nat>)
    requires Consistent(s) && airtime > 0
    ensures Consistent(Transmit(s, airtime, voice))
  {
    TransmitChannel(s, airtime, voice);
    TransmitFinishes(s, airtime, voice);
  }

  lemma NodesDoNotMatter(s: Sim, nodes: seq<Voice>)
    ensures Consistent(s) ==> Consistent(s.(nodes := nodes)) && Consistent(s.(nodes := nodes, raised := true))
  {
  }

  // ----- one step -----

  lemma FinishConsistent(s: Sim, tx: nat)
    requires Channel(s) && tx < |s.medium.txs| && s.medium.txs[tx].outcome == None
    requires s.medium.txs[tx].end == s.now
    requires forall f :: f in s.events ==> f.action != Finish(tx)
    requires forall i :: 0 <= i < |s.medium.txs| && s.medium.txs[i].outcome == None ==> Pending(s.events, i) || i == tx
    ensures Consistent(s.(medium := M.Complete(s.medium, tx)))
  {
    M.CompleteIsExact(s.medium, s.now, tx);
  }

  lemma AgainConsistent(c: Config, s: Sim, action: Action)
    requires Consistent(s) && !action.Finish?
    ensures Consistent(Again(c, s, action))
  {
    AddPlain(s, s.now + c.interval, action);
  }

  lemma SlotConsistent(c: Config, s: Sim, node: nat)
    requires Consistent(s) && c.airtime > 0 && node < |s.nodes|
    ensures Consistent(Perform(c, s, Slot(node)))
  {
    var v := s.nodes[node];
    if v.enabled && |v.queue| > 0 {
      var u := s.(nodes := s.nodes[node := v.(queue := v.queue[1..])]);
      NodesDoNotMatter(s, u.nodes);
      TransmitConsistent(u, c.airtime, Some(node));
      AgainConsistent(c, Transmit(u, c.airtime, Some(node)), Slot(node));
    } else {
      AgainConsistent(c, s, Slot(node));
    }
  }

  lemma GenerateConsistent(c: Config, s: Sim, node: nat)
    requires Consistent(s) && node < |s.nodes|
    ensures Consistent(Perform(c, s, Generate(node)))
  {
    var v := s.nodes[node];
    if Stuck(v, c.maxQueue) {
      NodesDoNotMatter(s, s.nodes[node := v.(sequence := v.sequence + 1)]);
    } else {
      var t := if v.enabled then s.(nodes := s.nodes[node := Enqueue(v, s.now, c.maxQueue)]) else s;
      NodesDoNotMatter(s, t.nodes);
      AgainConsistent(c, t, Generate(node));
    }
  }

  /** Every step of every configuration with a positive airtime. */
  lemma StepIsConsistent(c: Config, s: Sim)
    requires |s.events| > 0 && Consistent(s) && c.airtime > 0
    ensures Consistent(Step(c, s))
  {
    var e, t := s.events[0], Popped(s);
    PopChannel(s);
    PopFinishes(s);
    assert e in s.events;
    match e.action {
      case Finish(tx) => FinishConsistent(t, tx);
      case Slot(node) => if node < |t.nodes| { SlotConsistent(c, t, node); }
      case Generate(node) => if node < |t.nodes| { GenerateConsistent(c, t, node); }
      case Beacon(airtime) => if airtime > 0 { TransmitConsistent(t, airtime, None); }
      case Enable(node, on) =>
        if node < |t.nodes| { NodesDoNotMatter(t, t.nodes[node := t.nodes[node].(enabled := on)]); }
    }
  }
}
