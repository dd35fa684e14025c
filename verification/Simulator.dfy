/** The simulator as it runs: one object holding the clock, the heap of events, the channel and the
    nodes, each callback proved against its abstract step, and a run loop that terminates. */
module Simulator {
  import opened Words
  import opened VoiceSimulation
  import VoiceChannel
  import VoiceSlots
  import VoiceScenario
  import M = SharedMedium

  // ----- every run ends -----

  /** What an event can still cause: itself, a completion, and its own repetitions before the stop time. */
  function Weight(c: Config, e: Event): nat {
    match e.action
    case Generate(_) => 3 + Left(c, e.time)
    case Slot(_) => 3 + Left(c, e.time)
    case Beacon(_) => 2
    case Finish(_) => 1
    case Enable(_, _) => 1
  }

  function Left(c: Config, time: int): nat { if time < c.stop then 3 * (c.stop - time) else 0 }

  function Total(c: Config, events: seq<Event>): nat {
    if |events| == 0 then 0 else Weight(c, events[0]) + Total(c, events[1..])
  }

  lemma {:induction false} TotalInsert(c: Config, events: seq<Event>, e: Event)
    ensures Total(c, Insert(events, e)) == Total(c, events) + Weight(c, e)
  {
    if |events| > 0 && !Before(e, events[0]) {
      TotalInsert(c, events[1..], e);
      assert Insert(events, e)[1..] == Insert(events[1..], e);
    } else {
      assert Insert(events, e)[1..] == events;
    }
  }

  lemma TotalSchedule(c: Config, s: Sim, time: int, action: Action)
    ensures Total(c, Schedule(s, time, action).events) <= Total(c, s.events) + Weight(c, Event(time, s.nextOrder, action))
  {
    TotalInsert(c, s.events, Event(time, s.nextOrder, action));
  }

  lemma TotalAgain(c: Config, s: Sim, action: Action)
    requires c.interval > 0 && (action.Generate? || action.Slot?)
    ensures Total(c, Again(c, s, action).events) + 1 < Total(c, s.events) + Weight(c, Event(s.now, 0, action))
  {
    TotalSchedule(c, s, s.now + c.interval, action);
  }

  lemma TotalTransmit(c: Config, s: Sim, airtime: int, voice: Option<nat>)
    ensures Total(c, Transmit(s, airtime, voice).events) <= Total(c, s.events) + 1
  {
    TotalSchedule(c, s.(medium := M.Transmit(s.medium, s.now, airtime, voice)), s.now + airtime, Finish(|s.medium.txs|));
  }

  lemma TotalSlot(c: Config, s: Sim, node: nat)
    requires c.interval > 0
    ensures Total(c, Perform(c, s, Slot(node)).events) < Total(c, s.events) + Weight(c, Event(s.now, 0, Slot(node)))
  {
    if node < |s.nodes| {
      var v := s.nodes[node];
      if v.enabled && |v.queue| > 0 {
        var u := s.(nodes := s.nodes[node := v.(queue := v.queue[1..])]);
        TotalTransmit(c, u, c.airtime, Some(node));
        TotalAgain(c, Transmit(u, c.airtime, Some(node)), Slot(node));
      } else {
        TotalAgain(c, s, Slot(node));
      }
    }
  }

  /** Each step leaves strictly less to do. */
  lemma StepShrinks(c: Config, s: Sim)
    requires c.interval > 0 && |s.events| > 0
    ensures Total(c, Step(c, s).events) < Total(c, s.events)
  {
    var e := s.events[0];
    var t := Popped(s);
    match e.action {
      case Slot(node) => TotalSlot(c, t, node);
      case Generate(node) =>
        if node < |t.nodes| {
          var v := t.nodes[node];
          if !Stuck(v, c.maxQueue) {
            var u := if v.enabled then t.(nodes := t.nodes[node := Enqueue(v, t.now, c.maxQueue)]) else t;
            TotalAgain(c, u, e.action);
          }
        }
      case Beacon(airtime) => if airtime > 0 { TotalTransmit(c, t, airtime, None); }
      case Finish(tx) =>
      case Enable(node, on) =>
    }
  }

  lemma StepMovesClock(c: Config, s: Sim)
    requires |s.events| > 0
    ensures Step(c, s).now == s.events[0].time
  {
  }

  // ----- runs -----

  /** The first n steps all take an event due by the given time. */
  ghost predicate DueThrough(c: Config, s: Sim, until: int, n: nat) {
    forall k :: 0 <= k < n ==> !Done(VoiceScenario.Steps(c, s, k), until)
  }

  /** Nothing is left to do by the given time, or an exception has ended the run. */
  predicate Done(s: Sim, until: int) { |s.events| == 0 || s.events[0].time > until || s.raised }

  /** n steps take the simulation to the given time, or to an exception: each is due by then, and after them nothing
      is. */
  ghost predicate Reaches(c: Config, s: Sim, until: int, n: nat) {
    DueThrough(c, s, until, n) && Done(VoiceScenario.Steps(c, s, n), until)
  }

  lemma OneStepMore(c: Config, s: Sim, until: int, n: nat)
    requires DueThrough(c, s, until, n) && !Done(VoiceScenario.Steps(c, s, n), until)
    ensures DueThrough(c, s, until, n + 1)
    ensures VoiceScenario.Steps(c, s, n + 1) == Step(c, VoiceScenario.Steps(c, s, n))
  {
  }

  lemma PauseIsConsistent(s: Sim, until: int)
    requires VoiceChannel.Consistent(s) && Done(s, until) && !s.raised && s.now <= until
    ensures VoiceChannel.Consistent(s.(now := until))
  {
    forall e | e in s.events ensures until <= e.time {
      if e != s.events[0] {
        InOrderTail(s.events);
        assert s.events == [s.events[0]] + s.events[1..];
      }
    }
    forall i | 0 <= i < |s.medium.txs| && s.medium.txs[i].outcome == None ensures until <= s.medium.txs[i].end {
      assert VoiceChannel.Pending(s.events, i);
    }
    M.WaitIsExact(s.medium, s.now, until);
    assert VoiceChannel.EveryoneFinishes(s.(now := until)) by {
      VoiceChannel.PendingGrows(s, s.(now := until));
    }
  }

  /** Where a run ends: at the given time, or at the time of an exception. */
  function Ended(t: Sim, until: int): Sim { if t.raised then t else t.(now := until) }

  /** A run starts with no exception under way. */
  function Resumed(s: Sim): Sim { s.(raised := false) }

  lemma ResumedIsKept(c: Config, s: Sim)
    ensures VoiceChannel.Consistent(s) ==> VoiceChannel.Consistent(Resumed(s))
    ensures VoiceSlots.Kept(c, s) ==> VoiceSlots.Kept(c, Resumed(s))
  {
  }

  /** A run with a positive airtime keeps the channel consistent, and one whose slots fit keeps voice on them. */
  lemma RunKeeps(c: Config, s: Sim, until: int, n: nat)
    requires Reaches(c, s, until, n) && VoiceScenario.Steps(c, s, n).now <= until
    ensures var t := Ended(VoiceScenario.Steps(c, s, n), until);
      && (VoiceChannel.Consistent(s) && c.airtime > 0 ==> VoiceChannel.Consistent(t))
      && (VoiceSlots.Kept(c, s) ==> VoiceSlots.Kept(c, t))
  {
    var t := VoiceScenario.Steps(c, s, n);
    if VoiceChannel.Consistent(s) && c.airtime > 0 {
      VoiceScenario.StepsAreConsistent(c, s, n);
      if !t.raised {
        PauseIsConsistent(t, until);
      }
    }
    if VoiceSlots.Kept(c, s) {
      VoiceScenario.StepsAreKept(c, s, n);
      if !t.raised {
        PauseIsConsistent(t, until);
      }
    }
  }

  // ----- the active list names transmissions -----

  lemma {:induction false} WithoutNames(active: seq<nat>, i: nat)
    ensures forall k :: k in M.Without(active, i) ==> k in active
  {
    if |active| > 0 && active[0] != i {
      WithoutNames(active[1..], i);
    }
  }

  predicate Named(m: M.Medium) { forall i :: i in m.active ==> i < |m.txs| }

  /** Callbacks never leave a dangling entry in the active list. */
  lemma PerformNames(c: Config, s: Sim, action: Action)
    requires Named(s.medium)
    ensures Named(Perform(c, s, action).medium)
  {
    if action.Finish? {
      WithoutNames(s.medium.active, action.tx);
    }
  }

  lemma SpoilMore(txs: seq<M.Tx>, heard: seq<nat>, i: nat, now: int)
    requires i < |txs|
    ensures var before, after := M.Medium(txs, heard), M.Medium(txs, heard + [i]);
      && M.Spoil(before, now)[i].end == txs[i].end
      && M.Spoil(after, now) == (
            if txs[i].end > now then M.Spoil(before, now)[i := M.Spoil(before, now)[i].(collided := true)]
            else M.Spoil(before, now))
      && (M.AnyAudible(after, now) <==> M.AnyAudible(before, now) || txs[i].end > now)
  {
    var before, after := M.Medium(txs, heard), M.Medium(txs, heard + [i]);
    if txs[i].end > now {
      assert M.Audible(after, i, now);
    }
    if M.AnyAudible(before, now) {
      var k :| 0 <= k < |txs| && M.Audible(before, k, now);
      assert M.Audible(after, k, now);
    }
    if M.AnyAudible(after, now) {
      var k :| 0 <= k < |txs| && M.Audible(after, k, now);
      assert k == i || M.Audible(before, k, now);
    }
  }

  /** Insertion skips what comes before the event. */
  lemma InsertLater(events: seq<Event>, e: Event, i: nat)
    requires i < |events| && !Before(e, events[i])
    ensures events[..i] + Insert(events[i..], e) == events[..i + 1] + Insert(events[i + 1..], e)
  {
    var rest := Insert(events[i + 1..], e);
    assert events[i..][1..] == events[i + 1..];
    assert Insert(events[i..], e) == [events[i]] + rest;
    assert events[..i] + ([events[i]] + rest) == (events[..i] + [events[i]]) + rest;
    assert events[..i] + [events[i]] == events[..i + 1];
  }

  class Simulation {
    const config: Config
    var nowUs: int
    var events: seq<Event>
    var nextOrder: nat
    var txs: seq<M.Tx>
    var active: seq<nat>
    var nodes: seq<Voice>
    var raised: bool

    function View(): Sim
      reads this
    {
      Sim(nowUs, events, nextOrder, M.Medium(txs, active), nodes, raised)
    }

    constructor (c: Config)
      ensures View() == VoiceScenario.Empty && config == c
    {
      config := c;
      nowUs, events, nextOrder, txs, active, nodes, raised := 0, [], 0, [], [], [], false;
    }

    method Push(e: Event)
      modifies this`events
      ensures events == Insert(old(events), e)
    {
      var i := 0;
      while i < |events| && !Before(e, events[i])
        invariant 0 <= i <= |events| && events == old(events)
        invariant Insert(events, e) == events[..i] + Insert(events[i..], e)
      {
        InsertLater(events, e, i);
        i := i + 1;
      }
      assert Insert(events[i..], e) == [e] + events[i..];
      assert events[..i] + ([e] + events[i..]) == events[..i] + [e] + events[i..];
      events := events[..i] + [e] + events[i..];
    }

    method ScheduleEvent(time: int, action: Action) returns (ok: bool)
      modifies this`events, this`nextOrder
      ensures ok == ScheduleAt(old(View()), time, action).Some?
      ensures View() == Schedule(old(View()), time, action)
    {
      if time < nowUs {
        return false;
      }
      Push(Event(time, nextOrder, action));
      nextOrder := nextOrder + 1;
      return true;
    }

    /** Marks every transmission the new one can be heard over; collided says whether there was any. */
    method SpoilActive() returns (collided: bool)
      requires Named(View().medium)
      modifies this`txs
      ensures txs == M.Spoil(old(View()).medium, nowUs)
      ensures collided == M.AnyAudible(old(View()).medium, nowUs)
    {
      collided := false;
      var k := 0;
      ghost var before := txs;
      while k < |active|
        invariant 0 <= k <= |active| && |txs| == |before|
        invariant txs == M.Spoil(M.Medium(before, active[..k]), nowUs)
        invariant collided == M.AnyAudible(M.Medium(before, active[..k]), nowUs)
      {
        var i := active[k];
        assert i in active && active[..k + 1] == active[..k] + [i];
        SpoilMore(before, active[..k], i, nowUs);
        if txs[i].end > nowUs {
          txs := txs[i := txs[i].(collided := true)];
          collided := true;
        }
        k := k + 1;
      }
      assert active[..k] == active;
    }

    method TransmitPacket(airtime: int, voice: Option<nat>)
      requires Named(View().medium)
      modifies this`txs, this`active, this`events, this`nextOrder
      ensures View() == Transmit(old(View()), airtime, voice)
    {
      var tx := |txs|;
      var collided := SpoilActive();
      txs := txs + [M.Tx(nowUs, nowUs + airtime, voice, collided, None)];
      active := active + [tx];
      var ok := ScheduleEvent(nowUs + airtime, Finish(tx));
    }

    /** A new node, one slot after the ones before it. */
    method AddNode()
      modifies this
      ensures VoiceScenario.Wired(config, |old(nodes)|) == old(View()) ==>
        View() == VoiceScenario.Wired(config, |old(nodes)| + 1)
    {
      var index := |nodes|;
      nodes := nodes + [Voice(true, [], 0, 0)];
      var first := ScheduleEvent(index * config.spacing, Generate(index));
      var second := ScheduleEvent(index * config.spacing, Slot(index));
    }

    /** Wires a scenario of this many nodes. */
    method AddNodes(count: nat)
      requires View() == VoiceScenario.Empty
      modifies this
      ensures View() == VoiceScenario.Wired(config, count)
    {
      var index := 0;
      while index < count
        invariant 0 <= index <= count && View() == VoiceScenario.Wired(config, index)
      {
        AddNode();
        index := index + 1;
      }
    }

    method CompleteTransmission(tx: nat)
      requires tx < |txs|
      modifies this`txs, this`active
      ensures View() == old(View()).(medium := M.Complete(old(View()).medium, tx))
    {
      txs := txs[tx := txs[tx].(outcome := Some(txs[tx].collided))];
      active := M.Without(active, tx);
    }

    method Repeat(action: Action)
      modifies this`events, this`nextOrder
      ensures View() == Again(config, old(View()), action)
    {
      if nowUs + config.interval < config.stop {
        var ok := ScheduleEvent(nowUs + config.interval, action);
      }
    }

    /** A frame for a full queue replaces the oldest; an empty queue that is full raises before anything is queued. */
    method GenerateFrame(node: nat)
      modifies this`nodes, this`events, this`nextOrder, this`raised
      ensures View() == Perform(config, old(View()), Generate(node))
    {
      if node >= |nodes| {
        return;
      }
      var v := nodes[node];
      if v.enabled {
        var queue := v.queue;
        if |queue| >= config.maxQueue {
          if |queue| == 0 {
            nodes, raised := nodes[node := v.(sequence := v.sequence + 1)], true;
            return;
          }
          queue := queue[1..];
        }
        queue := queue + [nowUs];
        var deepest := if |queue| > v.maxDepth then |queue| else v.maxDepth;
        nodes := nodes[node := Voice(true, queue, v.sequence + 1, deepest)];
      }
      Repeat(Generate(node));
    }

    method SendInSlot(node: nat)
      requires Named(View().medium)
      modifies this
      ensures View() == Perform(config, old(View()), Slot(node))
    {
      if node >= |nodes| {
        return;
      }
      var v := nodes[node];
      if v.enabled && |v.queue| > 0 {
        nodes := nodes[node := v.(queue := v.queue[1..])];
        TransmitPacket(config.airtime, Some(node));
      }
      Repeat(Slot(node));
    }

    method Dispatch(action: Action)
      requires Named(View().medium)
      modifies this
      ensures View() == Perform(config, old(View()), action)
    {
      match action {
        case Generate(node) => GenerateFrame(node);
        case Slot(node) => SendInSlot(node);
        case Finish(tx) =>
          if tx < |txs| {
            CompleteTransmission(tx);
          }
        case Beacon(airtime) =>
          if airtime > 0 {
            TransmitPacket(airtime, None);
          }
        case Enable(node, on) =>
          if node < |nodes| {
            nodes := nodes[node := nodes[node].(enabled := on)];
          }
      }
    }

    /** Takes the first event off the heap and runs its callback. */
    method StepOnce()
      requires |events| > 0 && Named(View().medium) && config.interval > 0
      modifies this
      ensures View() == Step(config, old(View())) && Named(View().medium)
      ensures Total(config, events) < Total(config, old(events)) && nowUs == old(events)[0].time
    {
      StepShrinks(config, View());
      StepMovesClock(config, View());
      var e := events[0];
      events, nowUs, raised := events[1..], e.time, false;
      PerformNames(config, View(), e.action);
      Dispatch(e.action);
    }

    method RunDue(until: int) returns (ghost steps: nat)
      requires Named(View().medium) && config.interval > 0 && nowUs <= until
      modifies this
      ensures Reaches(config, old(View()), until, steps) && View() == VoiceScenario.Steps(config, old(View()), steps)
      ensures Named(View().medium) && nowUs <= until
    {
      steps := 0;
      ghost var start := View();
      while !raised && |events| > 0 && events[0].time <= until
        invariant View() == VoiceScenario.Steps(config, start, steps) && nowUs <= until
        invariant Named(View().medium) && DueThrough(config, start, until, steps)
        decreases Total(config, events)
      {
        OneStepMore(config, start, until, steps);
        StepOnce();
        steps := steps + 1;
      }
    }

    /** Runs every event due by a time, in order, and leaves the clock there, unless a callback raises; in any
        configuration. */
    method Run(until: int) returns (ok: bool, ghost steps: nat)
      requires Named(View().medium) && config.interval > 0
      modifies this
      ensures until < old(nowUs) ==> !ok && View() == old(View())
      ensures until >= old(nowUs) ==>
        && Reaches(config, Resumed(old(View())), until, steps)
        && View() == Ended(VoiceScenario.Steps(config, Resumed(old(View())), steps), until)
        && ok == !raised
      ensures Named(View().medium)
      ensures VoiceChannel.Consistent(old(View())) && config.airtime > 0 ==> VoiceChannel.Consistent(View())
      ensures VoiceSlots.Kept(config, old(View())) ==> VoiceSlots.Kept(config, View())
    {
      if until < nowUs {
        return false, 0;
      }
      ResumedIsKept(config, View());
      raised := false;
      ghost var start := View();
      steps := RunDue(until);
      RunKeeps(config, start, until, steps);
      if raised {
        return false, steps;
      }
      nowUs := until;
      return true, steps;
    }
  }
}
