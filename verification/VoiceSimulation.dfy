/** The discrete-event simulation of slotted voice: an event queue in time and scheduling order, voice
    nodes that generate and send a frame per interval, and any other traffic on the same channel. */
module VoiceSimulation {
  import opened Words
  import M = SharedMedium

  /** Generating and sending by a node, completion of a transmission, other traffic, and faults. */
  datatype Action =
    | Generate(node: nat) | Slot(node: nat) | Finish(tx: nat) | Beacon(airtime: int) | Enable(node: nat, on: bool)

  datatype Event = Event(time: int, order: nat, action: Action)

  /** Zero drift: every node's local period is the frame interval. */
  datatype Config = Config(interval: int, spacing: int, airtime: int, stop: int, maxQueue: int)

  datatype Voice = Voice(enabled: bool, queue: seq<int>, sequence: nat, maxDepth: nat)

  /** raised says that the last callback ended in an exception, which ends the run; the object can be run again. */
  datatype Sim = Sim(
    now: int, events: seq<Event>, nextOrder: nat, medium: M.Medium, nodes: seq<Voice>, raised: bool)

  // ----- the event queue -----

  predicate Before(a: Event, b: Event) { a.time < b.time || (a.time == b.time && a.order < b.order) }

  /** A heap is its events in the order they come out. */
  function Insert(events: seq<Event>, e: Event): seq<Event> {
    if |events| == 0 || Before(e, events[0]) then [e] + events else [events[0]] + Insert(events[1..], e)
  }

  /** Scheduling in the past is an error. */
  function ScheduleAt(s: Sim, time: int, action: Action): Option<Sim> {
    if time < s.now then None
    else Some(s.(events := Insert(s.events, Event(time, s.nextOrder, action)), nextOrder := s.nextOrder + 1))
  }

  function Schedule(s: Sim, time: int, action: Action): Sim {
    match ScheduleAt(s, time, action)
    case Some(t) => t
    case None => s
  }

  // ----- what the callbacks do -----

  function Transmit(s: Sim, airtime: int, voice: Option<nat>): Sim {
    var tx := |s.medium.txs|;
    Schedule(s.(medium := M.Transmit(s.medium, s.now, airtime, voice)), s.now + airtime, Finish(tx))
  }

  /** An empty queue that is already full has nothing to give up. */
  predicate Stuck(v: Voice, maxQueue: int) { v.enabled && |v.queue| == 0 && maxQueue <= 0 }

  function Enqueue(v: Voice, created: int, maxQueue: int): Voice
    requires v.enabled && !Stuck(v, maxQueue)
  {
    var kept := if |v.queue| >= maxQueue then v.queue[1..] else v.queue;
    var queue := kept + [created];
    v.(queue := queue, sequence := v.sequence + 1, maxDepth := if |queue| > v.maxDepth then |queue| else v.maxDepth)
  }

  function Again(c: Config, s: Sim, action: Action): Sim {
    if s.now + c.interval < c.stop then Schedule(s, s.now + c.interval, action) else s
  }

  function Perform(c: Config, s: Sim, action: Action): Sim {
    match action
    case Generate(n) =>
      if n >= |s.nodes| then s
      else
        var v := s.nodes[n];
        if Stuck(v, c.maxQueue) then
          s.(nodes := s.nodes[n := v.(sequence := v.sequence + 1)], raised := true)
        else if v.enabled then
          Again(c, s.(nodes := s.nodes[n := Enqueue(v, s.now, c.maxQueue)]), action)
        else Again(c, s, action)
    case Slot(n) =>
      if n >= |s.nodes| then s
      else
        var v := s.nodes[n];
        var t :=
          if v.enabled && |v.queue| > 0
          then Transmit(s.(nodes := s.nodes[n := v.(queue := v.queue[1..])]), c.airtime, Some(n))
          else s;
        Again(c, t, action)
    case Finish(tx) => if tx < |s.medium.txs| then s.(medium := M.Complete(s.medium, tx)) else s
    case Beacon(airtime) => if airtime > 0 then Transmit(s, airtime, None) else s
    case Enable(n, on) => if n < |s.nodes| then s.(nodes := s.nodes[n := s.nodes[n].(enabled := on)]) else s
  }

  function Popped(s: Sim): Sim
    requires |s.events| > 0
  {
    s.(now := s.events[0].time, events := s.events[1..], raised := false)
  }

  /** Take the first event and run its callback at its time. */
  function Step(c: Config, s: Sim): Sim
    requires |s.events| > 0
  {
    Perform(c, Popped(s), s.events[0].action)
  }

  /** With room for a frame in every queue nothing raises; with none, exactly a node's frame for an empty queue does. */
  lemma RaisesExactly(c: Config, s: Sim)
    requires |s.events| > 0
    ensures Step(c, s).raised <==>
      match s.events[0].action
      case Generate(n) => c.maxQueue <= 0 && n < |s.nodes| && s.nodes[n].enabled && |s.nodes[n].queue| == 0
      case _ => false
  {
  }

  // ----- the queue is in order -----

  predicate InOrder(events: seq<Event>) {
    forall i, j :: 0 <= i < j < |events| ==> Before(events[i], events[j])
  }

  predicate Queued(s: Sim) {
    && InOrder(s.events)
    && (forall e :: e in s.events ==> s.now <= e.time && e.order < s.nextOrder)
  }

  lemma {:induction false} InsertMembers(events: seq<Event>, e: Event)
    ensures |Insert(events, e)| == |events| + 1
    ensures forall f :: f in Insert(events, e) <==> f == e || f in events
  {
    if |events| > 0 {
      assert events == [events[0]] + events[1..];
      if !Before(e, events[0]) {
        InsertMembers(events[1..], e);
      }
    }
  }

  lemma InOrderFrom(first: Event, rest: seq<Event>)
    requires InOrder(rest) && forall f :: f in rest ==> Before(first, f)
    ensures InOrder([first] + rest)
  {
  }

  lemma InOrderTail(events: seq<Event>)
    requires |events| > 0 && InOrder(events)
    ensures InOrder(events[1..])
    ensures forall f :: f in events[1..] ==> Before(events[0], f) && f in events
    ensures events[0] !in events[1..]
  {
  }

  lemma {:induction false} InsertInOrder(events: seq<Event>, e: Event)
    requires InOrder(events) && forall f :: f in events ==> f.order < e.order
    ensures InOrder(Insert(events, e))
  {
    if |events| > 0 {
      var first, rest := events[0], events[1..];
      InOrderTail(events);
      if Before(e, first) {
        InOrderFrom(e, events);
      } else {
        InsertInOrder(rest, e);
        InsertMembers(rest, e);
        InOrderFrom(first, Insert(rest, e));
      }
    }
  }

  lemma ScheduleKeepsQueue(s: Sim, time: int, action: Action)
    requires Queued(s) && s.now <= time
    ensures var t := Schedule(s, time, action);
      && Queued(t) && t == s.(events := t.events, nextOrder := t.nextOrder)
      && (forall e :: e in t.events <==> e == Event(time, s.nextOrder, action) || e in s.events)
  {
    var e := Event(time, s.nextOrder, action);
    InsertMembers(s.events, e);
    InsertInOrder(s.events, e);
  }
}
