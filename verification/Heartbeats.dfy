/** When heartbeats are sent and how long one lasts: a follower that keeps hearing its coordinator stays quiet, one that
    does not waits out its election delay, and a coordinator sends once for every period that comes due. */
module Heartbeats {
  import opened Words
  import opened Coordinator
  import opened Multiples
  import Tdma

  const CLOCK: int := 0x1_0000_0000_0000_0000

  // ----- hearing -----

  /** A heartbeat counts if a member sent it and its view is not behind the node's own. */
  predicate Counts(c: Config, s: State, h: Heartbeat) {
    h.id in c.members && AtLeast(View(h.epoch, h.id), ViewOf(s))
  }

  /** Exactly those are accepted: the node takes over what they say and may elect their sender again. */
  lemma HeardExactly(c: Config, s: State, h: Heartbeat, now: u64)
    ensures var (t, ok) := Receive(c, s, h, now);
      && (ok <==> Counts(c, s, h)) && (!ok ==> t == s)
      && (ok ==>
            && ViewOf(t) == View(h.epoch, h.id) && t.origin == h.origin && t.lastHeartbeat == now
            && t.eligible == s.eligible + {h.id}
            && t.role == (if h.id == c.nodeId then Coordinating else Follower)
            && (t.role == Coordinating ==> t.nextHeartbeat == Wrap64(now + c.heartbeatInterval)))
  {
  }

  /** A node's slots follow the heartbeat it hears: the next one it computes is the least of that origin's, exactly
      when nothing overflows. */
  lemma HeardSlots(c: Config, s: State, h: Heartbeat, now: u64, notBefore: u64)
    requires ValidConfig(c) && Counts(c, s, h)
    ensures var slot := Tdma.NextSlot(c, Receive(c, s, h, now).0.origin, notBefore);
      Tdma.LeastSlot(c, h.origin, notBefore, slot) <==> Tdma.Fits(c, h.origin, notBefore)
  {
    HeardExactly(c, s, h, now);
    Tdma.NextSlotIsLeast(c, h.origin, notBefore);
  }

  // ----- a coordinator that is heard -----

  /** After a heartbeat of another node, a tick notices exactly when more than the timeout has passed. */
  lemma HeardLastsExactly(c: Config, s: State, h: Heartbeat, now: u64, later: u64)
    requires ValidConfig(c) && Counts(c, s, h) && h.id != c.nodeId && now <= later
    ensures var t := Receive(c, s, h, now).0;
      && (Tick(c, t, later).1.timedOut <==> later - now > c.heartbeatTimeout)
      && (later - now <= c.heartbeatTimeout ==> Tick(c, t, later) == (t, Quiet))
  {
  }

  /** Ticks no later than one timeout after the last heartbeat that counted, on a clock that never runs back. */
  predicate InTouch(c: Config, s: State, last: nat, events: seq<Event>)
    requires ValidConfig(c)
    decreases |events|
  {
    if |events| == 0 then true
    else
      var t := Next(c, s, events[0]);
      match events[0]
      case Ticking(now) => last <= now <= last + c.heartbeatTimeout && InTouch(c, t, last, events[1..])
      case Hearing(h, now) =>
        last <= now && h.id != c.nodeId && InTouch(c, t, if Counts(c, s, h) then now else last, events[1..])
      case Marking(id, eligible) => InTouch(c, t, last, events[1..])
  }

  /** No tick of a run does anything. */
  predicate AllQuiet(c: Config, s: State, events: seq<Event>)
    requires ValidConfig(c)
    decreases |events|
  {
    |events| > 0 ==>
      && (events[0].Ticking? ==> Tick(c, s, events[0].now) == (s, Quiet))
      && AllQuiet(c, Next(c, s, events[0]), events[1..])
  }

  /** A follower that hears its coordinator, or a better one, at least once per timeout never times out and never
      elects, whatever else it hears or is told. */
  lemma {:induction false} InTouchIsQuiet(c: Config, s: State, last: nat, events: seq<Event>)
    requires ValidConfig(c) && s.role == Follower && s.lastHeartbeat == last && InTouch(c, s, last, events)
    ensures AllQuiet(c, s, events)
    decreases |events|
  {
    if |events| > 0 {
      var t := Next(c, s, events[0]);
      match events[0] {
        case Ticking(now) => InTouchIsQuiet(c, t, last, events[1..]);
        case Hearing(h, now) =>
          HeardExactly(c, s, h, now);
          InTouchIsQuiet(c, t, if Counts(c, s, h) then now else last, events[1..]);
        case Marking(id, eligible) => InTouchIsQuiet(c, t, last, events[1..]);
      }
    }
  }

  // ----- one that is not -----

  /** A follower that times out gives its coordinator up, keeps its view, and does nothing more until the election
      delay is over. Then it elects the lowest eligible member, if there is one: as a follower it gives that node a
      whole timeout from then, and as coordinator it sends at once; slots are counted from then. */
  lemma TimedOutWaits(c: Config, s: State, now: u64, later: u64)
    requires ValidConfig(c) && TimesOut(c, s, now) && now <= later && now + c.electionDelay < CLOCK
    ensures var t := Tick(c, s, now).0;
      && t.role == Electing && ViewOf(t) == ViewOf(s) && t.eligible == s.eligible - {s.coordinator}
      && Tick(c, s, now).1 == Actions(false, true, false)
      && (later < now + c.electionDelay ==> Tick(c, t, later) == (t, Quiet))
      && (later >= now + c.electionDelay ==>
            (Tick(c, t, later).1.changed <==> exists id :: NodeId(id) && id in t.eligible))
  {
    var t := Tick(c, s, now).0;
    SomeoneIsLowest(t.eligible);
  }

  lemma ElectedTakesOver(c: Config, s: State, now: u64)
    requires ValidConfig(c) && Tick(c, s, now).1.changed
    ensures var (t, a) := Tick(c, s, now);
      && NodeId(t.coordinator) && t.coordinator in t.eligible && t.epoch == Wrap32(s.epoch + 1)
      && (forall id :: NodeId(id) && id in t.eligible ==> t.coordinator <= id)
      && t.origin == now && t.lastHeartbeat == now
      && t.role == (if t.coordinator == c.nodeId then Coordinating else Follower)
      && a.sendHeartbeat == (t.role == Coordinating)
      && (t.role == Coordinating ==> t.nextHeartbeat == Wrap64(now + c.heartbeatInterval))
  {
  }

  lemma ElectedGetsATimeout(c: Config, s: State, now: u64, later: u64)
    requires ValidConfig(c) && Tick(c, s, now).1.changed && Tick(c, s, now).0.role == Follower
    requires now <= later <= now + c.heartbeatTimeout
    ensures Tick(c, Tick(c, s, now).0, later) == (Tick(c, s, now).0, Quiet)
  {
    ElectedTakesOver(c, s, now);
  }

  // ----- a coordinator's own heartbeats -----

  /** A heartbeat of the schedule that starts at d is due after one time and until another. */
  ghost predicate ComesDue(d: nat, period: nat, after: int, until: int) {
    exists k: nat :: after < At(d, period, k) <= until
  }

  function At(d: nat, period: nat, k: nat): nat { d + k * period }

  /** The coordinator's next heartbeat is the first of the schedule after this time. */
  ghost predicate Awaits(c: Config, s: State, d: nat, k: nat, now: int) {
    && s.role == Coordinating && s.nextHeartbeat == At(d, c.heartbeatInterval, k)
    && now < s.nextHeartbeat && (k > 0 ==> At(d, c.heartbeatInterval, k - 1) <= now)
  }

  lemma LaterAt(d: nat, period: nat, j: nat, k: nat)
    requires j <= k
    ensures At(d, period, j) <= At(d, period, k)
  {
    Rises(j, k, period);
  }

  lemma DueExactly(d: nat, period: nat, k: nat, after: int, until: int)
    requires after < At(d, period, k) && (k > 0 ==> At(d, period, k - 1) <= after)
    ensures ComesDue(d, period, after, until) <==> At(d, period, k) <= until
  {
    if ComesDue(d, period, after, until) {
      var j: nat :| after < At(d, period, j) <= until;
      if j < k {
        LaterAt(d, period, j, k - 1);
      } else {
        LaterAt(d, period, k, j);
      }
    }
  }

  lemma MoreAt(d: nat, period: nat, k: nat, m: nat)
    ensures At(d, period, k + m) == At(d, period, k) + m * period
  {
    assert (k + m) * period == k * period + m * period;
  }

  lemma AdvancedAt(d: nat, period: u32, k: nat, next: u64) returns (k': nat)
    requires period != 0 && At(d, period, k) <= next && next + period < CLOCK
    ensures k' > 0 && AdvancePeriodic(At(d, period, k), period, next) == At(d, period, k')
    ensures At(d, period, k' - 1) <= next < At(d, period, k')
  {
    var deadline := At(d, period, k);
    var m := Tdma.PeriodsPast(deadline, period, next);
    Tdma.AdvanceIsNextPeriod(deadline, period, next);
    k' := k + m;
    MoreAt(d, period, k, m);
    MoreAt(d, period, k, m - 1);
    MoreAt(d, period, k' - 1, 1);
  }

  lemma CoordinatorTick(c: Config, s: State, d: nat, k: nat, now: int, next: u64) returns (k': nat)
    requires ValidConfig(c) && Awaits(c, s, d, k, now) && now <= next && next + c.heartbeatInterval < CLOCK
    ensures var (t, a) := Tick(c, s, next);
      && (a.sendHeartbeat <==> ComesDue(d, c.heartbeatInterval, now, next)) && !a.timedOut && !a.changed
      && Awaits(c, t, d, k', next) && t == s.(nextHeartbeat := t.nextHeartbeat)
  {
    DueExactly(d, c.heartbeatInterval, k, now, next);
    k' := k;
    if s.nextHeartbeat <= next {
      k' := AdvancedAt(d, c.heartbeatInterval, k, next);
    }
  }

  /** Each tick of a run sends a heartbeat exactly if one has come due since the tick before. */
  ghost predicate SendsWhenDue(c: Config, s: State, d: nat, now: int, times: seq<u64>)
    requires ValidConfig(c)
    decreases |times|
  {
    |times| > 0 ==>
      && (Tick(c, s, times[0]).1.sendHeartbeat <==> ComesDue(d, c.heartbeatInterval, now, times[0]))
      && SendsWhenDue(c, Tick(c, s, times[0]).0, d, times[0], times[1..])
  }

  predicate Forward(now: int, times: seq<u64>, period: nat) {
    && (|times| > 0 ==> now <= times[0])
    && (forall i :: 0 <= i < |times| - 1 ==> times[i] <= times[i + 1])
    && (forall i :: 0 <= i < |times| ==> times[i] + period < CLOCK)
  }

  /** A coordinator ticked along a clock that runs forward sends with exactly those ticks by which a period of its
      schedule has come due since the tick before: none is left out and none is sent twice. */
  lemma {:induction false} SendsExactly(c: Config, s: State, d: nat, k: nat, now: int, times: seq<u64>)
    requires ValidConfig(c) && Awaits(c, s, d, k, now) && Forward(now, times, c.heartbeatInterval)
    ensures SendsWhenDue(c, s, d, now, times)
    decreases |times|
  {
    if |times| > 0 {
      var next := CoordinatorTick(c, s, d, k, now, times[0]);
      ForwardOn(now, times, c.heartbeatInterval);
      SendsExactly(c, Tick(c, s, times[0]).0, d, next, times[0], times[1..]);
    }
  }

  lemma ForwardOn(now: int, times: seq<u64>, period: nat)
    requires |times| > 0 && Forward(now, times, period)
    ensures Forward(times[0], times[1..], period)
  {
  }

  /** The schedule starts one interval after a node becomes coordinator: at its start, by election, or by hearing
      itself named. */
  lemma ScheduleStarts(c: Config, s: State, h: Heartbeat, now: u64)
    requires ValidConfig(c) && now + c.heartbeatInterval < CLOCK
    ensures var d := now + c.heartbeatInterval;
      && (c.initialCoordinator == c.nodeId ==> Awaits(c, Init(c, now), d, 0, now))
      && (var (t, a) := Tick(c, s, now); a.changed && t.role == Coordinating ==> Awaits(c, t, d, 0, now))
      && (Counts(c, s, h) && h.id == c.nodeId ==> Awaits(c, Receive(c, s, h, now).0, d, 0, now))
  {
  }

  /** Only a coordinator sends. */
  lemma OnlyCoordinatorsSend(c: Config, s: State, now: u64)
    requires ValidConfig(c)
    ensures var (t, a) := Tick(c, s, now); a.sendHeartbeat ==> t.role == Coordinating
  {
  }

  /** Marking a member makes exactly it eligible or not; anyone else is refused. Nothing else changes. */
  lemma MarkedExactly(c: Config, s: State, id: nat, eligible: bool)
    ensures var (t, ok) := SetEligible(c, s, id, eligible);
      && (ok <==> id in c.members) && t == s.(eligible := t.eligible)
      && (forall k :: k in t.eligible <==> if ok && k == id then eligible else k in s.eligible)
  {
  }

  /** A node starts with the coordinator it is configured with, whom it has just heard of, and may elect any member,
      itself included. */
  lemma StartsAsConfigured(c: Config, now: u64)
    requires ValidConfig(c)
    ensures var s := Init(c, now);
      && ViewOf(s) == View(0, c.initialCoordinator) && RoleHolds(c, s)
      && s.role == (if c.initialCoordinator == c.nodeId then Coordinating else Follower)
      && s.eligible == c.members && c.nodeId in s.eligible
      && s.origin == now && s.lastHeartbeat == now
  {
  }
}
