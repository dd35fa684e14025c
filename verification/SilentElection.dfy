/** A node that hears nobody becomes coordinator, after a bounded number of elections and within a
    bounded time, as long as its clock runs forward and it is ticked often enough. */
module SilentElection {
  import opened Words
  import opened Coordinator

  /** Eligible ids below an id: the candidates that would be elected before it. */
  function Below(eligible: set<nat>, id: nat): nat {
    if id <= 1 then 0 else Below(eligible, id - 1) + if id - 1 in eligible then 1 else 0
  }

  lemma {:induction false} BelowWithout(eligible: set<nat>, gone: nat, id: nat)
    ensures Below(eligible - {gone}, id) == Below(eligible, id) - if gone in eligible && 1 <= gone < id then 1 else 0
  {
    if id > 1 {
      BelowWithout(eligible, gone, id - 1);
    }
  }

  /** Elections still to come, at most: one per eligible lower id that is not already being followed,
      and the one the node wins. */
  function Pending(c: Config, s: State): nat {
    match s.role
    case Coordinating => 0
    case Follower => Below(s.eligible - {s.coordinator}, c.nodeId) + 1
    case Electing => Below(s.eligible, c.nodeId) + 1
  }

  predicate Standing(c: Config, s: State) {
    ValidConfig(c) && RoleHolds(c, s) && c.nodeId in s.eligible
  }

  lemma PendingIsBounded(c: Config, s: State)
    ensures Pending(c, s) <= Below(s.eligible, c.nodeId) + 1
  {
    BelowWithout(s.eligible, s.coordinator, c.nodeId);
  }

  /** The lowest of a set that holds the node is the node itself, or an eligible id below it. */
  lemma ElectionOutcome(c: Config, s: State, now: u64)
    requires Standing(c, s) && s.role == Electing && now >= s.deadline
    ensures var (t, changed) := Elect(c, s, now);
      && changed && Standing(c, t) && t.eligible == s.eligible && Pending(c, t) < Pending(c, s)
      && (t.role == Coordinating || (t.role == Follower && t.coordinator in s.eligible && t.coordinator < c.nodeId))
      && t.lastHeartbeat == now
  {
    var elected := Lowest(s.eligible);
    BelowWithout(s.eligible, elected, c.nodeId);
  }

  lemma TimeOutOutcome(c: Config, s: State, now: u64)
    requires Standing(c, s) && TimeOut(c, s, now).1
    ensures var t := TimeOut(c, s, now).0;
      && Standing(c, t) && t.role == Electing && Pending(c, t) == Pending(c, s)
      && t.eligible == s.eligible - {s.coordinator} && t.deadline == Wrap64(now + c.electionDelay)
  {
  }

  /** One tick: elections only ever use up the count. */
  lemma TickSpendsElections(c: Config, s: State, now: u64)
    requires Standing(c, s)
    ensures var (t, actions) := Tick(c, s, now);
      && Standing(c, t)
      && Pending(c, t) + (if actions.changed then 1 else 0) <= Pending(c, s)
      && (s.role == Coordinating ==> t.role == Coordinating)
  {
    if s.role != Coordinating {
      var (u, timedOut) := TimeOut(c, s, now);
      if timedOut {
        TimeOutOutcome(c, s, now);
      }
      if u.role == Electing && now >= u.deadline {
        ElectionOutcome(c, u, now);
      }
    }
  }

  function Ticks(c: Config, s: State, times: seq<u64>): (r: (State, nat))
    requires ValidConfig(c)
    decreases |times|
  {
    if |times| == 0 then (s, 0)
    else
      var (t, actions) := Tick(c, s, times[0]);
      var (u, elections) := Ticks(c, t, times[1..]);
      (u, elections + if actions.changed then 1 else 0)
  }

  /** Whatever the clock does, a silent node holds at most one election more than there are eligible
      lower ids, and a coordinator stays one. */
  lemma {:induction false} ElectionsAreBounded(c: Config, s: State, times: seq<u64>)
    requires Standing(c, s)
    ensures var (t, elections) := Ticks(c, s, times);
      && Standing(c, t)
      && elections + Pending(c, t) <= Pending(c, s) <= Below(s.eligible, c.nodeId) + 1
      && (s.role == Coordinating ==> t.role == Coordinating)
    decreases |times|
  {
    PendingIsBounded(c, s);
    if |times| > 0 {
      TickSpendsElections(c, s, times[0]);
      ElectionsAreBounded(c, Tick(c, s, times[0]).0, times[1..]);
    }
  }

  // ----- and it gets there -----

  /** n times round. */
  function Rounds(n: nat, round: nat): nat {
    if n == 0 then 0 else round + Rounds(n - 1, round)
  }

  lemma {:induction false} RoundsGrow(n: nat, m: nat, round: nat)
    requires n <= m
    ensures Rounds(n, round) <= Rounds(m, round)
    decreases m
  {
    if n < m {
      RoundsGrow(n, m - 1, round);
    }
  }

  /** Timeout, election delay, and up to one tick gap of lateness for each. */
  function Round(c: Config, gap: nat): nat { c.heartbeatTimeout + c.electionDelay + 2 * gap }

  /** A time by which the node is coordinator, if it is ticked at least every gap microseconds. */
  function Due(c: Config, s: State, gap: nat): nat {
    match s.role
    case Coordinating => 0
    case Follower => s.lastHeartbeat + Rounds(Pending(c, s), Round(c, gap))
    case Electing => s.deadline + gap + Rounds(Pending(c, s) - 1, Round(c, gap))
  }

  /** The state just after a tick at now: nothing that was due has been missed. */
  predicate Prompt(c: Config, s: State, now: nat) {
    && (s.role == Follower ==> s.lastHeartbeat <= now <= s.lastHeartbeat + c.heartbeatTimeout)
    && (s.role == Electing ==> now < s.deadline)
  }

  /** Ticks in order, none more than gap after the one before, all far from the end of the 64-bit clock. */
  predicate Steady(now: nat, times: seq<u64>, gap: nat) {
    && (forall i :: 0 <= i < |times| ==> times[i] < 0xffff_ffff_0000_0000)
    && (|times| > 0 ==> now <= times[0] <= now + gap)
    && (forall i :: 0 <= i < |times| - 1 ==> times[i] <= times[i + 1] <= times[i] + gap)
  }

  lemma PromptIsEarly(c: Config, s: State, now: nat, gap: nat)
    requires Standing(c, s) && Prompt(c, s, now) && s.role != Coordinating
    ensures now < Due(c, s, gap)
  {
    if s.role == Follower {
      assert Rounds(Pending(c, s), Round(c, gap)) >= Round(c, gap);
    }
  }

  lemma PromptTimeOut(c: Config, s: State, now: nat, next: u64, gap: nat)
    requires Standing(c, s) && Prompt(c, s, now) && s.role == Follower
    requires now <= next <= now + gap && next < 0xffff_ffff_0000_0000
    ensures var (t, timedOut) := TimeOut(c, s, next);
      if timedOut then t.role == Electing && next < t.deadline && Due(c, t, gap) <= Due(c, s, gap)
      else t == s && Prompt(c, s, next)
  {
    var (t, timedOut) := TimeOut(c, s, next);
    if timedOut {
      TimeOutOutcome(c, s, next);
      assert Rounds(Pending(c, s), Round(c, gap)) == Round(c, gap) + Rounds(Pending(c, s) - 1, Round(c, gap));
    }
  }

  lemma PromptElection(c: Config, s: State, now: nat, next: u64, gap: nat)
    requires Standing(c, s) && s.role == Electing && s.deadline <= next <= s.deadline + gap
    ensures var t := Elect(c, s, next).0;
      Prompt(c, t, next) && Due(c, t, gap) <= Due(c, s, gap)
  {
    ElectionOutcome(c, s, next);
    RoundsGrow(Pending(c, Elect(c, s, next).0), Pending(c, s) - 1, Round(c, gap));
  }

  lemma PromptTick(c: Config, s: State, now: nat, next: u64, gap: nat)
    requires Standing(c, s) && Prompt(c, s, now)
    requires now <= next <= now + gap && next < 0xffff_ffff_0000_0000
    ensures var t := Tick(c, s, next).0;
      && Standing(c, t) && Prompt(c, t, next)
      && (s.role != Coordinating ==> Due(c, t, gap) <= Due(c, s, gap))
      && (s.role == Coordinating ==> t.role == Coordinating)
  {
    TickSpendsElections(c, s, next);
    if s.role == Follower {
      PromptTimeOut(c, s, now, next, gap);
    } else if s.role == Electing && next >= s.deadline {
      PromptElection(c, s, now, next, gap);
    }
  }

  /** Ticked at least every gap microseconds until its due time, a silent node ends as coordinator. */
  lemma {:induction false} SilentNodeCoordinates(c: Config, s: State, now: nat, times: seq<u64>, gap: nat)
    requires Standing(c, s) && Prompt(c, s, now) && Steady(now, times, gap)
    requires Due(c, s, gap) <= if |times| == 0 then now else times[|times| - 1]
    ensures Ticks(c, s, times).0.role == Coordinating
    decreases |times|
  {
    if |times| == 0 {
      if s.role != Coordinating {
        PromptIsEarly(c, s, now, gap);
      }
    } else {
      PromptTick(c, s, now, times[0], gap);
      var t := Tick(c, s, times[0]).0;
      SilentNodeCoordinates(c, t, times[0], times[1..], gap);
    }
  }
}
