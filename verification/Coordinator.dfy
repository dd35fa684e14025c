/** Who coordinates: heartbeats ordered by epoch and node id, timeout of a silent coordinator, and the
    election that follows. Member masks are sets of node ids here. */
module Coordinator {
  import opened Words

  const MAX_NODES: nat := 6
  const NOBODY: nat := 0

  datatype Config = Config(
    nodeId: nat, initialCoordinator: nat, members: set<nat>, superframe: u32, slotSpacing: u32,
    heartbeatInterval: u32, heartbeatTimeout: u32, electionDelay: u32)

  datatype Role = Follower | Coordinating | Electing

  datatype State = State(
    role: Role, coordinator: nat, eligible: set<nat>, epoch: u32,
    origin: u64, lastHeartbeat: u64, nextHeartbeat: u64, deadline: u64)

  datatype Actions = Actions(sendHeartbeat: bool, timedOut: bool, changed: bool)

  const Quiet := Actions(false, false, false)

  predicate NodeId(id: nat) { 1 <= id <= MAX_NODES }

  predicate ValidConfig(c: Config) {
    && NodeId(c.nodeId) && c.nodeId in c.members
    && NodeId(c.initialCoordinator) && c.initialCoordinator in c.members
    && (forall id :: id in c.members ==> NodeId(id))
    && c.superframe != 0 && c.slotSpacing != 0 && c.heartbeatInterval != 0
    && c.heartbeatTimeout != 0 && c.electionDelay != 0
    && MAX_NODES * c.slotSpacing <= c.superframe
  }

  function RoleFor(c: Config, coordinator: nat): Role {
    if coordinator == c.nodeId then Coordinating else Follower
  }

  function Init(c: Config, now: u64): State {
    State(RoleFor(c, c.initialCoordinator), c.initialCoordinator, c.members, 0,
          now, now, Wrap64(now + c.heartbeatInterval), 0)
  }

  /** The lowest member from id up, or nobody. */
  function LowestFrom(eligible: set<nat>, id: nat): (lowest: nat)
    requires 1 <= id <= MAX_NODES + 1
    ensures lowest == NOBODY <==> forall k :: id <= k <= MAX_NODES ==> k !in eligible
    ensures lowest != NOBODY ==> NodeId(lowest) && lowest in eligible && id <= lowest
    ensures lowest != NOBODY ==> forall k :: id <= k < lowest ==> k !in eligible
    decreases MAX_NODES + 1 - id
  {
    if id > MAX_NODES then NOBODY
    else if id in eligible then id
    else LowestFrom(eligible, id + 1)
  }

  function Lowest(eligible: set<nat>): nat { LowestFrom(eligible, 1) }

  /** The next multiple of the period after now, counted from the deadline. */
  function AdvancePeriodic(deadline: u64, period: u32, now: u64): u64
    requires period != 0
  {
    if deadline > now then deadline else Wrap64(deadline + ((now - deadline) / period + 1) * period)
  }

  /** The node follows someone who has been silent for too long. */
  predicate TimesOut(c: Config, s: State, now: u64) {
    s.role == Follower && Wrap64(now - s.lastHeartbeat) > c.heartbeatTimeout
  }

  function TimeOut(c: Config, s: State, now: u64): (State, bool) {
    if TimesOut(c, s, now) then
      (s.(eligible := s.eligible - {s.coordinator}, role := Electing, deadline := Wrap64(now + c.electionDelay)), true)
    else (s, false)
  }

  function Elect(c: Config, s: State, now: u64): (State, bool) {
    if s.role == Electing && now >= s.deadline && Lowest(s.eligible) != NOBODY then
      var elected := Lowest(s.eligible);
      (s.(coordinator := elected, epoch := Wrap32(s.epoch + 1), role := RoleFor(c, elected), lastHeartbeat := now,
          origin := now, nextHeartbeat := if elected == c.nodeId then Wrap64(now + c.heartbeatInterval) else now), true)
    else (s, false)
  }

  function Tick(c: Config, s: State, now: u64): (State, Actions)
    requires ValidConfig(c)
  {
    if s.role == Coordinating then
      if now >= s.nextHeartbeat
      then (s.(nextHeartbeat := AdvancePeriodic(s.nextHeartbeat, c.heartbeatInterval, now)), Actions(true, false, false))
      else (s, Quiet)
    else
      var (t, timedOut) := TimeOut(c, s, now);
      var (u, changed) := Elect(c, t, now);
      (u, Actions(changed && u.role == Coordinating, timedOut, changed))
  }

  datatype Heartbeat = Heartbeat(id: nat, epoch: u32, origin: u64)

  function Receive(c: Config, s: State, h: Heartbeat, now: u64): (State, bool) {
    if h.id !in c.members then (s, false)
    else if h.epoch < s.epoch || (h.epoch == s.epoch && h.id > s.coordinator) then (s, false)
    else
      (s.(eligible := s.eligible + {h.id}, coordinator := h.id, epoch := h.epoch, origin := h.origin,
          lastHeartbeat := now, role := RoleFor(c, h.id),
          nextHeartbeat := if h.id == c.nodeId then Wrap64(now + c.heartbeatInterval) else s.nextHeartbeat), true)
  }

  function SetEligible(c: Config, s: State, id: nat, eligible: bool): (State, bool) {
    if id !in c.members then (s, false)
    else (s.(eligible := if eligible then s.eligible + {id} else s.eligible - {id}), true)
  }

  // ----- what holds in every reachable state -----

  predicate RoleHolds(c: Config, s: State) {
    && NodeId(s.coordinator)
    && (s.role == Coordinating ==> s.coordinator == c.nodeId)
    && (s.role == Follower ==> s.coordinator != c.nodeId)
  }

  datatype Event = Ticking(now: u64) | Hearing(h: Heartbeat, now: u64) | Marking(id: nat, eligible: bool)

  function Next(c: Config, s: State, e: Event): State
    requires ValidConfig(c)
  {
    match e
    case Ticking(now) => Tick(c, s, now).0
    case Hearing(h, now) => Receive(c, s, h, now).0
    case Marking(id, eligible) => SetEligible(c, s, id, eligible).0
  }

  function After(c: Config, s: State, events: seq<Event>): State
    requires ValidConfig(c)
  {
    if |events| == 0 then s else Next(c, After(c, s, events[..|events| - 1]), events[|events| - 1])
  }

  lemma {:induction false} RunKeepsRole(c: Config, s: State, events: seq<Event>)
    requires ValidConfig(c) && RoleHolds(c, s)
    ensures RoleHolds(c, After(c, s, events))
  {
    if |events| > 0 {
      RunKeepsRole(c, s, events[..|events| - 1]);
    }
  }

  /** In every reachable state a node acts as coordinator only under its own name, and follows only others. */
  lemma RoleAlwaysHolds(c: Config, start: u64, events: seq<Event>)
    requires ValidConfig(c)
    ensures RoleHolds(c, After(c, Init(c, start), events))
  {
    RunKeepsRole(c, Init(c, start), events);
  }

  // ----- the order on views -----

  datatype View = View(epoch: u32, id: nat)

  /** Later epochs first; within an epoch, lower ids first. */
  predicate AtLeast(a: View, b: View) { a.epoch > b.epoch || (a.epoch == b.epoch && a.id <= b.id) }

  function ViewOf(s: State): View { View(s.epoch, s.coordinator) }

  /** An election is due at this time: the node waits for one or starts to, the wait is over, and there is someone
      to elect other than the coordinator it gives up. */
  predicate ElectionDue(c: Config, s: State, now: u64) {
    && (s.role == Electing || TimesOut(c, s, now))
    && now >= (if TimesOut(c, s, now) then Wrap64(now + c.electionDelay) else s.deadline)
    && exists id :: NodeId(id) && id in s.eligible && !(TimesOut(c, s, now) && id == s.coordinator)
  }

  lemma SomeoneIsLowest(eligible: set<nat>)
    ensures Lowest(eligible) != NOBODY <==> exists id :: NodeId(id) && id in eligible
  {
  }

  lemma ElectsWhenDue(c: Config, s: State, now: u64)
    requires ValidConfig(c)
    ensures Tick(c, s, now).1.changed <==> ElectionDue(c, s, now)
  {
    var t := TimeOut(c, s, now).0;
    SomeoneIsLowest(t.eligible);
    assert forall id :: id in t.eligible <==> id in s.eligible && !(TimesOut(c, s, now) && id == s.coordinator);
  }

  /** No event moves the view backwards, except, exactly, a tick at the last epoch at which an election is due: its
      epoch wraps. */
  lemma ViewNeverFalls(c: Config, s: State, e: Event)
    requires ValidConfig(c)
    ensures AtLeast(ViewOf(Next(c, s, e)), ViewOf(s)) <==>
      !(e.Ticking? && s.epoch == MAX_U32 && ElectionDue(c, s, e.now))
  {
    if e.Ticking? {
      ElectsWhenDue(c, s, e.now);
    }
  }

  /** There the view does fall back: a node that heard of the last epoch right after starting and then nothing
      more elects itself into epoch 0. */
  lemma LastEpochWraps() returns (c: Config, events: seq<Event>)
    ensures ValidConfig(c)
    ensures ViewOf(After(c, Init(c, 0), events)) == View(MAX_U32, 1)
    ensures ViewOf(After(c, Init(c, 0), events + [Ticking(100)])) == View(0, 2)
  {
    c := Config(2, 1, {1, 2}, 60, 10, 5, 20, 5);
    var heard, quiet := Hearing(Heartbeat(1, MAX_U32, 0), 10), Ticking(45);
    events := [heard, quiet];
    assert events[..1] == [heard] && (events + [Ticking(100)])[..2] == events;
    var s := Next(c, Init(c, 0), heard);
    assert After(c, Init(c, 0), [heard]) == s;
    assert After(c, Init(c, 0), events) == Next(c, s, quiet);
  }

  function Heard(c: Config, s: State, hs: seq<Heartbeat>, times: seq<u64>): State
    requires |hs| == |times|
  {
    if |hs| == 0 then s
    else Receive(c, Heard(c, s, hs[..|hs| - 1], times[..|hs| - 1]), hs[|hs| - 1], times[|hs| - 1]).0
  }

  /** What the member heartbeats of a list claim. */
  function Claims(c: Config, hs: seq<Heartbeat>): set<View> {
    set i | 0 <= i < |hs| && hs[i].id in c.members :: View(hs[i].epoch, hs[i].id)
  }

  predicate Greatest(v: View, claims: set<View>) {
    v in claims && forall w :: w in claims ==> AtLeast(v, w)
  }

  lemma {:induction false} HeardIsGreatest(c: Config, s: State, hs: seq<Heartbeat>, times: seq<u64>)
    requires |hs| == |times|
    ensures Greatest(ViewOf(Heard(c, s, hs, times)), {ViewOf(s)} + Claims(c, hs))
  {
    var n := |hs|;
    if n > 0 {
      HeardIsGreatest(c, s, hs[..n - 1], times[..n - 1]);
      ClaimsGrow(c, hs);
    }
  }

  lemma ClaimsGrow(c: Config, hs: seq<Heartbeat>)
    requires |hs| > 0
    ensures var h := hs[|hs| - 1];
      Claims(c, hs) == Claims(c, hs[..|hs| - 1]) + if h.id in c.members then {View(h.epoch, h.id)} else {}
  {
    var h, front := hs[|hs| - 1], hs[..|hs| - 1];
    forall v | v in Claims(c, hs) ensures v in Claims(c, front) + if h.id in c.members then {View(h.epoch, h.id)} else {} {
      var i :| 0 <= i < |hs| && hs[i].id in c.members && v == View(hs[i].epoch, hs[i].id);
      if i < |front| {
        assert front[i] == hs[i];
      }
    }
    forall v | v in Claims(c, front) ensures v in Claims(c, hs) {
      var i :| 0 <= i < |front| && front[i].id in c.members && v == View(front[i].epoch, front[i].id);
      assert hs[i] == front[i];
    }
  }

  lemma GreatestIsUnique(a: View, b: View, claims: set<View>)
    requires Greatest(a, claims) && Greatest(b, claims)
    ensures a == b
  {
  }

  /** Order and repetition do not matter: the view depends only on what was claimed. */
  lemma HearingIsAJoin(c: Config, s: State, xs: seq<Heartbeat>, xt: seq<u64>, ys: seq<Heartbeat>, yt: seq<u64>)
    requires |xs| == |xt| && |ys| == |yt| && Claims(c, xs) == Claims(c, ys)
    ensures ViewOf(Heard(c, s, xs, xt)) == ViewOf(Heard(c, s, ys, yt))
  {
    HeardIsGreatest(c, s, xs, xt);
    HeardIsGreatest(c, s, ys, yt);
    GreatestIsUnique(ViewOf(Heard(c, s, xs, xt)), ViewOf(Heard(c, s, ys, yt)), {ViewOf(s)} + Claims(c, xs));
  }

  // ----- rivals -----

  datatype Node = Node(config: Config, state: State, heard: seq<Heartbeat>, times: seq<u64>)

  function Views(nodes: seq<Node>): set<View> { set i | 0 <= i < |nodes| :: ViewOf(nodes[i].state) }

  /** Several coordinators, each of which has heard of all the others, in any order, any number of times. */
  predicate RivalsWhoMet(nodes: seq<Node>) {
    && |nodes| > 0
    && (forall i :: 0 <= i < |nodes| ==>
          var n := nodes[i];
          && n.state.role == Coordinating && RoleHolds(n.config, n.state) && |n.heard| == |n.times|
          && {ViewOf(n.state)} + Claims(n.config, n.heard) == Views(nodes))
    && (forall i, j :: 0 <= i < j < |nodes| ==> nodes[i].config.nodeId != nodes[j].config.nodeId)
  }

  function Final(n: Node): State
    requires |n.heard| == |n.times|
  {
    Heard(n.config, n.state, n.heard, n.times)
  }

  lemma {:induction false} HeardRole(c: Config, s: State, hs: seq<Heartbeat>, times: seq<u64>)
    requires |hs| == |times| && s.role == RoleFor(c, s.coordinator)
    ensures Heard(c, s, hs, times).role == RoleFor(c, Heard(c, s, hs, times).coordinator)
  {
    if |hs| > 0 {
      HeardRole(c, s, hs[..|hs| - 1], times[..|hs| - 1]);
    }
  }

  lemma RivalEnds(nodes: seq<Node>, i: nat, v: View)
    requires RivalsWhoMet(nodes) && i < |nodes| && Greatest(v, Views(nodes))
    ensures |nodes[i].heard| == |nodes[i].times| && ViewOf(Final(nodes[i])) == v
    ensures Final(nodes[i]).role == Coordinating <==> v.id == nodes[i].config.nodeId
  {
    var n := nodes[i];
    HeardIsGreatest(n.config, n.state, n.heard, n.times);
    GreatestIsUnique(ViewOf(Final(n)), v, Views(nodes));
    HeardRole(n.config, n.state, n.heard, n.times);
  }

  /** All agree on one view, and exactly one of them is still coordinator. */
  lemma OneCoordinatorRemains(nodes: seq<Node>) returns (winner: nat)
    requires RivalsWhoMet(nodes)
    ensures winner < |nodes|
    ensures forall i :: 0 <= i < |nodes| ==> |nodes[i].heard| == |nodes[i].times|
    ensures forall i :: 0 <= i < |nodes| ==>
      && (Final(nodes[i]).role == Coordinating <==> i == winner)
      && ViewOf(Final(nodes[i])) == ViewOf(nodes[winner].state)
  {
    var first := nodes[0];
    HeardIsGreatest(first.config, first.state, first.heard, first.times);
    var v := ViewOf(Final(first));
    assert Greatest(v, Views(nodes));
    winner :| 0 <= winner < |nodes| && v == ViewOf(nodes[winner].state);
    forall i | 0 <= i < |nodes|
      ensures (Final(nodes[i]).role == Coordinating <==> i == winner) && ViewOf(Final(nodes[i])) == v {
      RivalEnds(nodes, i, v);
    }
  }
}
