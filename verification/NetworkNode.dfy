/** One node's network state in memory: a bit mask of eligible members, the coordinator state machine,
    slot times, and a receive counter per source. */
module NetworkNode {
  import opened Words
  import opened Bits
  import C = Coordinator
  import T = Tdma
  import A = SequenceAccounting

  predicate MemberPresent(mask: nat, id: nat) { C.NodeId(id) && Bit(mask, id - 1) }

  /** The members a mask stands for: node id on bit id - 1. */
  function Members(mask: nat): set<nat> {
    set id: nat | id <= C.MAX_NODES && MemberPresent(mask, id)
  }

  function Set(mask: nat, id: nat): nat
    requires C.NodeId(id)
  {
    SetBit(mask, id - 1)
  }

  function Clear(mask: nat, id: nat): nat
    requires C.NodeId(id)
  {
    ClearBitBits(mask, id - 1, 0);
    ClearBit(mask, id - 1)
  }

  lemma SetMembers(mask: nat, id: nat)
    requires C.NodeId(id)
    ensures Members(Set(mask, id)) == Members(mask) + {id}
  {
    forall k: nat | 1 <= k <= C.MAX_NODES ensures k in Members(Set(mask, id)) <==> k in Members(mask) + {id} {
      SetBitBits(mask, id - 1, k - 1);
    }
  }

  lemma ClearMembers(mask: nat, id: nat)
    requires C.NodeId(id)
    ensures Members(Clear(mask, id)) == Members(mask) - {id}
  {
    forall k: nat | 1 <= k <= C.MAX_NODES ensures k in Members(Clear(mask, id)) <==> k in Members(mask) - {id} {
      ClearBitBits(mask, id - 1, k - 1);
    }
  }

  method ElectLowestMember(mask: nat) returns (elected: nat)
    ensures elected == C.Lowest(Members(mask))
  {
    var id := 1;
    while id <= C.MAX_NODES
      invariant 1 <= id <= C.MAX_NODES + 1
      invariant C.Lowest(Members(mask)) == C.LowestFrom(Members(mask), id)
    {
      if MemberPresent(mask, id) {
        return id;
      }
      id := id + 1;
    }
    return C.NOBODY;
  }

  class Node {
    const config: C.Config
    const memberMask: nat
    var role: C.Role
    var coordinatorId: nat
    var eligibleMask: nat
    var epoch: u32
    var scheduleOrigin: u64
    var lastHeartbeat: u64
    var nextHeartbeat: u64
    var electionDeadline: u64
    var coordinatorChanges: nat
    var heartbeatTimeouts: nat

    ghost function View(): C.State
      reads this
    {
      C.State(role, coordinatorId, Members(eligibleMask), epoch,
              scheduleOrigin, lastHeartbeat, nextHeartbeat, electionDeadline)
    }

    ghost predicate Valid()
      reads this
    {
      C.ValidConfig(config) && config.members == Members(memberMask) && C.RoleHolds(config, View())
    }

    /** The mask may hold bits beyond the six node ids; they mean nothing. */
    constructor (c: C.Config, mask: nat, now: u64)
      requires C.ValidConfig(c) && c.members == Members(mask)
      ensures Valid() && config == c && memberMask == mask && View() == C.Init(c, now)
    {
      config, memberMask, eligibleMask := c, mask, mask;
      coordinatorId, role := c.initialCoordinator, C.RoleFor(c, c.initialCoordinator);
      epoch, scheduleOrigin, lastHeartbeat, nextHeartbeat := 0, now, now, Wrap64(now + c.heartbeatInterval);
      electionDeadline, coordinatorChanges, heartbeatTimeouts := 0, 0, 0;
    }

    method CheckTimeout(now: u64) returns (timedOut: bool)
      requires Valid()
      modifies this
      ensures Valid() && (View(), timedOut) == C.TimeOut(config, old(View()), now)
    {
      timedOut := role == C.Follower && Wrap64(now - lastHeartbeat) > config.heartbeatTimeout;
      if timedOut {
        ClearMembers(eligibleMask, coordinatorId);
        eligibleMask := Clear(eligibleMask, coordinatorId);
        role, electionDeadline := C.Electing, Wrap64(now + config.electionDelay);
        heartbeatTimeouts := heartbeatTimeouts + 1;
      }
    }

    method CheckElection(now: u64) returns (changed: bool)
      requires Valid()
      modifies this
      ensures Valid() && (View(), changed) == C.Elect(config, old(View()), now)
    {
      changed := false;
      if role == C.Electing && now >= electionDeadline {
        var elected := ElectLowestMember(eligibleMask);
        if elected != C.NOBODY {
          Follow(elected, now);
          changed := true;
        }
      }
    }

    method Follow(elected: nat, now: u64)
      requires C.NodeId(elected)
      modifies this
      ensures C.RoleHolds(config, View())
      ensures View() == old(View()).(
        coordinator := elected, epoch := Wrap32(old(epoch) + 1), role := C.RoleFor(config, elected), lastHeartbeat := now,
        origin := now, nextHeartbeat := if elected == config.nodeId then Wrap64(now + config.heartbeatInterval) else now)
    {
      coordinatorId, epoch, role := elected, Wrap32(epoch + 1), C.RoleFor(config, elected);
      lastHeartbeat, scheduleOrigin, nextHeartbeat := now, now, now;
      coordinatorChanges := coordinatorChanges + 1;
      if role == C.Coordinating {
        nextHeartbeat := Wrap64(now + config.heartbeatInterval);
      }
    }

    method Tick(now: u64) returns (actions: C.Actions)
      requires Valid()
      modifies this
      ensures Valid() && (View(), actions) == C.Tick(config, old(View()), now)
    {
      if role == C.Coordinating {
        if now < nextHeartbeat {
          return C.Quiet;
        }
        nextHeartbeat := C.AdvancePeriodic(nextHeartbeat, config.heartbeatInterval, now);
        return C.Actions(true, false, false);
      }
      var timedOut := CheckTimeout(now);
      var changed := CheckElection(now);
      return C.Actions(changed && role == C.Coordinating, timedOut, changed);
    }

    method ReceiveHeartbeat(h: C.Heartbeat, now: u64) returns (ok: bool)
      requires Valid()
      modifies this
      ensures Valid() && (View(), ok) == C.Receive(config, old(View()), h, now)
    {
      if !MemberPresent(memberMask, h.id) {
        return false;
      }
      if h.epoch < epoch || (h.epoch == epoch && h.id > coordinatorId) {
        return false;
      }
      if h.id != coordinatorId {
        coordinatorChanges := coordinatorChanges + 1;
      }
      SetMembers(eligibleMask, h.id);
      eligibleMask := Set(eligibleMask, h.id);
      coordinatorId, epoch, scheduleOrigin, lastHeartbeat := h.id, h.epoch, h.origin, now;
      role := C.RoleFor(config, h.id);
      if role == C.Coordinating {
        nextHeartbeat := Wrap64(now + config.heartbeatInterval);
      }
      return true;
    }

    method SetMemberEligible(id: nat, eligible: bool) returns (ok: bool)
      requires Valid()
      modifies this
      ensures Valid() && (View(), ok) == C.SetEligible(config, old(View()), id, eligible)
    {
      if !MemberPresent(memberMask, id) {
        return false;
      }
      if eligible {
        SetMembers(eligibleMask, id);
        eligibleMask := Set(eligibleMask, id);
      } else {
        ClearMembers(eligibleMask, id);
        eligibleMask := Clear(eligibleMask, id);
      }
      return true;
    }

    method NextSlot(notBefore: u64) returns (slot: u64)
      requires Valid()
      ensures slot == T.NextSlot(config, scheduleOrigin, notBefore)
    {
      slot := Wrap64(scheduleOrigin + (config.nodeId - 1) * config.slotSpacing);
      if slot < notBefore {
        var elapsed := notBefore - slot;
        slot := Wrap64(slot + Wrap64(elapsed + config.superframe - 1) / config.superframe * config.superframe);
      }
    }
  }

  /** The receive counters of one node, one per source. */
  class Receiver {
    const nodeId: nat
    const counters: array<A.Rx>

    ghost predicate Valid() { C.NodeId(nodeId) && counters.Length == C.MAX_NODES }

    constructor (self: nat)
      requires C.NodeId(self)
      ensures Valid() && nodeId == self && fresh(counters)
      ensures forall i :: 0 <= i < C.MAX_NODES ==> counters[i] == A.Unheard
    {
      nodeId := self;
      counters := new A.Rx[C.MAX_NODES](_ => A.Unheard);
    }

    /** Only the counter of the source changes; a node ignores itself and unknown sources. */
    method ReceiveAudio(source: nat, call: A.Call) returns (verdict: Option<A.Verdict>, missing: nat)
      requires Valid()
      modifies counters
      ensures !C.NodeId(source) || source == nodeId ==>
        verdict == None && missing == 0 && counters[..] == old(counters[..])
      ensures C.NodeId(source) && source != nodeId ==>
        var (rx, v, m) := A.Receive(old(counters[source - 1]), call);
        verdict == Some(v) && missing == m && counters[..] == old(counters[..])[source - 1 := rx]
    {
      missing := 0;
      if !C.NodeId(source) || source == nodeId {
        return None, 0;
      }
      var rx := counters[source - 1];
      if !rx.initialized || (call.timestamp != 0 && call.timestamp < rx.lastTimestamp && call.sequence <= 16) {
        counters[source - 1] := rx.(initialized := true, last := call.sequence,
                                    lastTimestamp := call.timestamp, received := rx.received + 1);
        return Some(A.First), 0;
      }
      var delta := Wrap16(call.sequence - rx.last);
      if delta == 0 {
        counters[source - 1] := rx.(duplicates := rx.duplicates + 1);
        return Some(A.Duplicate), 0;
      }
      if delta >= 0x8000 {
        counters[source - 1] := rx.(stale := rx.stale + 1);
        return Some(A.Stale), 0;
      }
      rx := rx.(last := call.sequence, received := rx.received + 1);
      if call.timestamp != 0 {
        rx := rx.(lastTimestamp := call.timestamp);
      }
      missing := delta - 1;
      counters[source - 1] := rx.(gaps := rx.gaps + missing);
      verdict := Some(if delta == 1 then A.InOrder else A.Gap);
    }
  }
}
