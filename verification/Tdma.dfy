/** Transmit slots: each node's slots repeat every superframe, a fixed spacing after the previous node's. */
module Tdma {
  import opened Words
  import opened Coordinator
  import opened Multiples

  function FirstSlot(c: Config, origin: u64): u64 { Wrap64(origin + (c.nodeId - 1) * c.slotSpacing) }

  /** The slot the firmware computes, with its 64-bit arithmetic. */
  function NextSlot(c: Config, origin: u64, notBefore: u64): u64
    requires c.superframe != 0
  {
    var first := FirstSlot(c, origin);
    if first < notBefore
    then Wrap64(first + Wrap64(notBefore - first + c.superframe - 1) / c.superframe * c.superframe)
    else first
  }

  /** t is one of the node's slots: its first, or a whole number of superframes later. */
  ghost predicate IsSlot(c: Config, origin: nat, t: int) {
    exists k: nat :: t == SlotAt(c, origin, k)
  }

  function SlotAt(c: Config, origin: nat, k: nat): int {
    origin + (c.nodeId - 1) * c.slotSpacing + k * c.superframe
  }

  const CLOCK: int := 0x1_0000_0000_0000_0000

  /** Which of the node's slots is the first at or after both bounds. */
  function DueIndex(c: Config, origin: nat, notBefore: nat): nat
    requires c.superframe != 0
  {
    var first := SlotAt(c, origin, 0);
    if first < notBefore then PeriodsToReach(notBefore - first, c.superframe) else 0
  }

  function PeriodsToReach(distance: nat, period: u32): (k: nat)
    requires period != 0
    ensures distance <= k * period < distance + period
  {
    RoundedUp(distance, period);
    (distance + period - 1) / period
  }

  lemma RoundedUp(distance: nat, period: u32)
    requires period != 0
    ensures var k := (distance + period - 1) / period; k >= 0 && distance <= k * period < distance + period
  {
    var k := RoundUp(distance, period);
  }

  lemma DueSlot(c: Config, origin: nat, notBefore: nat)
    requires c.superframe != 0
    ensures var k := DueIndex(c, origin, notBefore);
      SlotAt(c, origin, k) >= notBefore && (k > 0 ==> SlotAt(c, origin, k) - c.superframe < notBefore)
  {
  }

  lemma LaterSlots(c: Config, origin: nat, j: nat, k: nat)
    requires j >= k
    ensures SlotAt(c, origin, j) >= SlotAt(c, origin, k)
    ensures j > k ==> SlotAt(c, origin, j) >= SlotAt(c, origin, k) + c.superframe
  {
    if j > k {
      Spread(j, k, c.superframe);
    }
  }

  /** No slot at or after both bounds comes before it. */
  lemma DueSlotIsLeast(c: Config, origin: nat, notBefore: nat, j: nat)
    requires c.superframe != 0 && SlotAt(c, origin, j) >= notBefore
    ensures SlotAt(c, origin, j) >= SlotAt(c, origin, DueIndex(c, origin, notBefore))
  {
    var k := DueIndex(c, origin, notBefore);
    DueSlot(c, origin, notBefore);
    if j < k {
      LaterSlots(c, origin, k, j);
    } else {
      LaterSlots(c, origin, j, k);
    }
  }

  // ----- 64-bit arithmetic -----

  lemma NoWrap(x: nat)
    requires x < CLOCK
    ensures Wrap64(x) == x
  {
  }

  lemma OneWrap(x: nat)
    requires CLOCK <= x < 2 * CLOCK
    ensures Wrap64(x) == x - CLOCK
  {
  }

  lemma BelowOnePeriod(x: nat, p: u32)
    requires x < p
    ensures x / p == 0
  {
  }

  /** The slot due fits the clock, and rounding up to it does not overflow on the way. */
  predicate Fits(c: Config, origin: u64, notBefore: u64)
    requires c.superframe != 0
  {
    var first := SlotAt(c, origin, 0);
    && SlotAt(c, origin, DueIndex(c, origin, notBefore)) < CLOCK
    && (first < notBefore ==> notBefore - first + c.superframe - 1 < CLOCK)
  }

  lemma FirstSlotFits(c: Config, origin: u64)
    requires ValidConfig(c) && SlotAt(c, origin, 0) < CLOCK
    ensures FirstSlot(c, origin) == SlotAt(c, origin, 0) >= origin
  {
    assert (c.nodeId - 1) * c.slotSpacing >= 0;
    NoWrap(origin + (c.nodeId - 1) * c.slotSpacing);
  }

  lemma FitsReturnsDue(c: Config, origin: u64, notBefore: u64)
    requires ValidConfig(c) && Fits(c, origin, notBefore)
    ensures NextSlot(c, origin, notBefore) == SlotAt(c, origin, DueIndex(c, origin, notBefore))
  {
    var first := SlotAt(c, origin, 0);
    LaterSlots(c, origin, DueIndex(c, origin, notBefore), 0);
    FirstSlotFits(c, origin);
    if first < notBefore {
      NoWrap(notBefore - first + c.superframe - 1);
      NoWrap(SlotAt(c, origin, DueIndex(c, origin, notBefore)));
    }
  }

  lemma OverflowReturnsPast(c: Config, first: u64, notBefore: u64)
    requires c.superframe != 0 && first < notBefore && notBefore - first + c.superframe - 1 >= CLOCK
    ensures Wrap64(first + Wrap64(notBefore - first + c.superframe - 1) / c.superframe * c.superframe) == first
  {
    OneWrap(notBefore - first + c.superframe - 1);
    BelowOnePeriod(notBefore - first + c.superframe - 1 - CLOCK, c.superframe);
    NoWrap(first);
  }

  lemma DueNeedsFit(c: Config, origin: u64, notBefore: u64)
    requires ValidConfig(c)
    requires NextSlot(c, origin, notBefore) == SlotAt(c, origin, DueIndex(c, origin, notBefore))
    ensures Fits(c, origin, notBefore)
  {
    var first := SlotAt(c, origin, 0);
    DueSlot(c, origin, notBefore);
    LaterSlots(c, origin, DueIndex(c, origin, notBefore), 0);
    FirstSlotFits(c, origin);
    if first < notBefore && notBefore - first + c.superframe - 1 >= CLOCK {
      OverflowReturnsPast(c, first, notBefore);
    }
  }

  /** The least of the node's slots at or after both bounds. */
  ghost predicate LeastSlot(c: Config, origin: nat, notBefore: nat, t: int) {
    && IsSlot(c, origin, t) && t >= notBefore
    && forall j: nat :: SlotAt(c, origin, j) >= notBefore ==> SlotAt(c, origin, j) >= t
  }

  lemma LeastSlotIsDue(c: Config, origin: nat, notBefore: nat, t: int)
    requires c.superframe != 0
    ensures LeastSlot(c, origin, notBefore, t) <==> t == SlotAt(c, origin, DueIndex(c, origin, notBefore))
  {
    var k := DueIndex(c, origin, notBefore);
    DueSlot(c, origin, notBefore);
    forall j: nat | SlotAt(c, origin, j) >= notBefore ensures SlotAt(c, origin, j) >= SlotAt(c, origin, k) {
      DueSlotIsLeast(c, origin, notBefore, j);
    }
  }

  /** Exactly when nothing overflows, the slot returned is the least of the node's slots at or after both bounds. */
  lemma NextSlotIsLeast(c: Config, origin: u64, notBefore: u64)
    requires ValidConfig(c)
    ensures LeastSlot(c, origin, notBefore, NextSlot(c, origin, notBefore)) <==> Fits(c, origin, notBefore)
  {
    LeastSlotIsDue(c, origin, notBefore, NextSlot(c, origin, notBefore));
    if Fits(c, origin, notBefore) {
      FitsReturnsDue(c, origin, notBefore);
    }
    if NextSlot(c, origin, notBefore) == SlotAt(c, origin, DueIndex(c, origin, notBefore)) {
      DueNeedsFit(c, origin, notBefore);
    }
  }

  /** An origin five microseconds before the clock wraps: the second node's first slot comes out as 5. */
  lemma LateSlotWraps() returns (c: Config, origin: u64)
    ensures ValidConfig(c) && NextSlot(c, origin, 0) == 5 && !LeastSlot(c, origin, 0, NextSlot(c, origin, 0))
  {
    c, origin := Config(2, 2, {2}, 60, 10, 5, 20, 5), CLOCK - 5;
    NextSlotIsLeast(c, origin, 0);
    OneWrap(origin + 10);
  }

  predicate SameNetwork(a: Config, b: Config) {
    && ValidConfig(a) && ValidConfig(b) && a.nodeId != b.nodeId
    && a.superframe == b.superframe && a.slotSpacing == b.slotSpacing
  }

  lemma SpacedApart(a: Config, b: Config, origin: nat, j: nat, k: nat)
    requires SameNetwork(a, b) && j >= k
    ensures var x, y := SlotAt(a, origin, j), SlotAt(b, origin, k);
      x - y >= a.slotSpacing || y - x >= a.slotSpacing
  {
    var s := a.slotSpacing;
    assert (a.nodeId - 1) * s - (b.nodeId - 1) * s == (a.nodeId - b.nodeId) * s;
    if j > k {
      Spread(j, k, a.superframe);
      assert (a.nodeId - b.nodeId) * s + 5 * s >= 0;
    } else if a.nodeId > b.nodeId {
      AtLeastOne(a.nodeId - b.nodeId, s);
    } else {
      AtLeastOne(b.nodeId - a.nodeId, s);
      assert (a.nodeId - b.nodeId) * s == -((b.nodeId - a.nodeId) * s);
    }
  }

  /** Slots of different nodes on one schedule never come closer than the spacing, whatever superframes
      they fall in. */
  lemma SlotsNeverCollide(a: Config, b: Config, origin: u64, notBeforeA: u64, notBeforeB: u64)
    requires SameNetwork(a, b) && Fits(a, origin, notBeforeA) && Fits(b, origin, notBeforeB)
    ensures var x, y := NextSlot(a, origin, notBeforeA), NextSlot(b, origin, notBeforeB);
      x - y >= a.slotSpacing || y - x >= a.slotSpacing
  {
    FitsReturnsDue(a, origin, notBeforeA);
    FitsReturnsDue(b, origin, notBeforeB);
    var j, k := DueIndex(a, origin, notBeforeA), DueIndex(b, origin, notBeforeB);
    if j >= k {
      SpacedApart(a, b, origin, j, k);
    } else {
      SpacedApart(b, a, origin, k, j);
    }
  }

  // ----- heartbeats -----

  /** Whole periods from a deadline to the first time after now. */
  function PeriodsPast(deadline: nat, period: u32, now: nat): nat
    requires period != 0
  {
    if deadline > now then 0
    else
      DivisionBounds(now - deadline, period);
      (now - deadline) / period + 1
  }

  lemma OneMore(q: int, p: nat)
    ensures (q + 1) * p == q * p + p
  {
  }

  lemma PeriodsPastIsLeast(deadline: nat, period: u32, now: nat)
    requires period != 0
    ensures var k := PeriodsPast(deadline, period, now);
      deadline + k * period > now && (k > 0 ==> deadline + (k - 1) * period <= now)
  {
    if deadline <= now {
      DivisionBounds(now - deadline, period);
      OneMore((now - deadline) / period, period);
    }
  }

  /** Heartbeat deadlines advance by whole periods to the first one after now, exactly when that fits the clock. */
  lemma AdvanceIsNextPeriod(deadline: u64, period: u32, now: u64)
    requires period != 0
    ensures var k := PeriodsPast(deadline, period, now);
      && deadline + k * period > now && (k > 0 ==> deadline + (k - 1) * period <= now)
      && (AdvancePeriodic(deadline, period, now) == deadline + k * period <==> deadline + k * period < CLOCK)
  {
    PeriodsPastIsLeast(deadline, period, now);
    var next := deadline + PeriodsPast(deadline, period, now) * period;
    if deadline <= now && next < CLOCK {
      NoWrap(next);
    }
  }
}
