/** How many blocks of a benchmark run are concealed, counted block by block and in closed form. */
module BenchmarkCount {
  import opened Words

  /** Blocks after which the 16-bit packet number repeats. */
  const ERA: nat := 0x2_0000

  function PacketNumber(block: nat): u16 { Wrap16(block / 2) }

  /** Source 6 drops the second half of every packet whose nonzero number the period divides. */
  predicate SecondHalfDropped(number: u16, period: nat)
    requires period > 0
  {
    number != 0 && number % period == 0
  }

  predicate Concealed(block: nat, period: nat)
    requires period > 0
  {
    block % 2 == 1 && SecondHalfDropped(PacketNumber(block), period)
  }

  /** Concealed blocks among from, ..., until - 1. */
  function PlcBlocks(from: nat, until: nat, period: nat): (n: nat)
    requires period > 0
    ensures from <= until ==> n <= until - from
    decreases until
  {
    if until <= from then 0
    else PlcBlocks(from, until - 1, period) + (if Concealed(until - 1, period) then 1 else 0)
  }

  function Max(x: int, y: int): int { if x > y then x else y }

  /** The closed form of the result validator; division rounds towards minus infinity. */
  function ExpectedPlcCalls(warmup: nat, requested: nat, period: nat): int
    requires period > 0
  {
    var interval := 2 * period;
    var first := warmup;
    var last := first + requested - 1;
    var firstMultiple := Max(1, (first - 1 + interval - 1) / interval);
    var lastMultiple := (last - 1) / interval;
    Max(0, lastMultiple - firstMultiple + 1)
  }

  // ----- division -----

  lemma MultipleAtLeast(k: int, d: int)
    requires k >= 1 && d > 0
    ensures k * d >= d
  {
  }

  lemma Unique(x: int, d: int, q: int, r: int)
    requires d > 0 && x == q * d + r && 0 <= r < d
    ensures x / d == q && x % d == r
  {
    var q', r' := x / d, x % d;
    assert x == q' * d + r';
    assert (q - q') * d == r' - r;
    if q > q' {
      MultipleAtLeast(q - q', d);
    } else if q < q' {
      MultipleAtLeast(q' - q, d);
    }
  }

  lemma QuotientOfNext(a: nat, d: nat)
    requires d > 0
    ensures (a + 1) / d == a / d + if (a + 1) % d == 0 then 1 else 0
  {
    var q, r := a / d, a % d;
    if r + 1 == d {
      assert a + 1 == (q + 1) * d;
      Unique(a + 1, d, q + 1, 0);
    } else {
      Unique(a + 1, d, q, r + 1);
    }
  }

  lemma EvenMultiple(k: nat, period: nat)
    requires period > 0
    ensures (2 * k) % (2 * period) == 2 * (k % period)
    ensures (2 * k + 1) % (2 * period) == 2 * (k % period) + 1
  {
    var q, r := k / period, k % period;
    assert k == q * period + r;
    assert 2 * k == q * (2 * period) + 2 * r;
    Unique(2 * k, 2 * period, q, 2 * r);
    Unique(2 * k + 1, 2 * period, q, 2 * r + 1);
  }

  // ----- counting from block 0 -----

  /** Concealed blocks below n when packet numbers do not repeat. */
  function Cumulative(n: nat, period: nat): nat
    requires period > 0
  {
    if n < 2 then 0 else Quotient(n - 2, 2 * period)
  }

  /** Division of naturals. */
  function Quotient(a: nat, d: nat): (q: nat)
    requires d > 0
    ensures q == a / d
  {
    QuotientIsNatural(a, d);
    a / d
  }

  lemma QuotientIsNatural(a: nat, d: nat)
    requires d > 0
    ensures a / d >= 0
  {
    NegativeMultiple(a / d, d);
  }

  lemma NegativeMultiple(q: int, d: nat)
    ensures q < 0 ==> q * d + d <= 0
  {
  }

  lemma OneMoreBlock(n: nat, period: nat)
    requires period > 0 && n < ERA
    ensures Cumulative(n + 1, period) == Cumulative(n, period) + if Concealed(n, period) then 1 else 0
  {
    var k := n / 2;
    if n == 0 {
    } else if n == 1 {
      assert 0 / (2 * period) == 0;
    } else {
      QuotientOfNext(n - 2, 2 * period);
      EvenMultiple(k, period);
      if n % 2 == 1 {
        assert n - 1 == 2 * k && PacketNumber(n) == k;
      } else {
        assert n - 1 == 2 * (k - 1) + 1;
        EvenMultiple(k - 1, period);
      }
    }
  }

  /** The same count for a run of any length: every era of 131072 blocks repeats the first. */
  function CumulativeWrapped(n: nat, period: nat): nat
    requires period > 0
  {
    n / ERA * Cumulative(ERA, period) + Cumulative(n % ERA, period)
  }

  lemma EraRepeats(n: nat, period: nat)
    requires period > 0
    ensures Concealed(n, period) == Concealed(n % ERA, period)
  {
    var e, r := n / ERA, n % ERA;
    assert n == e * ERA + r;
    assert n / 2 == e * 0x1_0000 + r / 2;
    assert PacketNumber(n) == r / 2 == PacketNumber(r);
  }

  lemma OneMoreWrapped(m: nat, period: nat)
    requires period > 0
    ensures CumulativeWrapped(m + 1, period) ==
      CumulativeWrapped(m, period) + if Concealed(m, period) then 1 else 0
  {
    var e, r := m / ERA, m % ERA;
    EraRepeats(m, period);
    OneMoreBlock(r, period);
    if r + 1 < ERA {
      Unique(m + 1, ERA, e, r + 1);
    } else {
      Unique(m + 1, ERA, e + 1, 0);
      Distribute(e, Cumulative(ERA, period));
    }
  }

  lemma Distribute(e: nat, c: nat)
    ensures (e + 1) * c == e * c + c
  {
  }

  lemma {:induction false} CountFromZero(n: nat, period: nat)
    requires period > 0
    ensures PlcBlocks(0, n, period) == CumulativeWrapped(n, period)
  {
    if n > 0 {
      CountFromZero(n - 1, period);
      OneMoreWrapped(n - 1, period);
    }
  }

  lemma {:induction false} CountSplits(from: nat, until: nat, period: nat)
    requires period > 0 && from <= until
    ensures PlcBlocks(0, until, period) == PlcBlocks(0, from, period) + PlcBlocks(from, until, period)
  {
    if from < until {
      CountSplits(from, until - 1, period);
    }
  }

  lemma ClosedFormIsDifference(warmup: nat, requested: nat, period: nat)
    requires period > 0 && requested > 0
    ensures ExpectedPlcCalls(warmup, requested, period) ==
      Cumulative(warmup + requested, period) - Cumulative(warmup, period)
  {
    var interval, n := 2 * period, warmup + requested;
    FirstMultiple(warmup, period);
    if n == 1 {
      Unique(-1, interval, -1, interval - 1);
    } else {
      CumulativeMonotone(warmup, n, period);
    }
  }

  lemma FirstMultiple(warmup: nat, period: nat)
    requires period > 0
    ensures Max(1, (warmup - 1 + 2 * period - 1) / (2 * period)) == Cumulative(warmup, period) + 1
  {
    var interval := 2 * period;
    if warmup < 2 {
      Unique(warmup - 1 + interval - 1, interval, 0, warmup - 1 + interval - 1);
    } else {
      var q, r := (warmup - 2) / interval, (warmup - 2) % interval;
      assert warmup - 1 + interval - 1 == (q + 1) * interval + r;
      Unique(warmup - 1 + interval - 1, interval, q + 1, r);
    }
  }

  lemma {:induction false} CumulativeMonotone(m: nat, n: nat, period: nat)
    requires period > 0 && m <= n
    ensures Cumulative(m, period) <= Cumulative(n, period)
    decreases n
  {
    if m < n {
      CumulativeMonotone(m, n - 1, period);
      if n >= 3 {
        QuotientOfNext(n - 3, 2 * period);
      }
    }
  }

  /** The concealed blocks of any measured interval. */
  lemma MeasuredCount(warmup: nat, measured: nat, period: nat)
    requires period > 0
    ensures PlcBlocks(warmup, warmup + measured, period) ==
      CumulativeWrapped(warmup + measured, period) - CumulativeWrapped(warmup, period)
  {
    CountSplits(warmup, warmup + measured, period);
    CountFromZero(warmup, period);
    CountFromZero(warmup + measured, period);
  }

  // ----- when the closed form is right -----

  /** How many concealed blocks too many the closed form sees below n. */
  function Drift(n: nat, period: nat): int
    requires period > 0
  {
    Cumulative(n, period) - CumulativeWrapped(n, period)
  }

  /** The exact condition: the validator's closed form counts a measured interval correctly if and only if its
      drift is the same at both ends. */
  lemma ClosedFormExactly(warmup: nat, measured: nat, period: nat)
    requires period > 0 && measured > 0
    ensures PlcBlocks(warmup, warmup + measured, period) == ExpectedPlcCalls(warmup, measured, period) <==>
      Drift(warmup + measured, period) == Drift(warmup, period)
  {
    MeasuredCount(warmup, measured, period);
    ClosedFormIsDifference(warmup, measured, period);
  }

  lemma NoDriftInFirstEra(n: nat, period: nat)
    requires period > 0 && n <= ERA
    ensures Drift(n, period) == 0
  {
    if n < ERA {
      Unique(n, ERA, 0, n);
    } else {
      Unique(n, ERA, 1, 0);
    }
  }

  /** While the packet number does not repeat there is no drift. */
  lemma ClosedFormCounts(warmup: nat, measured: nat, period: nat)
    requires period > 0 && measured > 0 && warmup + measured <= ERA
    ensures PlcBlocks(warmup, warmup + measured, period) == ExpectedPlcCalls(warmup, measured, period)
  {
    NoDriftInFirstEra(warmup, period);
    NoDriftInFirstEra(warmup + measured, period);
    ClosedFormExactly(warmup, measured, period);
  }

  lemma WrappedAt(n: nat, eras: nat, rest: nat, period: nat)
    requires period > 0 && n == eras * ERA + rest && rest < ERA
    ensures CumulativeWrapped(n, period) == eras * Cumulative(ERA, period) + Cumulative(rest, period)
  {
    Unique(n, ERA, eras, rest);
  }

  lemma CanonicalDrift()
    ensures Cumulative(181000, 97) == 932 && Drift(181000, 97) == 0
    ensures Cumulative(1000, 97) == 5 && Drift(1000, 97) == 0
  {
    WrappedAt(181000, 1, 49928, 97);
    NoDriftInFirstEra(1000, 97);
    Unique(131070, 194, 675, 120);
    Unique(49926, 194, 257, 68);
    Unique(180998, 194, 932, 190);
    Unique(998, 194, 5, 28);
  }

  /** The canonical run outlives the first era, and its expected value is right all the same. */
  lemma CanonicalRun()
    ensures PlcBlocks(1000, 1000 + 180000, 97) == 927 == ExpectedPlcCalls(1000, 180000, 97)
  {
    CanonicalDrift();
    ClosedFormExactly(1000, 180000, 97);
    ClosedFormIsDifference(1000, 180000, 97);
  }

  lemma EveryPacketDropped(n: nat)
    requires n >= 2
    ensures Cumulative(n, 1) == (n - 2) / 2
  {
  }

  lemma DriftPastEra()
    ensures Cumulative(ERA + 2, 1) == 65536 && Drift(ERA + 2, 1) == 1 && Drift(0, 1) == 0
  {
    EveryPacketDropped(ERA);
    EveryPacketDropped(ERA + 2);
    EveryPacketDropped(2);
    WrappedAt(ERA + 2, 1, 2, 1);
    NoDriftInFirstEra(0, 1);
  }

  /** In general the closed form fails past the first era: packet number 0 comes round again and is
      never dropped, whatever the period. */
  lemma ClosedFormFailsPastEra()
    ensures PlcBlocks(0, ERA + 2, 1) != ExpectedPlcCalls(0, ERA + 2, 1) == 65536
  {
    DriftPastEra();
    ClosedFormExactly(0, ERA + 2, 1);
    ClosedFormIsDifference(0, ERA + 2, 1);
  }
}
