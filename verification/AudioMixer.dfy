/** The fixed-point mixer: five remote sources are scaled, summed, limited and saturated to 16 bits. */
module AudioMixer {

  const SAMPLES: nat := 160
  const SOURCES: nat := 5
  const UNITY: nat := 32768
  const DEFAULT_GAIN: nat := 16384
  const LIMIT_TARGET: nat := 30000
  const MAX_PEAK: nat := SOURCES * 32768
  const LOWEST_GAIN: nat := 6000

  type Sample = x: int | -32768 <= x < 32768
  type Sources = s: seq<seq<Sample>> | |s| == SOURCES && forall i :: 0 <= i < SOURCES ==> |s[i]| == SAMPLES
    witness seq(SOURCES, _ => seq(SAMPLES, _ => 0))
  type Mask = m: seq<bool> | |m| == SOURCES witness seq(SOURCES, _ => false)
  type Gains = g: seq<nat> | |g| == SOURCES && forall i :: 0 <= i < SOURCES ==> g[i] <= UNITY
    witness seq(SOURCES, _ => 0)

  function Abs(x: int): nat { if x < 0 then -x else x }

  function Max(x: nat, y: nat): nat { if x > y then x else y }

  /** One Q15 multiplication; the arithmetic right shift rounds towards minus infinity. */
  function Scale(sample: int, gain: nat): int { sample * gain / 32768 }

  /** Sum of the first n sources at one sample position. */
  function MixedAt(sources: Sources, mask: Mask, gains: Gains, n: nat, k: nat): int
    requires n <= SOURCES && k < SAMPLES
  {
    if n == 0 then 0
    else MixedAt(sources, mask, gains, n - 1, k) +
         (if mask[n - 1] then Scale(sources[n - 1][k], gains[n - 1]) else 0)
  }

  function Mixed(sources: Sources, mask: Mask, gains: Gains): (mixed: seq<int>)
    ensures |mixed| == SAMPLES
  {
    seq(SAMPLES, k requires 0 <= k < SAMPLES => MixedAt(sources, mask, gains, SOURCES, k))
  }

  /** Largest magnitude among the first n positions. */
  function PeakOf(mixed: seq<int>, n: nat): nat
    requires n <= |mixed|
  {
    if n == 0 then 0 else Max(PeakOf(mixed, n - 1), Abs(mixed[n - 1]))
  }

  function RequestedGain(peak: nat): nat {
    if peak > LIMIT_TARGET then LIMIT_TARGET * 32768 / peak else UNITY
  }

  /** Attack is immediate; release closes a sixteenth of the gap to unity per block. */
  function NextGain(gain: nat, peak: nat): nat
    requires gain <= UNITY
  {
    if RequestedGain(peak) < gain then RequestedGain(peak) else gain + (UNITY - gain) / 16
  }

  function Saturate(x: int): Sample {
    if x > 32767 then 32767 else if x < -32768 then -32768 else x
  }

  /** What a block of sources sounds like through the limiter, and the gain it leaves. */
  function Played(sources: Sources, mask: Mask, gains: Gains, limiter: nat): (r: (seq<Sample>, nat))
    requires limiter <= UNITY
    ensures |r.0| == SAMPLES
  {
    if forall i :: 0 <= i < SOURCES ==> !mask[i] then (seq(SAMPLES, _ => 0), limiter)
    else
      var mixed := Mixed(sources, mask, gains);
      var gain := NextGain(limiter, PeakOf(mixed, SAMPLES));
      (seq(SAMPLES, k requires 0 <= k < SAMPLES => Saturate(Scale(mixed[k], gain))), gain)
  }

  predicate Clips(x: int) { x != Saturate(x) }

  function ClipCount(mixed: seq<int>, gain: nat, n: nat): nat
    requires n <= |mixed|
  {
    if n == 0 then 0
    else ClipCount(mixed, gain, n - 1) + (if Clips(Scale(mixed[n - 1], gain)) then 1 else 0)
  }

  // ----- bounds -----

  lemma ProductOrder(a: nat, b: nat, c: nat)
    requires a <= b
    ensures a * c <= b * c
  {
  }

  lemma QuotientAtMost(x: nat, d: nat, bound: nat)
    requires d > 0 && x <= bound * d
    ensures x / d <= bound
  {
  }

  lemma QuotientAtLeast(x: nat, d: nat, bound: nat)
    requires d > 0 && bound * d <= x
    ensures bound <= x / d
  {
    var q := x / d;
    assert x < (q + 1) * d;
    if q < bound {
      ProductOrder(q + 1, bound, d);
    }
  }

  lemma ScaleMagnitude(x: int, gain: nat, bound: nat)
    requires Abs(x) * gain <= bound * 32768
    ensures Abs(Scale(x, gain)) <= bound
  {
    if x >= 0 {
    } else {
      assert x * gain == -(Abs(x) * gain);
    }
  }

  lemma {:induction false} MixedWithinPeakRange(sources: Sources, mask: Mask, gains: Gains, n: nat, k: nat)
    requires n <= SOURCES && k < SAMPLES
    ensures Abs(MixedAt(sources, mask, gains, n, k)) <= n * 32768
  {
    if n > 0 {
      MixedWithinPeakRange(sources, mask, gains, n - 1, k);
      var x, g := sources[n - 1][k], gains[n - 1];
      ProductOrder(Abs(x), 32768, g);
      ScaleMagnitude(x, g, 32768);
    }
  }

  lemma RequestedTimesPeak(peak: nat)
    requires peak <= MAX_PEAK
    ensures LOWEST_GAIN <= RequestedGain(peak) <= UNITY
    ensures peak > LIMIT_TARGET ==> RequestedGain(peak) * peak <= LIMIT_TARGET * 32768
  {
    if peak > LIMIT_TARGET {
      var r := RequestedGain(peak);
      assert r * peak <= LIMIT_TARGET * 32768;
      QuotientAtMost(LIMIT_TARGET * 32768, peak, UNITY);
      QuotientAtLeast(LIMIT_TARGET * 32768, peak, LOWEST_GAIN);
    }
  }

  /** The limiter gain never leaves [6000, 32768]. */
  lemma GainStaysInRange(gain: nat, peak: nat)
    requires LOWEST_GAIN <= gain <= UNITY && peak <= MAX_PEAK
    ensures LOWEST_GAIN <= NextGain(gain, peak) <= UNITY
  {
    RequestedTimesPeak(peak);
  }

  lemma ReleaseOvershoot(gain: nat, peak: nat)
    requires gain <= RequestedGain(peak) && LIMIT_TARGET < peak <= MAX_PEAK
    ensures peak * (gain + (UNITY - gain) / 16) <= (28125 + (peak + 15) / 16) * 32768
  {
    RequestedTimesPeak(peak);
    var next := gain + (UNITY - gain) / 16;
    assert 16 * next <= 15 * gain + UNITY;
    ProductOrder(gain, RequestedGain(peak), peak);
    assert gain * peak <= LIMIT_TARGET * 32768;
    ProductOrder(16 * next, 15 * gain + UNITY, peak);
    assert (15 * gain + UNITY) * peak == 15 * (gain * peak) + UNITY * peak;
    assert 16 * next * peak <= 15 * LIMIT_TARGET * 32768 + UNITY * peak;
    assert peak <= 16 * ((peak + 15) / 16);
  }

  lemma QuotientBelow(x: nat, d: nat, bound: nat)
    requires d > 0 && x < (bound + 1) * d
    ensures x / d <= bound
  {
    NextMultipleFits(x / d, bound, d);
    assert x / d * d <= x;
  }

  lemma NextMultipleFits(q: int, bound: nat, d: nat)
    ensures q > bound ==> (bound + 1) * d <= q * d
  {
    if q > bound {
      ProductOrder(bound + 1, q, d);
    }
  }

  /** Every sample before saturation stays within the larger of 30000 and 28125 + peak/16, because
      the release step may overshoot the requested gain by at most a sixteenth. */
  lemma LimiterBound(gain: nat, peak: nat, x: int)
    requires LOWEST_GAIN <= gain <= UNITY && peak <= MAX_PEAK && Abs(x) <= peak
    ensures Abs(Scale(x, NextGain(gain, peak))) <= Max(30000, 28125 + (peak + 15) / 16)
  {
    var next := NextGain(gain, peak);
    RequestedTimesPeak(peak);
    ProductOrder(Abs(x), peak, next);
    if peak <= LIMIT_TARGET {
      ProductOrder(next, UNITY, peak);
      ScaleMagnitude(x, next, LIMIT_TARGET);
    } else if RequestedGain(peak) < gain {
      ScaleMagnitude(x, next, LIMIT_TARGET);
    } else {
      ReleaseOvershoot(gain, peak);
      ScaleMagnitude(x, next, 28125 + (peak + 15) / 16);
    }
  }

  lemma {:induction false} PeakBounds(mixed: seq<int>, n: nat)
    requires n <= |mixed|
    ensures forall k :: 0 <= k < n ==> Abs(mixed[k]) <= PeakOf(mixed, n)
    ensures n > 0 ==> exists k :: 0 <= k < n && Abs(mixed[k]) == PeakOf(mixed, n)
  {
    if n > 0 {
      PeakBounds(mixed, n - 1);
    }
  }

  // ----- what comes out -----

  /** A limited sample is put out as it is where it fits, and else as the nearest value that does: the clipped one
      keeps its sign. */
  lemma SaturateIsNearest(x: int, y: Sample)
    ensures Abs(x - Saturate(x)) <= Abs(x - y)
    ensures -32768 <= x < 32768 <==> Saturate(x) == x
    ensures (x > 0 <==> Saturate(x) > 0) && (x < 0 <==> Saturate(x) < 0)
  {
  }

  /** What a source contributes at one position: itself by its gain, or nothing if it is masked out. */
  function Contribution(sources: Sources, mask: Mask, gains: Gains, i: nat, k: nat): int
    requires i < SOURCES && k < SAMPLES
  {
    if mask[i] then sources[i][k] * gains[i] / 32768 else 0
  }

  /** A mixed sample is the sum of what the sources contribute. */
  lemma MixedIsSum(sources: Sources, mask: Mask, gains: Gains, k: nat)
    requires k < SAMPLES
    ensures Mixed(sources, mask, gains)[k] ==
      Contribution(sources, mask, gains, 0, k) + Contribution(sources, mask, gains, 1, k)
      + Contribution(sources, mask, gains, 2, k) + Contribution(sources, mask, gains, 3, k)
      + Contribution(sources, mask, gains, 4, k)
  {
    assert MixedAt(sources, mask, gains, 0, k) == 0;
    assert MixedAt(sources, mask, gains, 1, k) == Contribution(sources, mask, gains, 0, k);
    assert MixedAt(sources, mask, gains, 2, k) ==
      MixedAt(sources, mask, gains, 1, k) + Contribution(sources, mask, gains, 1, k);
    assert MixedAt(sources, mask, gains, 3, k) ==
      MixedAt(sources, mask, gains, 2, k) + Contribution(sources, mask, gains, 2, k);
    assert MixedAt(sources, mask, gains, 4, k) ==
      MixedAt(sources, mask, gains, 3, k) + Contribution(sources, mask, gains, 3, k);
  }

  lemma {:induction false} LoneSum(sources: Sources, mask: Mask, gains: Gains, i: nat, n: nat, k: nat)
    requires i < SOURCES && n <= SOURCES && k < SAMPLES && gains[i] == UNITY
    requires forall j :: 0 <= j < SOURCES ==> mask[j] == (j == i)
    ensures MixedAt(sources, mask, gains, n, k) == if i < n then sources[i][k] else 0
  {
    if n > 0 {
      LoneSum(sources, mask, gains, i, n - 1, k);
      if n - 1 == i {
        assert Scale(sources[i][k], UNITY) == sources[i][k];
      }
    }
  }

  /** One source alone, at unity gain and no louder than the limit, is heard unchanged. */
  lemma LoneSourceIsHeard(sources: Sources, mask: Mask, gains: Gains, i: nat)
    requires i < SOURCES && gains[i] == UNITY && forall j :: 0 <= j < SOURCES ==> mask[j] == (j == i)
    requires forall k :: 0 <= k < SAMPLES ==> Abs(sources[i][k]) <= LIMIT_TARGET
    ensures Played(sources, mask, gains, UNITY) == (sources[i], UNITY)
  {
    var mixed := Mixed(sources, mask, gains);
    forall k | 0 <= k < SAMPLES ensures mixed[k] == sources[i][k] {
      LoneSum(sources, mask, gains, i, SOURCES, k);
    }
    PeakBounds(mixed, SAMPLES);
    assert mask[i] && PeakOf(mixed, SAMPLES) <= LIMIT_TARGET && NextGain(UNITY, PeakOf(mixed, SAMPLES)) == UNITY;
    forall k | 0 <= k < SAMPLES ensures Played(sources, mask, gains, UNITY).0[k] == sources[i][k] {
      assert Scale(mixed[k], UNITY) == mixed[k];
    }
    assert Played(sources, mask, gains, UNITY).0 == sources[i];
  }

  // ----- clipping -----

  const FULL_SCALE: nat := 32768 * 32768

  /** The gain one block of release after the one requested for a peak: the highest a block of that peak meets. */
  function Released(peak: nat): int { RequestedGain(peak) + (UNITY - RequestedGain(peak)) / 16 }

  /** The limiter keeps this peak below full scale even then. */
  predicate Safe(peak: nat) { peak <= LIMIT_TARGET || peak * Released(peak) < FULL_SCALE }

  lemma BelowFullScale(x: int, gain: nat)
    requires Abs(x) * gain < FULL_SCALE
    ensures !Clips(Scale(x, gain))
  {
    if x < 0 {
      assert x * gain == -(Abs(x) * gain);
    }
  }

  lemma NextGainIsAtMostReleased(gain: nat, peak: nat)
    requires gain <= UNITY && LIMIT_TARGET < peak <= MAX_PEAK
    ensures NextGain(gain, peak) <= Released(peak)
  {
    RequestedTimesPeak(peak);
  }

  lemma SafeBelowFullScale(gain: nat, peak: nat)
    requires gain <= UNITY && peak <= MAX_PEAK && Safe(peak)
    ensures peak * NextGain(gain, peak) < FULL_SCALE
  {
    if peak <= LIMIT_TARGET {
      ProductOrder(NextGain(gain, peak), UNITY, peak);
    } else {
      NextGainIsAtMostReleased(gain, peak);
      ProductOrder(NextGain(gain, peak), Released(peak), peak);
    }
  }

  /** A block whose pre-limit peak is safe is never clipped, whatever the gain before it. */
  lemma {:induction false} SafeNeverClips(mixed: seq<int>, gain: nat, n: nat)
    requires n <= |mixed| && gain <= UNITY && PeakOf(mixed, |mixed|) <= MAX_PEAK && Safe(PeakOf(mixed, |mixed|))
    ensures ClipCount(mixed, NextGain(gain, PeakOf(mixed, |mixed|)), n) == 0
  {
    if n > 0 {
      var peak := PeakOf(mixed, |mixed|);
      SafeNeverClips(mixed, gain, n - 1);
      PeakBounds(mixed, |mixed|);
      SafeBelowFullScale(gain, peak);
      ProductOrder(Abs(mixed[n - 1]), peak, NextGain(gain, peak));
      BelowFullScale(mixed[n - 1], NextGain(gain, peak));
    }
  }

  class Mixer {
    const sourceGain: array<nat>
    var limiterGain: nat
    var blocks: nat
    var silentBlocks: nat
    var limitedBlocks: nat
    var clippedSamples: nat
    var lastPrelimitPeak: nat

    ghost predicate Valid()
      reads this, sourceGain
    {
      && sourceGain.Length == SOURCES
      && (forall i :: 0 <= i < SOURCES ==> sourceGain[i] <= UNITY)
      && LOWEST_GAIN <= limiterGain <= UNITY
    }

    ghost function Gains(): Gains
      reads this, sourceGain
      requires Valid()
    {
      sourceGain[..]
    }

    constructor ()
      ensures Valid() && fresh(sourceGain) && limiterGain == UNITY && blocks == clippedSamples == 0
      ensures forall i :: 0 <= i < SOURCES ==> sourceGain[i] == DEFAULT_GAIN
    {
      sourceGain := new nat[SOURCES](_ => DEFAULT_GAIN);
      limiterGain, blocks, silentBlocks, limitedBlocks := UNITY, 0, 0, 0;
      clippedSamples, lastPrelimitPeak := 0, 0;
    }

    method SetSourceGain(index: nat, gain: nat) returns (ok: bool)
      requires Valid()
      modifies sourceGain
      ensures Valid() && ok == (index < SOURCES && gain <= UNITY)
      ensures sourceGain[..] == if ok then old(sourceGain[..])[index := gain] else old(sourceGain[..])
    {
      ok := index < SOURCES && gain <= UNITY;
      if ok {
        sourceGain[index] := gain;
      }
    }

    /** Sums the valid sources into one block of 32-bit accumulators. */
    method Accumulate(sources: Sources, mask: Mask) returns (mixed: array<int>, active: nat)
      requires Valid()
      ensures fresh(mixed) && mixed.Length == SAMPLES
      ensures mixed[..] == Mixed(sources, mask, Gains())
      ensures active == 0 <==> forall i :: 0 <= i < SOURCES ==> !mask[i]
    {
      mixed := new int[SAMPLES](_ => 0);
      active := 0;
      var source := 0;
      while source < SOURCES
        invariant source <= SOURCES
        invariant forall k :: 0 <= k < SAMPLES ==>
          mixed[k] == MixedAt(sources, mask, Gains(), source, k)
        invariant active == 0 <==> forall i :: 0 <= i < source ==> !mask[i]
      {
        if mask[source] {
          active := active + 1;
          var gain := sourceGain[source];
          var k := 0;
          while k < SAMPLES
            invariant k <= SAMPLES
            invariant forall j :: 0 <= j < SAMPLES ==>
              mixed[j] == MixedAt(sources, mask, Gains(), if j < k then source + 1 else source, j)
          {
            mixed[k] := mixed[k] + sources[source][k] * gain / 32768;
            k := k + 1;
          }
        }
        source := source + 1;
      }
    }

    method Peak(mixed: array<int>) returns (peak: nat)
      ensures peak == PeakOf(mixed[..], mixed.Length)
    {
      peak := 0;
      var k := 0;
      while k < mixed.Length
        invariant k <= mixed.Length && peak == PeakOf(mixed[..], k)
      {
        var magnitude := if mixed[k] < 0 then -mixed[k] else mixed[k];
        if magnitude > peak {
          peak := magnitude;
        }
        k := k + 1;
      }
    }

    method UpdateGain(peak: nat)
      requires Valid() && peak <= MAX_PEAK
      modifies this`limiterGain, this`limitedBlocks
      ensures Valid() && limiterGain == NextGain(old(limiterGain), peak)
      ensures limitedBlocks == old(limitedBlocks) + if peak > LIMIT_TARGET then 1 else 0
    {
      GainStaysInRange(limiterGain, peak);
      var requested := UNITY;
      if peak > LIMIT_TARGET {
        requested := LIMIT_TARGET * 32768 / peak;
        limitedBlocks := limitedBlocks + 1;
      }
      if requested < limiterGain {
        limiterGain := requested;
      } else {
        var release := (UNITY - limiterGain) / 16;
        limiterGain := limiterGain + release;
      }
    }

    method WriteLimited(mixed: array<int>, output: array<Sample>)
      requires mixed.Length == SAMPLES && output.Length == SAMPLES
      modifies this`clippedSamples, output
      ensures forall k :: 0 <= k < SAMPLES ==> output[k] == Saturate(Scale(mixed[k], limiterGain))
      ensures clippedSamples == old(clippedSamples) + ClipCount(mixed[..], limiterGain, SAMPLES)
    {
      ghost var was := mixed[..];
      var k := 0;
      while k < SAMPLES
        invariant k <= SAMPLES && mixed[..] == was
        invariant forall j :: 0 <= j < k ==> output[j] == Saturate(Scale(mixed[j], limiterGain))
        invariant clippedSamples == old(clippedSamples) + ClipCount(was, limiterGain, k)
      {
        var limited := mixed[k] * limiterGain / 32768;
        if limited > 32767 {
          clippedSamples := clippedSamples + 1;
          output[k] := 32767;
        } else if limited < -32768 {
          clippedSamples := clippedSamples + 1;
          output[k] := -32768;
        } else {
          output[k] := limited;
        }
        k := k + 1;
      }
    }

    method Process(sources: Sources, mask: Mask, output: array<Sample>)
      requires Valid() && output.Length == SAMPLES
      modifies this, output
      ensures Valid() && blocks == old(blocks) + 1
      ensures lastPrelimitPeak <= MAX_PEAK
      ensures (forall i :: 0 <= i < SOURCES ==> !mask[i]) ==>
        && lastPrelimitPeak == 0 && limiterGain == old(limiterGain)
        && clippedSamples == old(clippedSamples) && silentBlocks == old(silentBlocks) + 1
        && forall k :: 0 <= k < SAMPLES ==> output[k] == 0
      ensures (exists i :: 0 <= i < SOURCES && mask[i]) ==>
        var mixed := Mixed(sources, mask, old(Gains()));
        && lastPrelimitPeak == PeakOf(mixed, SAMPLES)
        && limiterGain == NextGain(old(limiterGain), lastPrelimitPeak)
        && clippedSamples == old(clippedSamples) + ClipCount(mixed, limiterGain, SAMPLES)
        && forall k :: 0 <= k < SAMPLES ==> output[k] == Saturate(Scale(mixed[k], limiterGain))
      ensures Safe(lastPrelimitPeak) ==> clippedSamples == old(clippedSamples)
    {
      var mixed, active := Accumulate(sources, mask);
      blocks := blocks + 1;
      if active == 0 {
        forall k | 0 <= k < SAMPLES { output[k] := 0; }
        silentBlocks := silentBlocks + 1;
        lastPrelimitPeak := 0;
        return;
      }
      ghost var sums := Mixed(sources, mask, Gains());
      var peak := Peak(mixed);
      lastPrelimitPeak := peak;
      forall k | 0 <= k < SAMPLES ensures Abs(sums[k]) <= MAX_PEAK {
        MixedWithinPeakRange(sources, mask, old(Gains()), SOURCES, k);
      }
      PeakBounds(sums, SAMPLES);
      UpdateGain(peak);
      if Safe(peak) {
        SafeNeverClips(sums, old(limiterGain), SAMPLES);
      }
      WriteLimited(mixed, output);
    }

    /** A block as the pipeline hears it. */
    method Play(sources: Sources, mask: Mask, output: array<Sample>)
      requires Valid() && output.Length == SAMPLES
      modifies this, output
      ensures Valid() && Gains() == old(Gains())
      ensures (output[..], limiterGain) == Played(sources, mask, old(Gains()), old(limiterGain))
    {
      Process(sources, mask, output);
      ghost var (played, gain) := Played(sources, mask, old(Gains()), old(limiterGain));
      if forall i :: 0 <= i < SOURCES ==> !mask[i] {
        assert gain == limiterGain && forall k :: 0 <= k < SAMPLES ==> output[k] == played[k];
      } else {
        assert exists i :: 0 <= i < SOURCES && mask[i];
        assert gain == limiterGain && forall k :: 0 <= k < SAMPLES ==> output[k] == played[k];
      }
      assert output[..] == played;
    }
  }
}
