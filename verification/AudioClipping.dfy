/** Exactly when the limiter lets a block clip: it releases before it limits, so a block after an equally loud one
    meets a gain a little above the one requested for it. */
module AudioClipping {
  import opened AudioMixer

  /** No block of mixed samples with this peak is clipped, whatever the gain before it. */
  ghost predicate NeverClips(peak: nat) {
    forall mixed: seq<int>, gain: nat ::
      |mixed| == SAMPLES && PeakOf(mixed, SAMPLES) == peak && LOWEST_GAIN <= gain <= UNITY ==>
        ClipCount(mixed, NextGain(gain, peak), SAMPLES) == 0
  }

  /** The same of blocks as sources and their gains produce them. */
  ghost predicate NeverClipsSources(peak: nat) {
    forall sources: Sources, mask: Mask, gains: Gains, gain: nat ::
      PeakOf(Mixed(sources, mask, gains), SAMPLES) == peak && LOWEST_GAIN <= gain <= UNITY ==>
        ClipCount(Mixed(sources, mask, gains), NextGain(gain, peak), SAMPLES) == 0
  }

  // ----- a block for every peak -----

  /** The constant level of a block with a peak; five sources reach the highest peaks on the negative side only. */
  function Level(peak: nat): int { var level: int := peak; if peak <= SOURCES * 32767 then level else -level }

  /** What source i contributes to a level. */
  function Share(level: int, i: nat): Sample {
    var most := if level < 0 then 32768 else 32767;
    var rest := Abs(level) - i * most;
    var share := if rest < 0 then 0 else if rest > most then most else rest;
    if level < 0 then -share else share
  }

  function Steady(level: int): Sources {
    seq(SOURCES, i requires 0 <= i < SOURCES => seq(SAMPLES, _ => Share(level, i)))
  }

  const Everyone: Mask := [true, true, true, true, true]
  const AtUnity: Gains := [UNITY, UNITY, UNITY, UNITY, UNITY]

  lemma UnityKeeps(x: int)
    ensures Scale(x, UNITY) == x
  {
  }

  lemma {:induction false} SharesAdd(level: int, n: nat, k: nat)
    requires -(SOURCES * 32768) <= level <= SOURCES * 32767 && n <= SOURCES && k < SAMPLES
    ensures var most := if level < 0 then 32768 else 32767;
      var sum := if Abs(level) < n * most then Abs(level) else n * most;
      MixedAt(Steady(level), Everyone, AtUnity, n, k) == if level < 0 then -sum else sum
  {
    if n > 0 {
      SharesAdd(level, n - 1, k);
      UnityKeeps(Share(level, n - 1));
    }
  }

  lemma SteadyIsLevel(level: int)
    requires -(SOURCES * 32768) <= level <= SOURCES * 32767
    ensures Mixed(Steady(level), Everyone, AtUnity) == seq(SAMPLES, _ => level)
  {
    forall k | 0 <= k < SAMPLES ensures Mixed(Steady(level), Everyone, AtUnity)[k] == level {
      SharesAdd(level, SOURCES, k);
    }
  }

  lemma {:induction false} LevelPeak(mixed: seq<int>, level: int, n: nat)
    requires 0 < n <= |mixed| && forall k :: 0 <= k < |mixed| ==> mixed[k] == level
    ensures PeakOf(mixed, n) == Abs(level)
  {
    if n > 1 {
      LevelPeak(mixed, level, n - 1);
    }
  }

  lemma {:induction false} LevelClips(mixed: seq<int>, level: int, gain: nat, n: nat)
    requires n <= |mixed| && forall k :: 0 <= k < |mixed| ==> mixed[k] == level
    ensures ClipCount(mixed, gain, n) == if Clips(Scale(level, gain)) then n else 0
  {
    if n > 0 {
      LevelClips(mixed, level, gain, n - 1);
    }
  }

  // ----- the failing half -----

  lemma LoudPeaksExceed(peak: nat)
    requires SOURCES * 32767 < peak <= MAX_PEAK
    ensures peak * Released(peak) > FULL_SCALE
  {
    RequestedTimesPeak(peak);
    assert Released(peak) >= 7673;
    ProductOrder(163836, peak, 7673);
    ProductOrder(7673, Released(peak), peak);
  }

  /** At the released gain the level of an unsafe peak is clipped. */
  lemma ReleasedClips(peak: nat)
    requires peak <= MAX_PEAK && !Safe(peak)
    ensures RequestedGain(peak) <= UNITY && Released(peak) >= 0
    ensures Clips(Scale(Level(peak), Released(peak)))
  {
    RequestedTimesPeak(peak);
    var gain := Released(peak);
    if Level(peak) < 0 {
      LoudPeaksExceed(peak);
      assert Level(peak) * gain == -(peak * gain);
    }
  }

  lemma RequestedDoesNotClip(peak: nat)
    requires LIMIT_TARGET < peak <= MAX_PEAK
    ensures LOWEST_GAIN <= RequestedGain(peak) < UNITY && !Clips(Scale(Level(peak), RequestedGain(peak)))
  {
    RequestedTimesPeak(peak);
    QuotientBelow(LIMIT_TARGET * 32768, peak, UNITY - 1);
    BelowFullScale(Level(peak), RequestedGain(peak));
  }

  /** From unity gain, as a fresh mixer has it, the first block of an unsafe peak is limited without clipping, and
      the same block again is clipped throughout. */
  lemma SecondBlockClips(peak: nat)
    requires peak <= MAX_PEAK && !Safe(peak)
    ensures RequestedGain(peak) <= UNITY && Released(peak) >= 0
    ensures var sources := Steady(Level(peak)); var mixed := Mixed(sources, Everyone, AtUnity);
      && PeakOf(mixed, SAMPLES) == peak
      && Played(sources, Everyone, AtUnity, UNITY).1 == RequestedGain(peak)
      && ClipCount(mixed, RequestedGain(peak), SAMPLES) == 0
      && Played(sources, Everyone, AtUnity, RequestedGain(peak)).1 == Released(peak)
      && ClipCount(mixed, Released(peak), SAMPLES) == SAMPLES
  {
    var level := Level(peak);
    var mixed := Mixed(Steady(level), Everyone, AtUnity);
    SteadyIsLevel(level);
    LevelPeak(mixed, level, SAMPLES);
    RequestedDoesNotClip(peak);
    ReleasedClips(peak);
    LevelClips(mixed, level, RequestedGain(peak), SAMPLES);
    LevelClips(mixed, level, Released(peak), SAMPLES);
    assert Everyone[0];
  }

  /** The exact condition, for every peak five sources can reach: no block with that peak is ever clipped, mixed
      samples or sources, if and only if the peak is safe. */
  lemma ClippingExactly(peak: nat)
    requires peak <= MAX_PEAK
    ensures NeverClips(peak) <==> Safe(peak)
    ensures NeverClipsSources(peak) <==> Safe(peak)
  {
    if Safe(peak) {
      forall mixed: seq<int>, gain: nat
        | |mixed| == SAMPLES && PeakOf(mixed, SAMPLES) == peak && LOWEST_GAIN <= gain <= UNITY
        ensures ClipCount(mixed, NextGain(gain, peak), SAMPLES) == 0 {
        SafeNeverClips(mixed, gain, SAMPLES);
      }
      SumsCoverSources(peak);
    } else {
      UnsafeSourcesClip(peak);
      if NeverClips(peak) {
        SumsCoverSources(peak);
      }
    }
  }

  lemma SumsCoverSources(peak: nat)
    requires NeverClips(peak)
    ensures NeverClipsSources(peak)
  {
  }

  lemma UnsafeSourcesClip(peak: nat)
    requires peak <= MAX_PEAK && !Safe(peak)
    ensures !NeverClipsSources(peak)
  {
    SecondBlockClips(peak);
    RequestedTimesPeak(peak);
    assert NextGain(RequestedGain(peak), peak) == Released(peak);
  }

  // ----- which peaks are safe -----

  const SAFE_PEAK: nat := 74291
  const LAST_SAFE_PEAK: nat := 74338

  /** The safe peaks above 74291: the requested gain is rounded down to a whole number, so for a few peaks past
      each step of it there is room again. */
  predicate SafeAgain(peak: nat) {
    || 74293 <= peak <= 74297 || 74299 <= peak <= 74302 || 74304 <= peak <= 74307 || 74310 <= peak <= 74312
    || 74316 <= peak <= 74317 || 74321 <= peak <= 74322 || peak == 74327 || 74332 <= peak <= 74333
    || peak == LAST_SAFE_PEAK
  }

  /** Releasing towards unity closes a sixteenth of the gap, so low peaks are safe with room to spare. */
  lemma LowPeaksAreSafe(peak: nat)
    requires peak <= 74272
    ensures Safe(peak)
  {
    if peak > LIMIT_TARGET {
      ReleaseOvershoot(RequestedGain(peak), peak);
    }
  }

  /** All peaks up to 74291 are safe. */
  lemma SafePeaks(peak: nat)
    requires peak <= SAFE_PEAK
    ensures Safe(peak)
  {
    if peak <= 74272 {
      LowPeaksAreSafe(peak);
    } else if peak <= 74281 {
      QuotientBelow(LIMIT_TARGET * 32768, peak, 13235);
      ProductOrder(peak, 74281, Released(peak));
    } else {
      QuotientBelow(LIMIT_TARGET * 32768, peak, 13233);
      ProductOrder(peak, SAFE_PEAK, Released(peak));
    }
  }

  lemma GainOfStep(peak: nat, first: nat, last: nat, gain: nat)
    requires LIMIT_TARGET < first <= peak <= last && gain * last <= LIMIT_TARGET * 32768 < (gain + 1) * first
    ensures RequestedGain(peak) == gain
  {
    ProductOrder(first, peak, gain + 1);
    QuotientBelow(LIMIT_TARGET * 32768, peak, gain);
    ProductOrder(peak, last, gain);
    QuotientAtLeast(LIMIT_TARGET * 32768, peak, gain);
  }

  lemma Threshold(peak: nat, limit: nat, gain: nat)
    requires limit * gain < FULL_SCALE <= (limit + 1) * gain
    ensures peak * gain < FULL_SCALE <==> peak <= limit
  {
    if peak <= limit {
      ProductOrder(peak, limit, gain);
    } else {
      ProductOrder(limit + 1, peak, gain);
    }
  }

  /** From first to last the requested gain is the same, and there the peaks up to the limit are safe. */
  lemma StepDecides(peak: nat, first: nat, last: nat, gain: nat, limit: nat)
    requires LIMIT_TARGET < first <= peak <= last && gain <= UNITY
    requires gain * last <= LIMIT_TARGET * 32768 < (gain + 1) * first
    requires limit * (gain + (UNITY - gain) / 16) < FULL_SCALE <= (limit + 1) * (gain + (UNITY - gain) / 16)
    ensures Safe(peak) <==> peak <= limit
  {
    GainOfStep(peak, first, last, gain);
    Threshold(peak, limit, gain + (UNITY - gain) / 16);
  }

  lemma PeaksUpTo74303(peak: nat)
    requires 74292 <= peak <= 74303
    ensures Safe(peak) <==> SafeAgain(peak)
  {
    if peak <= 74292 {
      StepDecides(peak, 74288, 74292, 13232, 74291);
    } else if peak <= 74298 {
      StepDecides(peak, 74293, 74298, 13231, 74297);
    } else {
      StepDecides(peak, 74299, 74303, 13230, 74302);
    }
  }

  lemma PeaksUpTo74320(peak: nat)
    requires 74304 <= peak <= 74320
    ensures Safe(peak) <==> SafeAgain(peak)
  {
    if peak <= 74309 {
      StepDecides(peak, 74304, 74309, 13229, 74307);
    } else if peak <= 74315 {
      StepDecides(peak, 74310, 74315, 13228, 74312);
    } else {
      StepDecides(peak, 74316, 74320, 13227, 74317);
    }
  }

  lemma PeaksUpTo74331(peak: nat)
    requires 74321 <= peak <= 74331
    ensures Safe(peak) <==> SafeAgain(peak)
  {
    if peak <= 74326 {
      StepDecides(peak, 74321, 74326, 13226, 74322);
    } else {
      StepDecides(peak, 74327, 74331, 13225, 74327);
    }
  }

  lemma PeaksUpTo74343(peak: nat)
    requires 74332 <= peak <= 74343
    ensures Safe(peak) <==> SafeAgain(peak)
  {
    if peak <= 74337 {
      StepDecides(peak, 74332, 74337, 13224, 74333);
    } else {
      StepDecides(peak, 74338, 74343, 13223, 74338);
    }
  }

  lemma PeaksUpTo74360(peak: nat)
    requires 74344 <= peak <= 74360
    ensures Safe(peak) <==> SafeAgain(peak)
  {
    if peak <= 74348 {
      StepDecides(peak, 74344, 74348, 13222, 74343);
    } else if peak <= 74354 {
      StepDecides(peak, 74349, 74354, 13221, 74348);
    } else {
      StepDecides(peak, 74355, 74360, 13220, 74353);
    }
  }

  lemma QuotientIsClose(x: nat, d: nat)
    requires d > 0
    ensures x - d < x / d * d
  {
  }

  lemma OvershootFills(peak: nat, gain: nat, next: nat)
    requires peak >= 74357 && LIMIT_TARGET * 32768 - peak < gain * peak && 16 * next >= 15 * gain + 32753
    ensures peak * next >= FULL_SCALE
  {
    ProductOrder(15 * gain + 32753, 16 * next, peak);
    assert (15 * gain + 32753) * peak == 15 * (gain * peak) + 32753 * peak;
    assert 16 * next * peak == 16 * (peak * next);
  }

  /** From here on rounding down cannot make up for the overshoot. */
  lemma HighPeaksAreUnsafe(peak: nat)
    requires 74357 <= peak <= MAX_PEAK
    ensures !Safe(peak)
  {
    RequestedTimesPeak(peak);
    QuotientIsClose(LIMIT_TARGET * 32768, peak);
    OvershootFills(peak, RequestedGain(peak), Released(peak));
  }

  /** The safe peaks, listed: all up to 74291, twenty-four more up to 74338, and none after that. */
  lemma SafePeaksExactly(peak: nat)
    requires peak <= MAX_PEAK
    ensures Safe(peak) <==> peak <= SAFE_PEAK || SafeAgain(peak)
  {
    if peak <= SAFE_PEAK {
      SafePeaks(peak);
    } else if peak <= 74303 {
      PeaksUpTo74303(peak);
    } else if peak <= 74320 {
      PeaksUpTo74320(peak);
    } else if peak <= 74331 {
      PeaksUpTo74331(peak);
    } else if peak <= 74343 {
      PeaksUpTo74343(peak);
    } else if peak <= 74360 {
      PeaksUpTo74360(peak);
    } else {
      HighPeaksAreUnsafe(peak);
    }
  }

  /** No sample of a block with a peak of at most 74291 clips, nor of one with the other safe peaks. */
  lemma NoClippingBelowOvershoot(mixed: seq<int>, gain: nat, n: nat)
    requires n <= |mixed| && LOWEST_GAIN <= gain <= UNITY
    requires PeakOf(mixed, |mixed|) <= SAFE_PEAK || SafeAgain(PeakOf(mixed, |mixed|))
    ensures ClipCount(mixed, NextGain(gain, PeakOf(mixed, |mixed|)), n) == 0
  {
    SafePeaksExactly(PeakOf(mixed, |mixed|));
    SafeNeverClips(mixed, gain, n);
  }

  // ----- the lowest unsafe peak, from a fresh mixer -----

  const AtDefault: Gains := [DEFAULT_GAIN, DEFAULT_GAIN, DEFAULT_GAIN, DEFAULT_GAIN, DEFAULT_GAIN]

  /** Four sources at the largest sample and one at 17520: at the default gains they add up to 74292. */
  function LoudBlock(): Sources { Steady(148588) }

  lemma LoudBlockAdds(k: nat)
    requires k < SAMPLES
    ensures MixedAt(LoudBlock(), Everyone, AtDefault, SOURCES, k) == SAFE_PEAK + 1
  {
    var s := LoudBlock();
    assert s[0][k] == s[1][k] == s[2][k] == s[3][k] == 32767 && s[4][k] == 17520;
    assert Scale(32767, DEFAULT_GAIN) == 16383 && Scale(17520, DEFAULT_GAIN) == 8760;
    assert MixedAt(s, Everyone, AtDefault, 0, k) == 0;
    assert MixedAt(s, Everyone, AtDefault, 1, k) == 16383;
    assert MixedAt(s, Everyone, AtDefault, 2, k) == 32766;
    assert MixedAt(s, Everyone, AtDefault, 3, k) == 49149;
    assert MixedAt(s, Everyone, AtDefault, 4, k) == 65532;
  }

  lemma LoudBlockIsLevel()
    ensures Mixed(LoudBlock(), Everyone, AtDefault) == seq(SAMPLES, _ => SAFE_PEAK + 1)
  {
    forall k | 0 <= k < SAMPLES ensures Mixed(LoudBlock(), Everyone, AtDefault)[k] == SAFE_PEAK + 1 {
      LoudBlockAdds(k);
    }
  }

  /** The bound 74291 is sharp: a block of the next higher peak, played twice from unity gain, is limited without
      clipping the first time and clipped in every sample the second time. */
  lemma OvershootCanClip()
    ensures var mixed := Mixed(LoudBlock(), Everyone, AtDefault);
      var first := Played(LoudBlock(), Everyone, AtDefault, UNITY);
      && PeakOf(mixed, SAMPLES) == SAFE_PEAK + 1
      && first.1 == 13232 && ClipCount(mixed, 13232, SAMPLES) == 0
      && Played(LoudBlock(), Everyone, AtDefault, 13232).1 == 14453
      && ClipCount(mixed, 14453, SAMPLES) == SAMPLES
  {
    var mixed := Mixed(LoudBlock(), Everyone, AtDefault);
    LoudBlockIsLevel();
    LevelPeak(mixed, 74292, SAMPLES);
    LevelClips(mixed, 74292, 13232, SAMPLES);
    LevelClips(mixed, 74292, 14453, SAMPLES);
    assert LIMIT_TARGET * 32768 / 74292 == 13232;
    assert Everyone[0];
  }

  /** The same with a mixer as it is made. */
  method PlayLoudBlockTwice(output: array<Sample>) returns (mixer: Mixer, clippedFirst: nat)
    requires output.Length == SAMPLES
    modifies output
    ensures fresh(mixer) && mixer.Valid() && mixer.blocks == 2
    ensures clippedFirst == 0 && mixer.clippedSamples == SAMPLES
  {
    mixer := new Mixer();
    assert mixer.Gains() == AtDefault;
    OvershootCanClip();
    mixer.Process(LoudBlock(), Everyone, output);
    assert Everyone[0];
    clippedFirst := mixer.clippedSamples;
    mixer.Process(LoudBlock(), Everyone, output);
  }
}
