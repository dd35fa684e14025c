/** The figures a benchmark run reports beside its count of concealed blocks, and what makes it pass: failures are
    counted over the whole run, times over the measured blocks. */
module BenchmarkResult {
  import opened Words

  const BUDGET_US: u32 := 8000

  /** One block: whether encoding succeeded, how many decoders failed, and three readings of a wrapping clock. */
  datatype Pass = Pass(encoded: bool, failures: nat, started: u32, encodedAt: u32, finished: u32)

  function EncodeTime(p: Pass): u32 { Wrap32(p.encodedAt - p.started) }
  function RenderTime(p: Pass): u32 { Wrap32(p.finished - p.encodedAt) }
  function TotalTime(p: Pass): u32 { Wrap32(p.finished - p.started) }

  function EncodeFailures(passes: seq<Pass>): nat {
    if |passes| == 0 then 0
    else EncodeFailures(passes[..|passes| - 1]) + if passes[|passes| - 1].encoded then 0 else 1
  }

  function DecodeFailures(passes: seq<Pass>): nat {
    if |passes| == 0 then 0 else DecodeFailures(passes[..|passes| - 1]) + passes[|passes| - 1].failures
  }

  function Misses(timed: seq<Pass>): nat {
    if |timed| == 0 then 0
    else Misses(timed[..|timed| - 1]) + if TotalTime(timed[|timed| - 1]) > BUDGET_US then 1 else 0
  }

  function Sum(timed: seq<Pass>, time: Pass -> u32): nat {
    if |timed| == 0 then 0 else Sum(timed[..|timed| - 1], time) + time(timed[|timed| - 1])
  }

  function Longest(timed: seq<Pass>, time: Pass -> u32): u32 {
    if |timed| == 0 then 0
    else
      var last, before := time(timed[|timed| - 1]), Longest(timed[..|timed| - 1], time);
      if last > before then last else before
  }

  /** The largest 32-bit count stays. */
  function Saturated(count: nat): u32 { if count < MAX_U32 then count else MAX_U32 }

  // ----- what the figures say -----

  lemma {:induction false} SumWithinLongest(timed: seq<Pass>, time: Pass -> u32)
    ensures Sum(timed, time) <= |timed| * Longest(timed, time)
  {
    if |timed| > 0 {
      var front := timed[..|timed| - 1];
      SumWithinLongest(front, time);
      ProductOrder(Longest(front, time), Longest(timed, time), |front|);
      assert |timed| * Longest(timed, time) == |front| * Longest(timed, time) + Longest(timed, time);
    }
  }

  lemma ProductOrder(a: nat, b: nat, c: nat)
    requires a <= b
    ensures c * a <= c * b
  {
  }

  /** The 64-bit sums cannot overflow: there are fewer than 2^32 blocks, of less than 2^32 microseconds each. */
  lemma SumFits(timed: seq<Pass>, time: Pass -> u32)
    requires |timed| <= MAX_U32
    ensures Sum(timed, time) <= MAX_U32 * MAX_U32 < 0x1_0000_0000_0000_0000
  {
    SumWithinLongest(timed, time);
    ProductOrder(Longest(timed, time), MAX_U32, |timed|);
    ProductOrder(|timed|, MAX_U32, MAX_U32);
  }

  /** An average, rounded down, is never above the maximum. */
  lemma AverageWithinLongest(timed: seq<Pass>, time: Pass -> u32)
    requires |timed| > 0
    ensures Sum(timed, time) / |timed| <= Longest(timed, time)
  {
    SumWithinLongest(timed, time);
    var n, longest := |timed|, Longest(timed, time);
    if Sum(timed, time) / n > longest {
      ProductOrder(longest + 1, Sum(timed, time) / n, n);
    }
  }

  lemma {:induction false} NoMissesExactly(timed: seq<Pass>)
    ensures Misses(timed) == 0 <==> forall i :: 0 <= i < |timed| ==> TotalTime(timed[i]) <= BUDGET_US
    ensures Longest(timed, TotalTime) <= BUDGET_US <==> forall i :: 0 <= i < |timed| ==> TotalTime(timed[i]) <= BUDGET_US
    ensures Misses(timed) <= |timed|
  {
    if |timed| > 0 {
      var n := |timed| - 1;
      NoMissesExactly(timed[..n]);
      assert forall i :: 0 <= i < n ==> timed[..n][i] == timed[i];
    }
  }

  lemma {:induction false} NoFailuresExactly(passes: seq<Pass>)
    ensures EncodeFailures(passes) == 0 <==> forall i :: 0 <= i < |passes| ==> passes[i].encoded
    ensures DecodeFailures(passes) == 0 <==> forall i :: 0 <= i < |passes| ==> passes[i].failures == 0
  {
    if |passes| > 0 {
      var n := |passes| - 1;
      NoFailuresExactly(passes[..n]);
      assert forall i :: 0 <= i < n ==> passes[..n][i] == passes[i];
    }
  }

  /** No block of the run failed and every measured one kept to its budget. */
  predicate Clean(passes: seq<Pass>, timed: seq<Pass>) {
    && (forall i :: 0 <= i < |passes| ==> passes[i].encoded && passes[i].failures == 0)
    && (forall i :: 0 <= i < |timed| ==> TotalTime(timed[i]) <= BUDGET_US)
  }

  /** A sum and a maximum kept of one time. */
  ghost predicate Measures(timed: seq<Pass>, time: Pass -> u32, sum: int, maximum: int) {
    sum == Sum(timed, time) && maximum == Longest(timed, time)
  }

  /** Counters that saturate. */
  ghost predicate Counts(passes: seq<Pass>, encodeFailures: int, decodeFailures: int) {
    encodeFailures == Saturated(EncodeFailures(passes)) && decodeFailures == Saturated(DecodeFailures(passes))
  }

  lemma MeasuresGrow(timed: seq<Pass>, p: Pass, time: Pass -> u32, sum: u64, maximum: u32)
    requires Measures(timed, time, sum, maximum) && |timed| < MAX_U32
    ensures Measures(timed + [p], time, Wrap64(sum + time(p)), if time(p) > maximum then time(p) else maximum)
  {
    assert (timed + [p])[..|timed|] == timed;
    SumFits(timed + [p], time);
  }

  lemma CountsGrow(passes: seq<Pass>, p: Pass, encodeFailures: u32, decodeFailures: u32)
    requires Counts(passes, encodeFailures, decodeFailures)
    ensures Counts(passes + [p], if p.encoded then encodeFailures else Saturated(encodeFailures + 1),
                   Saturated(decodeFailures + p.failures))
  {
    assert (passes + [p])[..|passes|] == passes;
  }

  lemma MissesGrow(timed: seq<Pass>, p: Pass, misses: u32)
    requires misses == Saturated(Misses(timed))
    ensures (if TotalTime(p) > BUDGET_US then Saturated(misses + 1) else misses) == Saturated(Misses(timed + [p]))
  {
    assert (timed + [p])[..|timed|] == timed;
  }

  // ----- the figures in memory -----

  class Statistics {
    var encodeFailures: u32
    var decodeFailures: u32
    var deadlineMisses: u32
    var maximumEncode: u32
    var maximumRender: u32
    var maximumTotal: u32
    var encodeSum: u64
    var renderSum: u64
    var totalSum: u64
    var averageEncode: u32
    var averageRender: u32
    var averageTotal: u32
    ghost var passes: seq<Pass>
    ghost var timed: seq<Pass>

    ghost predicate Valid()
      reads this
    {
      && Counts(passes, encodeFailures, decodeFailures) && deadlineMisses == Saturated(Misses(timed))
      && Measures(timed, EncodeTime, encodeSum, maximumEncode)
      && Measures(timed, RenderTime, renderSum, maximumRender)
      && Measures(timed, TotalTime, totalSum, maximumTotal)
    }

    constructor ()
      ensures Valid() && passes == [] && timed == []
    {
      encodeFailures, decodeFailures, deadlineMisses := 0, 0, 0;
      maximumEncode, maximumRender, maximumTotal := 0, 0, 0;
      encodeSum, renderSum, totalSum := 0, 0, 0;
      averageEncode, averageRender, averageTotal := 0, 0, 0;
      passes, timed := [], [];
    }

    /** Failures of any block. */
    method CountFailures(p: Pass)
      requires Valid()
      modifies this`encodeFailures, this`decodeFailures, this`passes
      ensures Valid() && passes == old(passes) + [p]
    {
      CountsGrow(passes, p, encodeFailures, decodeFailures);
      if !p.encoded && encodeFailures != MAX_U32 {
        encodeFailures := encodeFailures + 1;
      }
      decodeFailures := Saturated(decodeFailures + p.failures);
      passes := passes + [p];
    }

    static method AddTime(value: u32, sum: u64, maximum: u32, ghost timed: seq<Pass>, ghost p: Pass,
                          ghost time: Pass -> u32)
      returns (newSum: u64, newMaximum: u32)
      requires Measures(timed, time, sum, maximum) && |timed| < MAX_U32 && value == time(p)
      ensures Measures(timed + [p], time, newSum, newMaximum)
    {
      MeasuresGrow(timed, p, time, sum, maximum);
      newSum := Wrap64(sum + value);
      newMaximum := if value > maximum then value else maximum;
    }

    static method AddMiss(total: u32, misses: u32, ghost timed: seq<Pass>, ghost p: Pass) returns (newMisses: u32)
      requires misses == Saturated(Misses(timed)) && total == TotalTime(p)
      ensures newMisses == Saturated(Misses(timed + [p]))
    {
      MissesGrow(timed, p, misses);
      newMisses := misses;
      if total > BUDGET_US && misses != MAX_U32 {
        newMisses := misses + 1;
      }
    }

    /** Times of a measured block. */
    method CountTimes(p: Pass)
      requires Valid() && |timed| < MAX_U32
      modifies this
      ensures Valid() && timed == old(timed) + [p] && passes == old(passes)
    {
      ghost var all := timed + [p];
      var es, me := AddTime(EncodeTime(p), encodeSum, maximumEncode, timed, p, EncodeTime);
      var rs, mr := AddTime(RenderTime(p), renderSum, maximumRender, timed, p, RenderTime);
      var ts, mt := AddTime(TotalTime(p), totalSum, maximumTotal, timed, p, TotalTime);
      var misses := AddMiss(TotalTime(p), deadlineMisses, timed, p);
      Store(all, es, me, rs, mr, ts, mt, misses);
    }

    method Store(ghost all: seq<Pass>, es: u64, me: u32, rs: u64, mr: u32, ts: u64, mt: u32, misses: u32)
      requires Counts(passes, encodeFailures, decodeFailures) && misses == Saturated(Misses(all))
      requires Measures(all, EncodeTime, es, me)
      requires Measures(all, RenderTime, rs, mr)
      requires Measures(all, TotalTime, ts, mt)
      modifies this
      ensures Valid() && timed == all && passes == old(passes)
    {
      encodeSum, renderSum, totalSum := es, rs, ts;
      maximumEncode, maximumRender, maximumTotal := me, mr, mt;
      deadlineMisses := misses;
      timed := all;
    }

    static method Average(sum: u64, blocks: u32, ghost timed: seq<Pass>, ghost time: Pass -> u32) returns (average: u32)
      requires blocks != 0 && blocks == |timed| && sum == Sum(timed, time)
      ensures average == Sum(timed, time) / |timed| <= Longest(timed, time)
    {
      AverageWithinLongest(timed, time);
      average := sum / blocks;
    }

    method SetAverages(blocks: u32)
      requires Valid() && blocks == |timed| && blocks != 0
      modifies this`averageEncode, this`averageRender, this`averageTotal
      ensures Valid()
      ensures averageEncode == Sum(timed, EncodeTime) / |timed| <= maximumEncode
      ensures averageRender == Sum(timed, RenderTime) / |timed| <= maximumRender
      ensures averageTotal == Sum(timed, TotalTime) / |timed| <= maximumTotal
    {
      averageEncode := Average(encodeSum, blocks, timed, EncodeTime);
      averageRender := Average(renderSum, blocks, timed, RenderTime);
      averageTotal := Average(totalSum, blocks, timed, TotalTime);
    }

    /** Whether nothing failed and no deadline was missed. */
    method IsClean() returns (clean: bool)
      requires Valid()
      ensures clean <==> Clean(passes, timed)
    {
      NoFailuresExactly(passes);
      NoMissesExactly(timed);
      clean := encodeFailures == 0 && decodeFailures == 0 && deadlineMisses == 0 && maximumTotal <= BUDGET_US;
    }
  }
}
