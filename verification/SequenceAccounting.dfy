/** What one node counts about another's packet sequence: received, missing, duplicate and stale, with
    16-bit sequence numbers that wrap. */
module SequenceAccounting {
  import opened Words

  datatype Rx = Rx(initialized: bool, last: u16, lastTimestamp: u64, received: nat, gaps: nat, duplicates: nat, stale: nat)

  const Unheard := Rx(false, 0, 0, 0, 0, 0, 0)

  datatype Verdict = First | InOrder | Gap | Duplicate | Stale

  datatype Call = Call(sequence: u16, timestamp: u64)

  /** A low sequence number sent before the last packet heard means that the sender started over. */
  predicate StartsOver(rx: Rx, c: Call) {
    c.timestamp != 0 && c.timestamp < rx.lastTimestamp && c.sequence <= 16
  }

  function Delta(rx: Rx, sequence: u16): u16 { Wrap16(sequence - rx.last) }

  /** The new counters, the verdict, and the number of packets found missing. */
  function Receive(rx: Rx, c: Call): (Rx, Verdict, nat) {
    if !rx.initialized || StartsOver(rx, c) then
      (rx.(initialized := true, last := c.sequence, lastTimestamp := c.timestamp, received := rx.received + 1), First, 0)
    else
      var delta := Delta(rx, c.sequence);
      if delta == 0 then (rx.(duplicates := rx.duplicates + 1), Duplicate, 0)
      else if delta >= 0x8000 then (rx.(stale := rx.stale + 1), Stale, 0)
      else
        (rx.(last := c.sequence, lastTimestamp := if c.timestamp != 0 then c.timestamp else rx.lastTimestamp,
             received := rx.received + 1, gaps := rx.gaps + delta - 1),
         if delta == 1 then InOrder else Gap, delta - 1)
  }

  function After(rx: Rx, calls: seq<Call>): Rx {
    if |calls| == 0 then rx else Receive(After(rx, calls[..|calls| - 1]), calls[|calls| - 1]).0
  }

  function Missing(rx: Rx, calls: seq<Call>): nat {
    if |calls| == 0 then 0
    else Missing(rx, calls[..|calls| - 1]) + Receive(After(rx, calls[..|calls| - 1]), calls[|calls| - 1]).2
  }

  /** Every call is counted exactly once, and the gaps are the packets reported missing. */
  lemma {:induction false} EveryCallIsCounted(calls: seq<Call>)
    ensures var rx := After(Unheard, calls);
      && rx.received + rx.duplicates + rx.stale == |calls|
      && rx.gaps == Missing(Unheard, calls)
      && (rx.initialized <==> |calls| > 0)
  {
    if |calls| > 0 {
      EveryCallIsCounted(calls[..|calls| - 1]);
    }
  }

  /** No call after the first makes the count start over. */
  predicate Continuous(calls: seq<Call>) {
    |calls| > 0 ==>
      && Continuous(calls[..|calls| - 1])
      && (|calls| > 1 ==> !StartsOver(After(Unheard, calls[..|calls| - 1]), calls[|calls| - 1]))
  }

  lemma DeltaAdds(first: u16, n: nat, last: u16, sequence: u16, delta: u16)
    requires last == Wrap16(first + n) && delta == Wrap16(sequence - last)
    ensures sequence == Wrap16(first + n + delta)
  {
  }

  /** Packets received and packets missing together walk the sequence from the first to the last, across
      every wrap of the 16-bit numbers. */
  lemma {:induction false} SequenceIsConserved(calls: seq<Call>)
    requires |calls| > 0 && Continuous(calls)
    ensures var rx := After(Unheard, calls);
      rx.received > 0 && rx.last == Wrap16(calls[0].sequence + (rx.received - 1) + rx.gaps)
  {
    var n := |calls|;
    var front := calls[..n - 1];
    if n > 1 {
      SequenceIsConserved(front);
      EveryCallIsCounted(front);
      var rx := After(Unheard, front);
      DeltaAdds(calls[0].sequence, rx.received - 1 + rx.gaps, rx.last,
                calls[n - 1].sequence, Delta(rx, calls[n - 1].sequence));
    }
  }

  /** Without timestamps no count ever starts over. */
  lemma {:induction false} UntimedIsContinuous(calls: seq<Call>)
    requires forall i :: 0 <= i < |calls| ==> calls[i].timestamp == 0
    ensures Continuous(calls)
  {
    if |calls| > 0 {
      UntimedIsContinuous(calls[..|calls| - 1]);
    }
  }

  // ----- what the verdicts mean -----

  /** The last number accepted and the one received, without the wrap, at most half the circle apart: a number ahead
      is received, with all between them missing; the same number is a duplicate; one behind is stale. */
  lemma VerdictExactly(rx: Rx, c: Call, last: int, number: int)
    requires rx.initialized && !StartsOver(rx, c) && rx.last == Wrap16(last) && c.sequence == Wrap16(number)
    requires -0x8000 <= number - last < 0x8000
    ensures var (t, verdict, missing) := Receive(rx, c);
      && t.initialized && t.last == Wrap16(if number > last then number else last)
      && verdict == (if number > last + 1 then Gap else if number == last + 1 then InOrder
                     else if number == last then Duplicate else Stale)
      && missing == (if number > last then number - last - 1 else 0)
      && t.received == rx.received + (if number > last then 1 else 0)
      && t.duplicates == rx.duplicates + (if number == last then 1 else 0)
      && t.stale == rx.stale + (if number < last then 1 else 0) && t.gaps == rx.gaps + missing
  {
    assert Delta(rx, c.sequence) == Wrap16(number - last);
  }

  /** The highest of some numbers. */
  function Highest(numbers: seq<int>): int
    requires |numbers| > 0
  {
    var last := numbers[|numbers| - 1];
    if |numbers| == 1 then last
    else
      var before := Highest(numbers[..|numbers| - 1]);
      if last > before then last else before
  }

  /** Each number lies within half the circle of the highest before it. */
  predicate Near(numbers: seq<int>) {
    forall i :: 0 < i < |numbers| ==> -0x8000 <= numbers[i] - Highest(numbers[..i]) < 0x8000
  }

  predicate Carries(calls: seq<Call>, numbers: seq<int>) {
    |calls| == |numbers| && forall i :: 0 <= i < |calls| ==> calls[i].sequence == Wrap16(numbers[i])
  }

  /** How many numbers went above all before them, and how many were the highest again. */
  function Advances(numbers: seq<int>): nat {
    if |numbers| == 0 then 0
    else
      var front := numbers[..|numbers| - 1];
      Advances(front) + if |front| == 0 || numbers[|front|] > Highest(front) then 1 else 0
  }

  function Repeats(numbers: seq<int>): nat {
    if |numbers| == 0 then 0
    else
      var front := numbers[..|numbers| - 1];
      Repeats(front) + if |front| > 0 && numbers[|front|] == Highest(front) then 1 else 0
  }

  /** Over a whole run in any order, with repetitions: received are the packets that went above all before them,
      duplicates the highest again, stale all others; and received and missing together are all packets from the first
      to the highest. */
  lemma {:induction false} CountsExactly(calls: seq<Call>, numbers: seq<int>)
    requires |calls| > 0 && Carries(calls, numbers) && Continuous(calls) && Near(numbers)
    ensures var rx := After(Unheard, calls);
      && rx.initialized && rx.last == Wrap16(Highest(numbers))
      && rx.received == Advances(numbers) && rx.duplicates == Repeats(numbers)
      && rx.stale == |numbers| - Advances(numbers) - Repeats(numbers)
      && rx.received + rx.gaps == Highest(numbers) - numbers[0] + 1
  {
    var n := |calls| - 1;
    if n > 0 {
      var front, earlier := calls[..n], numbers[..n];
      NearFront(numbers, n);
      CountsExactly(front, earlier);
      VerdictExactly(After(Unheard, front), calls[n], Highest(earlier), numbers[n]);
    }
  }

  lemma NearFront(numbers: seq<int>, n: nat)
    requires Near(numbers) && n <= |numbers|
    ensures Near(numbers[..n])
  {
    forall i | 0 < i < n ensures -0x8000 <= numbers[i] - Highest(numbers[..i]) < 0x8000 {
    }
    assert forall i :: 0 < i < n ==> numbers[..n][..i] == numbers[..i];
  }
}
