/** Pairing queue edges with the launch edges that answer them: one greedy pass over two sorted lists of
    times finds as many pairs as there can be. */
module EdgePairing {

  /** A queue edge and a start edge, by index. */
  datatype Pair = Pair(queue: nat, start: nat)

  predicate Sorted(times: seq<real>) {
    forall i, j :: 0 <= i < j < |times| ==> times[i] <= times[j]
  }

  /** Every edge is used at most once, and no launch comes before its queue edge. */
  predicate Pairing(pairs: seq<Pair>, queue: seq<real>, start: seq<real>) {
    && (forall k :: 0 <= k < |pairs| ==>
          pairs[k].queue < |queue| && pairs[k].start < |start| && queue[pairs[k].queue] <= start[pairs[k].start])
    && (forall k, l :: 0 <= k < l < |pairs| ==>
          pairs[k].queue != pairs[l].queue && pairs[k].start != pairs[l].start)
  }

  predicate DistinctBelow(xs: seq<nat>, n: nat) {
    && (forall k :: 0 <= k < |xs| ==> xs[k] < n)
    && (forall k, l :: 0 <= k < l < |xs| ==> xs[k] != xs[l])
  }

  function SetOf(xs: seq<nat>): set<nat> { set x | x in xs }

  lemma {:induction false} DistinctSize(xs: seq<nat>, n: nat)
    requires DistinctBelow(xs, n)
    ensures |SetOf(xs)| == |xs|
  {
    if |xs| > 0 {
      var front, last := xs[..|xs| - 1], xs[|xs| - 1];
      DistinctSize(front, n);
      assert SetOf(xs) == SetOf(front) + {last};
      assert last !in SetOf(front);
    }
  }

  function Below(n: nat): (below: set<nat>)
    ensures |below| == n
    ensures forall x: nat :: x in below <==> x < n
  {
    if n == 0 then {} else Below(n - 1) + {n - 1}
  }

  lemma SubsetSize(a: set<nat>, b: set<nat>)
    requires a <= b
    ensures |a| <= |b|
  {
    assert b == a + (b - a);
  }

  /** The pigeonhole principle. */
  lemma AtMost(xs: seq<nat>, n: nat)
    requires DistinctBelow(xs, n)
    ensures |xs| <= n
  {
    DistinctSize(xs, n);
    SubsetSize(SetOf(xs), Below(n));
  }

  /** No queue edge from a on can pair with a start edge before b. */
  predicate Blocked(queue: seq<real>, start: seq<real>, a: nat, b: nat) {
    && a <= |queue| && b <= |start|
    && forall q, s :: a <= q < |queue| && 0 <= s < b ==> start[s] < queue[q]
  }

  /** So every pair uses one of the first a queue edges or one of the start edges from b on. */
  lemma CoverBound(pairs: seq<Pair>, queue: seq<real>, start: seq<real>, a: nat, b: nat)
    requires Pairing(pairs, queue, start) && Blocked(queue, start, a, b)
    ensures |pairs| <= a + (|start| - b)
  {
    var keys := seq(|pairs|, k requires 0 <= k < |pairs| =>
      if pairs[k].queue < a then pairs[k].queue else if pairs[k].start >= b then a + (pairs[k].start - b) else 0);
    assert forall k :: 0 <= k < |pairs| && pairs[k].queue >= a ==> pairs[k].start >= b;
    AtMost(keys, a + (|start| - b));
  }

  lemma QueueBound(pairs: seq<Pair>, queue: seq<real>, start: seq<real>)
    requires Pairing(pairs, queue, start)
    ensures |pairs| <= |queue|
  {
    CoverBound(pairs, queue, start, |queue|, |start|);
  }

  /** The pairs made so far: queue edges in turn, with start edges before next. */
  predicate Matched(errors: seq<real>, pairs: seq<Pair>, queue: seq<real>, start: seq<real>, next: nat) {
    && |errors| == |pairs| && Pairing(pairs, queue, start)
    && forall k :: 0 <= k < |pairs| ==>
         && pairs[k].queue == k && pairs[k].start < next
         && errors[k] == start[pairs[k].start] - queue[k] >= 0.0
  }

  lemma OneMore(errors: seq<real>, pairs: seq<Pair>, queue: seq<real>, start: seq<real>, next: nat)
    requires Matched(errors, pairs, queue, start, next)
    requires |pairs| < |queue| && next < |start| && queue[|pairs|] <= start[next]
    ensures Matched(errors + [start[next] - queue[|pairs|]], pairs + [Pair(|pairs|, next)], queue, start, next + 1)
  {
  }

  /** Of the start edges before next, those from b on are all paired, with the queue edges from a on. */
  predicate Tight(queue: seq<real>, start: seq<real>, q: nat, next: nat, a: nat, b: nat) {
    && a <= q <= |queue| && b <= next <= |start| && q - a == next - b
    && (Sorted(queue) && Sorted(start) ==> Blocked(queue, start, a, b))
  }

  lemma PassOver(queue: seq<real>, start: seq<real>, q: nat, next: nat)
    requires q < |queue| && next < |start| && start[next] < queue[q]
    ensures Tight(queue, start, q, next + 1, q, next + 1)
  {
  }

  lemma TightIsLargest(queue: seq<real>, start: seq<real>, q: nat, next: nat, a: nat, b: nat, other: seq<Pair>)
    requires Tight(queue, start, q, next, a, b) && (q == |queue| || next == |start|)
    requires Sorted(queue) && Sorted(start) && Pairing(other, queue, start)
    ensures |other| <= q
  {
    if q < |queue| {
      CoverBound(other, queue, start, a, b);
    } else {
      QueueBound(other, queue, start);
    }
  }

  /** The report: launch errors of the pairs found, start edges passed over, queue edges left unpaired,
      and start edges after the last pair. For sorted edges no pairing has more pairs. */
  method PairEdges(queue: seq<real>, start: seq<real>)
      returns (errors: seq<real>, orphans: nat, unpaired: nat, extra: nat, ghost pairs: seq<Pair>)
    ensures |errors| + orphans + extra == |start|
    ensures unpaired + |errors| == |queue|
    ensures Matched(errors, pairs, queue, start, |start|)
    ensures Sorted(queue) && Sorted(start) ==>
      forall other :: Pairing(other, queue, start) ==> |other| <= |errors|
  {
    errors, orphans, pairs := [], 0, [];
    var next := 0;
    ghost var a, b := 0, 0;
    var q := 0;
    while q < |queue|
      invariant q == |errors| && |errors| + orphans == next
      invariant Matched(errors, pairs, queue, start, next)
      invariant Tight(queue, start, q, next, a, b)
    {
      while next < |start| && start[next] < queue[q]
        invariant |errors| + orphans == next
        invariant Matched(errors, pairs, queue, start, next)
        invariant Tight(queue, start, q, next, a, b)
      {
        PassOver(queue, start, q, next);
        orphans := orphans + 1;
        next := next + 1;
        a, b := q, next;
      }
      if next >= |start| {
        break;
      }
      OneMore(errors, pairs, queue, start, next);
      errors := errors + [start[next] - queue[q]];
      pairs := pairs + [Pair(q, next)];
      next := next + 1;
      q := q + 1;
    }
    unpaired, extra := |queue| - |errors|, |start| - next;
    if Sorted(queue) && Sorted(start) {
      forall other | Pairing(other, queue, start) ensures |other| <= |errors| {
        TightIsLargest(queue, start, q, next, a, b, other);
      }
    }
  }
}
