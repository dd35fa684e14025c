/** Multiples of a period: rounding up to one, and how far apart two of them are. */
module Multiples {

  /** Rounding up to a multiple. */
  lemma RoundUp(x: nat, p: nat) returns (k: nat)
    requires p > 0
    ensures k == (x + p - 1) / p
    ensures x <= k * p < x + p
  {
    k := (x + p - 1) / p;
    DivisionBounds(x + p - 1, p);
  }

  lemma DivisionBounds(y: nat, p: nat)
    requires p > 0
    ensures y / p * p <= y < y / p * p + p
  {
  }

  lemma Spread(j: int, k: int, p: nat)
    requires j > k
    ensures j * p >= k * p + p
  {
    assert j * p == k * p + (j - k) * p;
    AtLeastOne(j - k, p);
  }

  lemma Rises(j: int, k: int, p: nat)
    requires j <= k
    ensures j * p <= k * p
  {
    if j < k {
      Spread(k, j, p);
    }
  }

  lemma AtLeastOne(n: int, p: nat)
    requires n >= 1
    ensures n * p >= p
  {
  }
}
