/** Single bits of unsigned words, by division: what &, | and << with one-bit masks mean. */
module Bits {
  import opened Words

  function Pow2(n: nat): (p: nat)
    ensures p >= 1
  {
    if n == 0 then 1 else 2 * Pow2(n - 1)
  }

  predicate Bit(x: nat, i: nat) {
    if i == 0 then x % 2 == 1 else Bit(x / 2, i - 1)
  }

  /** x | (1 << i) */
  function SetBit(x: nat, i: nat): nat { if Bit(x, i) then x else x + Pow2(i) }

  /** x & ~(1 << i) */
  function ClearBit(x: nat, i: nat): int { if Bit(x, i) then x - Pow2(i) else x }

  /** x << s in a 64-bit word */
  function ShiftLeft64(x: nat, s: nat): u64 { Wrap64(x * Pow2(s)) }

  lemma {:induction false} SetBitBits(x: nat, i: nat, j: nat)
    ensures Bit(SetBit(x, i), j) <==> i == j || Bit(x, j)
  {
    if Bit(x, i) {
    } else if i == 0 {
      assert (x + 1) / 2 == x / 2;
    } else {
      var p := Pow2(i - 1);
      assert (x + 2 * p) / 2 == x / 2 + p && (x + 2 * p) % 2 == x % 2;
      if j > 0 {
        SetBitBits(x / 2, i - 1, j - 1);
      }
    }
  }

  lemma {:induction false} SetBitFits(x: nat, i: nat, width: nat)
    requires x < Pow2(width) && i < width
    ensures SetBit(x, i) < Pow2(width)
  {
    if i > 0 && !Bit(x, i) {
      SetBitFits(x / 2, i - 1, width - 1);
      assert (x + 2 * Pow2(i - 1)) / 2 == x / 2 + Pow2(i - 1);
    }
  }

  lemma {:induction false} ClearBitBits(x: nat, i: nat, j: nat)
    ensures 0 <= ClearBit(x, i) <= x
    ensures Bit(ClearBit(x, i), j) <==> i != j && Bit(x, j)
  {
    if !Bit(x, i) {
    } else if i == 0 {
      assert (x - 1) / 2 == x / 2;
    } else {
      var p := Pow2(i - 1);
      ClearBitBits(x / 2, i - 1, if j > 0 then j - 1 else 0);
      assert (x - 2 * p) / 2 == x / 2 - p && (x - 2 * p) % 2 == x % 2;
    }
  }

  lemma {:induction false} ProductBits(x: nat, s: nat, i: nat)
    ensures Bit(x * Pow2(s), i) <==> i >= s && Bit(x, i - s)
  {
    if s > 0 {
      var y := x * Pow2(s - 1);
      assert x * Pow2(s) == 2 * y;
      assert 2 * y / 2 == y && 2 * y % 2 == 0;
      if i > 0 {
        ProductBits(x, s - 1, i - 1);
      }
    }
  }

  lemma HalfOfRemainder(x: nat, p: nat)
    requires p > 0
    ensures x % (2 * p) / 2 == x / 2 % p
    ensures x % (2 * p) % 2 == x % 2
  {
    var q, r := x / (2 * p), x % (2 * p);
    assert x == 2 * (q * p) + r;
    assert x / 2 == q * p + r / 2;
    assert 0 <= r / 2 < p;
    RemainderIs(x / 2, p, q, r / 2);
  }

  lemma RemainderIs(x: nat, p: nat, q: nat, r: nat)
    requires p > 0 && x == q * p + r && r < p
    ensures x % p == r
  {
    var q', r' := x / p, x % p;
    assert (q - q') * p == r' - r;
    if q > q' {
      AtLeastOnce(q - q', p);
    } else if q < q' {
      AtLeastOnce(q' - q, p);
    }
  }

  lemma AtLeastOnce(k: int, p: nat)
    requires k >= 1
    ensures k * p >= p
  {
  }

  lemma {:induction false} RemainderBits(x: nat, width: nat, i: nat)
    requires i < width
    ensures Bit(x % Pow2(width), i) <==> Bit(x, i)
  {
    HalfOfRemainder(x, Pow2(width - 1));
    if i > 0 {
      RemainderBits(x / 2, width - 1, i - 1);
    }
  }

  lemma Doubled(n: nat, p: nat)
    requires Pow2(n) == p
    ensures Pow2(n + 1) == 2 * p && Pow2(n + 2) == 4 * p && Pow2(n + 3) == 8 * p && Pow2(n + 4) == 16 * p
  {
    assert Pow2(n + 2) == 2 * Pow2(n + 1);
    assert Pow2(n + 3) == 2 * Pow2(n + 2);
    assert Pow2(n + 4) == 2 * Pow2(n + 3);
  }

  lemma {:induction false} HexDigits(digits: nat, p: nat)
    requires Pow2(4 * digits) == p
    ensures Pow2(4 * digits + 16) == 0x1_0000 * p
  {
    Doubled(4 * digits, p);
    Doubled(4 * digits + 4, 16 * p);
    Doubled(4 * digits + 8, 256 * p);
    Doubled(4 * digits + 12, 4096 * p);
  }

  lemma Width64(width: nat)
    requires width == 64
    ensures Pow2(width) == 0x1_0000_0000_0000_0000
  {
    HexDigits(0, 1);
    HexDigits(4, 0x1_0000);
    HexDigits(8, 0x1_0000_0000);
    HexDigits(12, 0x1_0000_0000_0000);
  }

  /** (x << s) | 1 moves every bit up by s and sets the lowest. */
  lemma PushBit(x: nat, s: nat, i: nat, width: nat)
    requires 0 < s && i < width == 64
    ensures Bit(SetBit(ShiftLeft64(x, s), 0), i) <==> i == 0 || (i >= s && Bit(x, i - s))
  {
    Width64(width);
    RemainderBits(x * Pow2(s), width, i);
    ProductBits(x, s, i);
    SetBitBits(ShiftLeft64(x, s), 0, i);
  }

  lemma SetBitFits64(x: u64, i: nat, width: nat)
    requires i < width == 64
    ensures SetBit(x, i) < 0x1_0000_0000_0000_0000
  {
    Width64(width);
    SetBitFits(x, i, width);
  }

  lemma {:induction false} HighBitsClear(x: nat, n: nat, i: nat)
    requires x < Pow2(n) && n <= i
    ensures !Bit(x, i)
  {
    if n > 0 {
      HighBitsClear(x / 2, n - 1, i - 1);
    } else if i > 0 {
      HighBitsClear(0, 0, i - 1);
    }
  }

  /** A power of two has one bit. */
  lemma {:induction false} OneBit(n: nat, i: nat)
    ensures Bit(Pow2(n), i) <==> i == n
  {
    if n > 0 && i > 0 {
      OneBit(n - 1, i - 1);
    } else if i > 0 {
      HighBitsClear(1, 1, i);
    }
  }

  /** Words with the same bits are the same. */
  lemma {:induction false} SameBits(x: nat, y: nat, width: nat)
    requires x < Pow2(width) && y < Pow2(width) && forall i :: 0 <= i < width ==> Bit(x, i) == Bit(y, i)
    ensures x == y
  {
    if width > 0 {
      assert Bit(x, 0) == Bit(y, 0);
      forall i | 0 <= i < width - 1 ensures Bit(x / 2, i) == Bit(y / 2, i) {
        assert Bit(x, i + 1) == Bit(y, i + 1);
      }
      SameBits(x / 2, y / 2, width - 1);
    }
  }

  lemma {:induction false} Pow2Grows(a: nat, b: nat)
    requires a <= b
    ensures Pow2(a) <= Pow2(b)
  {
    if a < b {
      Pow2Grows(a, b - 1);
    }
  }
}
