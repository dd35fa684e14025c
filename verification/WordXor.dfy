/** Exclusive or of machine words, bit by bit, and the laws the checksums rest on. */
module WordXor {
  import opened Words
  import opened Bits

  function Xor(a: nat, b: nat): (r: nat)
    decreases a + b
  {
    if a == 0 && b == 0 then 0 else 2 * Xor(a / 2, b / 2) + (if a % 2 == b % 2 then 0 else 1)
  }

  lemma XorHalves(a: nat, b: nat)
    ensures Xor(a, b) / 2 == Xor(a / 2, b / 2)
    ensures Xor(a, b) % 2 == if a % 2 == b % 2 then 0 else 1
  {
  }

  /** Bit i of the result is set exactly when it is set in one operand only. */
  lemma {:induction false} XorBits(a: nat, b: nat, i: nat)
    ensures Bit(Xor(a, b), i) <==> Bit(a, i) != Bit(b, i)
  {
    XorHalves(a, b);
    if i > 0 {
      XorBits(a / 2, b / 2, i - 1);
    }
  }

  lemma {:induction false} XorCommutes(a: nat, b: nat)
    ensures Xor(a, b) == Xor(b, a)
    decreases a + b
  {
    if a + b > 0 {
      XorCommutes(a / 2, b / 2);
    }
  }

  lemma {:induction false} XorAssociates(a: nat, b: nat, c: nat)
    ensures Xor(Xor(a, b), c) == Xor(a, Xor(b, c))
    decreases a + b + c
  {
    if a + b + c > 0 {
      XorAssociates(a / 2, b / 2, c / 2);
      XorHalves(a, b);
      XorHalves(b, c);
      XorHalves(Xor(a, b), c);
      XorHalves(a, Xor(b, c));
    }
  }

  lemma {:induction false} XorIdentity(a: nat)
    ensures Xor(a, 0) == a
  {
    if a > 0 {
      XorIdentity(a / 2);
    }
  }

  lemma {:induction false} XorInverse(a: nat, b: nat)
    ensures Xor(a, b) == 0 <==> a == b
    decreases a + b
  {
    if a + b > 0 {
      XorInverse(a / 2, b / 2);
    }
  }

  lemma XorTwice(a: nat, b: nat)
    ensures Xor(a, Xor(a, b)) == b
  {
    XorAssociates(a, a, b);
    XorInverse(a, a);
    XorCommutes(0, b);
    XorIdentity(b);
  }

  lemma {:induction false} XorFits(a: nat, b: nat, width: nat)
    requires a < Pow2(width) && b < Pow2(width)
    ensures Xor(a, b) < Pow2(width)
  {
    if width > 0 {
      XorFits(a / 2, b / 2, width - 1);
    }
  }

  lemma {:induction false} XorRemainder(a: nat, b: nat, width: nat)
    ensures Xor(a % Pow2(width), b % Pow2(width)) == Xor(a, b) % Pow2(width)
    decreases width
  {
    if width > 0 {
      var p := Pow2(width - 1);
      HalfOfRemainder(a, p);
      HalfOfRemainder(b, p);
      HalfOfRemainder(Xor(a, b), p);
      XorHalves(a, b);
      XorHalves(a % (2 * p), b % (2 * p));
      XorRemainder(a / 2, b / 2, width - 1);
    }
  }

  lemma XorDoubled(a: nat, b: nat)
    ensures Xor(2 * a, 2 * b) == 2 * Xor(a, b)
  {
  }

  lemma {:induction false} TopBit(c: nat, n: nat)
    requires c < 2 * Pow2(n)
    ensures Bit(c, n) <==> c >= Pow2(n)
  {
    if n > 0 {
      TopBit(c / 2, n - 1);
    }
  }

  lemma Width16(width: nat)
    requires width == 16
    ensures Pow2(width) == 0x1_0000
  {
    HexDigits(0, 1);
  }

  lemma Width32(width: nat)
    requires width == 32
    ensures Pow2(width) == 0x1_0000_0000
  {
    HexDigits(0, 1);
    HexDigits(4, 0x1_0000);
  }

  function Xor16(a: u16, b: u16): u16 {
    Width16(16); XorFits(a, b, 16);
    Xor(a, b)
  }

  function Xor32(a: u32, b: u32): u32 {
    Width32(32); XorFits(a, b, 32);
    Xor(a, b)
  }
}
