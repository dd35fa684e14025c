/** What the checksums are: remainders of polynomial division over two elements, with the polynomials of their
    standards. A polynomial is the number whose bits are its coefficients. */
module CrcDivision {
  import opened Words
  import opened Bits
  import opened WordXor
  import opened ShiftRegister
  import opened BitBurst
  import opened Crc

  function Maybe(b: bool, x: nat): nat { if b then x else 0 }

  /** Multiplication without carries. */
  function Times(q: nat, g: nat): nat { if q == 0 then 0 else Xor(2 * Times(q / 2, g), Maybe(q % 2 == 1, g)) }

  /** The polynomial of a bit string, first bit highest. */
  function Number(bits: BitString): nat {
    if |bits| == 0 then 0 else 2 * Number(bits[..|bits| - 1]) + Maybe(bits[|bits| - 1], 1)
  }

  /** How to read a register as a polynomial: a step is a multiplication by x, less the generator when it carries. */
  ghost predicate Reads<R(!new)>(s: Serial<R>, value: R -> nat, g: nat) {
    && s.width > 0 && value(s.m.zero) == 0
    && value(s.place(0)) == Raised(1, s.width - 1)
    && (forall a, b :: value(s.m.xor(a, b)) == Xor(value(a), value(b)))
    && (forall d :: 2 * value(d) == Xor(value(s.m.Step(d)), Maybe(s.m.carry(d), g)))
  }

  // ----- exclusive or as addition -----

  lemma Swap(a: nat, b: nat, c: nat)
    ensures Xor(Xor(a, b), c) == Xor(Xor(a, c), b)
  {
    XorAssociates(a, b, c);
    XorCommutes(b, c);
    XorAssociates(a, c, b);
  }

  lemma {:induction false} RaisedTwice(x: nat, n: nat)
    ensures Raised(2 * x, n) == 2 * Raised(x, n)
  {
    if n > 0 {
      RaisedTwice(x, n - 1);
    }
  }

  lemma AppendedBit(x: nat, b: bool, w: nat)
    ensures Raised(2 * x + Maybe(b, 1), w) == Xor(2 * Raised(x, w), Raised(Maybe(b, 1), w))
  {
    XorEven(x, Maybe(b, 1));
    XorIdentity(x);
    RaisedXor(2 * x, Maybe(b, 1), w);
    RaisedTwice(x, w);
  }

  lemma TimesMore(q: nat, k: bool, g: nat)
    ensures Times(2 * q + Maybe(k, 1), g) == Xor(2 * Times(q, g), Maybe(k, g))
  {
    if q == 0 && !k {
      XorIdentity(0);
    }
  }

  // ----- division, a bit at a time -----

  lemma FedBit<R(!new)>(s: Serial<R>, c: R, bits: BitString)
    requires |bits| > 0
    ensures s.Feed(c, bits) ==
      s.m.Step(s.m.xor(s.Feed(c, bits[..|bits| - 1]), s.Unit(bits[|bits| - 1], 0)))
  {
    var front, last := bits[..|bits| - 1], [bits[|bits| - 1]];
    assert bits == front + last;
    FeedConcat(s, c, front, last);
    assert last[1..] == [];
    var e := s.Feed(c, front);
    assert s.Feed(e, last) == s.Feed(s.m.Step(s.m.xor(e, s.Unit(last[0], 0))), last[1..]);
  }

  lemma UnitValue<R(!new)>(s: Serial<R>, value: R -> nat, g: nat, b: bool)
    requires Reads(s, value, g)
    ensures 2 * value(s.Unit(b, 0)) == Raised(Maybe(b, 1), s.width)
  {
    RaisedZero(s.width);
  }

  lemma {:induction false} RaisedZero(n: nat)
    ensures Raised(0, n) == 0
  {
    if n > 0 {
      RaisedZero(n - 1);
    }
  }

  /** One more bit of the dividend: the remainder before, twice, with the bit added, is the remainder after and at most
      one generator. */
  lemma OneMoreBit<R(!new)>(s: Serial<R>, value: R -> nat, g: nat, e: R, b: bool) returns (k: bool)
    requires Reads(s, value, g)
    ensures Xor(2 * value(e), Raised(Maybe(b, 1), s.width)) ==
      Xor(Maybe(k, g), value(s.m.Step(s.m.xor(e, s.Unit(b, 0)))))
  {
    var u := s.Unit(b, 0);
    var d := s.m.xor(e, u);
    k := s.m.carry(d);
    UnitValue(s, value, g, b);
    XorDoubled(value(e), value(u));
    assert value(d) == Xor(value(e), value(u));
    assert 2 * value(d) == Xor(value(s.m.Step(d)), Maybe(k, g));
    XorCommutes(value(s.m.Step(d)), Maybe(k, g));
  }

  lemma Rearranged(a: nat, c: nat, t: nat, v: nat, bit: nat, kg: nat, next: nat)
    requires Xor(a, c) == Xor(t, v) && Xor(2 * v, bit) == Xor(kg, next)
    ensures Xor(Xor(2 * a, bit), 2 * c) == Xor(Xor(2 * t, kg), next)
  {
    Swap(2 * a, bit, 2 * c);
    XorDoubled(a, c);
    XorDoubled(t, v);
    XorAssociates(2 * t, 2 * v, bit);
    XorAssociates(2 * t, kg, next);
  }

  /** The register holds a remainder: bits followed by as many zeros as the register is wide, plus the start value
      followed by as many zeros as there are bits, less a multiple of the generator. */
  predicate Remains(bits: BitString, w: nat, start: nat, q: nat, g: nat, r: nat) {
    Xor(Raised(Number(bits), w), Raised(start, |bits|)) == Xor(Times(q, g), r)
  }

  lemma RemainsNext(bits: BitString, w: nat, start: nat, q: nat, g: nat, r: nat, k: bool, next: nat)
    requires |bits| > 0 && Remains(bits[..|bits| - 1], w, start, q, g, r)
    requires Xor(2 * r, Raised(Maybe(bits[|bits| - 1], 1), w)) == Xor(Maybe(k, g), next)
    ensures Remains(bits, w, start, 2 * q + Maybe(k, 1), g, next)
  {
    var front, b := bits[..|bits| - 1], bits[|bits| - 1];
    AppendedBit(Number(front), b, w);
    TimesMore(q, k, g);
    Rearranged(Raised(Number(front), w), Raised(start, |front|), Times(q, g), r, Raised(Maybe(b, 1), w), Maybe(k, g),
               next);
  }

  lemma NothingRemains(bits: BitString, w: nat, start: nat, g: nat)
    requires |bits| == 0
    ensures Remains(bits, w, start, 0, g, start)
  {
    RaisedZero(w);
  }

  lemma FeedNext<R(!new)>(s: Serial<R>, value: R -> nat, g: nat, c: R, bits: BitString, q: nat) returns (p: nat)
    requires Reads(s, value, g) && |bits| > 0
    requires var front := bits[..|bits| - 1]; Remains(front, s.width, value(c), q, g, value(s.Feed(c, front)))
    ensures Remains(bits, s.width, value(c), p, g, value(s.Feed(c, bits)))
  {
    var e := s.Feed(c, bits[..|bits| - 1]);
    var k := OneMoreBit(s, value, g, e, bits[|bits| - 1]);
    FedBit(s, c, bits);
    p := 2 * q + Maybe(k, 1);
    RemainsNext(bits, s.width, value(c), q, g, value(e), k, value(s.Feed(c, bits)));
  }

  lemma {:induction false} FeedDivides<R(!new)>(s: Serial<R>, value: R -> nat, g: nat, c: R, bits: BitString)
    returns (q: nat)
    requires Reads(s, value, g)
    ensures Remains(bits, s.width, value(c), q, g, value(s.Feed(c, bits)))
  {
    if |bits| == 0 {
      q := 0;
      NothingRemains(bits, s.width, value(c), g);
    } else {
      q := FeedDivides(s, value, g, c, bits[..|bits| - 1]);
      q := FeedNext(s, value, g, c, bits, q);
    }
  }

  /** Only this remainder is below the degree of the generator. */
  lemma OnlyRemainder(bits: BitString, w: nat, start: nat, q: nat, g: nat, r: nat)
    requires Remains(bits, w, start, q, g, r) && r < Pow2(w) && Pow2(w) <= g < Pow2(w + 1)
    ensures forall p: nat, t: nat :: Remains(bits, w, start, p, g, t) && t < Pow2(w) ==> t == r
  {
    forall p: nat, t: nat | Remains(bits, w, start, p, g, t) && t < Pow2(w) ensures t == r {
      OneRemainder(p, t, q, r, g, w);
    }
  }

  // ----- there is only one remainder -----

  lemma {:induction false} HighStays(x: nat, y: nat, m: nat)
    requires x >= Pow2(m) && y < Pow2(m)
    ensures Xor(x, y) >= Pow2(m)
  {
    XorHalves(x, y);
    if m > 0 {
      HighStays(x / 2, y / 2, m - 1);
    } else {
      XorIdentity(x);
    }
  }

  /** A nonzero multiple of the generator has at least its degree. */
  lemma {:induction false} MultipleIsHigh(q: nat, g: nat, w: nat)
    requires q > 0 && Pow2(w) <= g < Pow2(w + 1)
    ensures Times(q, g) >= Pow2(w)
  {
    if q == 1 {
      assert Times(q / 2, g) == 0;
      XorCommutes(0, g);
      XorIdentity(g);
    } else {
      MultipleIsHigh(q / 2, g, w);
      HighStays(2 * Times(q / 2, g), Maybe(q % 2 == 1, g), w + 1);
    }
  }

  lemma {:induction false} TimesAdds(p: nat, q: nat, g: nat)
    ensures Xor(Times(p, g), Times(q, g)) == Times(Xor(p, q), g)
    decreases p + q
  {
    if p + q == 0 {
    } else {
      TimesAdds(p / 2, q / 2, g);
      var a, b := Maybe(p % 2 == 1, g), Maybe(q % 2 == 1, g);
      var x, y := Times(p / 2, g), Times(q / 2, g);
      TimesMore(p / 2, p % 2 == 1, g);
      TimesMore(q / 2, q % 2 == 1, g);
      XorHalves(p, q);
      TimesMore(Xor(p / 2, q / 2), p % 2 != q % 2, g);
      Interchange(2 * x, a, 2 * y, b);
      XorDoubled(x, y);
      XorInverse(g, g);
      XorIdentity(g);
      XorCommutes(0, g);
      XorIdentity(0);
    }
  }

  lemma Interchange(a: nat, b: nat, c: nat, d: nat)
    ensures Xor(Xor(a, b), Xor(c, d)) == Xor(Xor(a, c), Xor(b, d))
  {
    XorAssociates(Xor(a, b), c, d);
    Swap(a, b, c);
    XorAssociates(Xor(a, c), b, d);
  }

  /** So a remainder is determined by the dividend and the generator. */
  lemma OneRemainder(p: nat, r: nat, q: nat, t: nat, g: nat, w: nat)
    requires Xor(Times(p, g), r) == Xor(Times(q, g), t) && r < Pow2(w) && t < Pow2(w) && Pow2(w) <= g < Pow2(w + 1)
    ensures r == t
  {
    Interchange(Times(p, g), r, Times(q, g), t);
    XorInverse(Xor(Times(p, g), r), Xor(Times(q, g), t));
    TimesAdds(p, q, g);
    var d := Xor(p, q);
    XorInverse(Times(d, g), Xor(r, t));
    XorFits(r, t, w);
    if d > 0 {
      MultipleIsHigh(d, g, w);
      assert false;
    }
    XorInverse(r, t);
  }

  // ----- the link's CRC-16 -----

  const LINK_GENERATOR: nat := 0x1_1021

  function AsIs(c: u16): nat { c }

  lemma {:induction false} CancelTwice(y: nat, h: nat, p: nat)
    ensures Xor(Xor(y, p), Xor(h, p)) == Xor(y, h)
  {
    Interchange(y, p, h, p);
    XorInverse(p, p);
    XorIdentity(Xor(y, h));
  }

  lemma RaisedIsPower(n: nat)
    ensures Raised(1, n) == Pow2(n)
  {
    if n > 0 {
      RaisedIsPower(n - 1);
    }
  }

  lemma LinkTop(n: nat)
    requires n == 16
    ensures Raised(1, n) == 0x1_0000 && Raised(1, n - 1) == 0x8000
    ensures Xor(Raised(1, n), 0x1021) == LINK_GENERATOR
  {
    Width16(n);
    RaisedIsPower(n);
    XorDisjoint(1, 0x1021, n);
  }

  lemma LinkCarries(low: nat, n: nat)
    requires n == 16 && low < 0x1_0000
    ensures 0x1_0000 + low == Xor(Xor(low, 0x1021), LINK_GENERATOR)
  {
    LinkTop(n);
    Width16(n);
    CancelTwice(low, Raised(1, n), 0x1021);
    XorDisjoint(1, low, n);
    XorCommutes(low, Raised(1, n));
  }

  lemma LinkParts(d: u16)
    ensures Carry16(d) ==> Link().Step(d) == Xor(Shift16(d), 0x1021)
    ensures !Carry16(d) ==> Link().Step(d) == Shift16(d)
  {
  }

  lemma ShiftParts(d: u16)
    ensures Shift16(d) == if Carry16(d) then 2 * d - 0x1_0000 else 2 * d
  {
  }

  lemma LinkStep(d: u16, n: nat)
    requires n == 16
    ensures 2 * d == Xor(Link().Step(d), Maybe(Carry16(d), LINK_GENERATOR))
  {
    LinkParts(d);
    ShiftParts(d);
    if Carry16(d) {
      LinkCarries(2 * d - 0x1_0000, n);
    } else {
      XorIdentity(2 * d);
    }
  }

  lemma LinkReads()
    ensures Reads(LinkSerial(), AsIs, LINK_GENERATOR)
  {
    LinkTop(16);
    PlacesOrdered16(0, 16);
    Width16(16);
    forall d: u16 ensures 2 * AsIs(d) == Xor(AsIs(Link().Step(d)), Maybe(Carry16(d), LINK_GENERATOR)) {
      LinkStep(d, 16);
    }
  }

  /** The link checksum is the remainder of the data, followed by sixteen zeros and with its first sixteen bits
      complemented, divided by x^16 + x^12 + x^5 + 1; and nothing else below x^16 is. */
  lemma Crc16IsRemainder(data: Bytes) returns (q: nat)
    ensures Remains(LinkBits(data), 16, 0xffff, q, LINK_GENERATOR, Crc16(data))
    ensures forall p: nat, r: u16 :: Remains(LinkBits(data), 16, 0xffff, p, LINK_GENERATOR, r) ==> r == Crc16(data)
  {
    q := LinkRemainder(data, 16);
  }

  lemma LinkRemainder(data: Bytes, n: nat) returns (q: nat)
    requires n == 16
    ensures Remains(LinkBits(data), n, 0xffff, q, LINK_GENERATOR, Crc16(data))
    ensures forall p: nat, r: u16 :: Remains(LinkBits(data), n, 0xffff, p, LINK_GENERATOR, r) ==> r == Crc16(data)
  {
    LinkReads();
    LinkOrdered();
    LinkInjectsBits();
    FromIsFeed(LinkSerial(), 0xffff, data);
    q := FeedDivides(LinkSerial(), AsIs, LINK_GENERATOR, 0xffff, LinkBits(data));
    Width16(n);
    OnlyRemainder(LinkBits(data), n, 0xffff, q, LINK_GENERATOR, Crc16(data));
  }

  // ----- the record's CRC-32 -----

  const RECORD_GENERATOR: nat := 0x1_04c1_1db7

  /** The low n bits in reverse order: the register holds its polynomial back to front. */
  function Mirror(c: nat, n: nat): nat {
    if n == 0 then 0 else Raised(c % 2, n - 1) + Mirror(c / 2, n - 1)
  }

  lemma {:induction false} MirrorFits(c: nat, n: nat)
    ensures Mirror(c, n) < Pow2(n)
  {
    if n > 0 {
      MirrorFits(c / 2, n - 1);
      RaisedIsPower(n - 1);
      RaisedZero(n - 1);
    }
  }

  lemma MirrorParts(c: nat, n: nat)
    requires n > 0
    ensures Mirror(c, n) == Xor(Raised(c % 2, n - 1), Mirror(c / 2, n - 1))
  {
    MirrorFits(c / 2, n - 1);
    XorDisjoint(c % 2, Mirror(c / 2, n - 1), n - 1);
  }

  lemma {:induction false} MirrorAdds(a: nat, b: nat, n: nat)
    ensures Mirror(Xor(a, b), n) == Xor(Mirror(a, n), Mirror(b, n))
  {
    if n == 0 {
      XorIdentity(0);
    } else {
      MirrorParts(a, n);
      MirrorParts(b, n);
      MirrorParts(Xor(a, b), n);
      XorHalves(a, b);
      MirrorAdds(a / 2, b / 2, n - 1);
      RaisedXor(a % 2, b % 2, n - 1);
      BitXor(a % 2, b % 2);
      Interchange(Raised(a % 2, n - 1), Mirror(a / 2, n - 1), Raised(b % 2, n - 1), Mirror(b / 2, n - 1));
    }
  }

  lemma BitXor(a: nat, b: nat)
    requires a < 2 && b < 2
    ensures Xor(a, b) == if a == b then 0 else 1
  {
    XorIdentity(a);
    XorInverse(a, b);
    XorCommutes(a, b);
    XorIdentity(b);
  }

  /** Words with room above are mirrored one place higher. */
  lemma {:induction false} MirrorHigher(x: nat, n: nat)
    requires x < Pow2(n)
    ensures Mirror(x, n + 1) == 2 * Mirror(x, n)
  {
    if n > 0 {
      MirrorHigher(x / 2, n - 1);
    } else {
      assert Mirror(0, 1) == Raised(0, 0) + Mirror(0, 0);
    }
  }

  /** How to read the record register, of this width. */
  function Mirrored(n: nat): u32 -> nat { (c: u32) => Mirror(c, n) }

  lemma {:induction false} RaisedSum(a: nat, b: nat, n: nat)
    ensures Raised(a + b, n) == Raised(a, n) + Raised(b, n)
  {
    if n > 0 {
      RaisedSum(a, b, n - 1);
    }
  }

  lemma LowestBit(h: nat, b: nat, n: nat)
    requires b < 2
    ensures Mirror(2 * h + b, n + 1) == Raised(b, n) + Mirror(h, n)
  {
  }

  lemma TwoBits(h: nat, b1: nat, b0: nat, n: nat)
    requires b1 < 2 && b0 < 2
    ensures Mirror(4 * h + 2 * b1 + b0, n + 2) == Raised(2 * b0 + b1, n) + Mirror(h, n)
  {
    LowestBit(2 * h + b1, b0, n + 1);
    LowestBit(h, b1, n);
    RaisedTwice(b0, n);
    RaisedSum(2 * b0, b1, n);
  }

  /** The lowest hexadecimal digit comes out on top, its bits reversed. */
  lemma HexDigit(c: nat, h: nat, b3: nat, b2: nat, b1: nat, b0: nat, n: nat, rest: nat)
    requires b3 < 2 && b2 < 2 && b1 < 2 && b0 < 2 && c == 16 * h + 8 * b3 + 4 * b2 + 2 * b1 + b0
    requires Mirror(h, n) == rest
    ensures Mirror(c, n + 4) == Raised(8 * b0 + 4 * b1 + 2 * b2 + b3, n) + rest
  {
    TwoBits(4 * h + 2 * b3 + b2, b1, b0, n + 2);
    TwoBits(h, b3, b2, n);
    RaisedTwice(2 * b0 + b1, n);
    RaisedTwice(2 * (2 * b0 + b1), n);
    RaisedSum(4 * (2 * b0 + b1), 2 * b2 + b3, n);
  }

  lemma {:induction false} RaisedBy(x: nat, n: nat, p: nat)
    requires Raised(1, n) == p
    ensures Raised(x, n) == x * p
  {
    if x == 0 {
      RaisedZero(n);
    } else {
      RaisedSum(x - 1, 1, n);
      RaisedBy(x - 1, n, p);
      assert x * p == (x - 1) * p + p;
    }
  }

  /** The same with the place of the digit as a number, and the place after it. */
  lemma NextDigit(c: nat, h: nat, b3: nat, b2: nat, b1: nat, b0: nat, n: nat, rest: nat, p: nat)
    requires b3 < 2 && b2 < 2 && b1 < 2 && b0 < 2 && c == 16 * h + 8 * b3 + 4 * b2 + 2 * b1 + b0
    requires Mirror(h, n) == rest && Raised(1, n) == p
    ensures Mirror(c, n + 4) == (8 * b0 + 4 * b1 + 2 * b2 + b3) * p + rest && Raised(1, n + 4) == 16 * p
  {
    HexDigit(c, h, b3, b2, b1, b0, n, rest);
    RaisedBy(8 * b0 + 4 * b1 + 2 * b2 + b3, n, p);
    assert Raised(1, n + 1) == 2 * p;
    assert Raised(1, n + 2) == 4 * p;
    assert Raised(1, n + 3) == 8 * p;
  }

  lemma MirroredPolynomial(c: nat, n: nat)
    requires c == 0xedb8_8320 && n == 0
    ensures Mirror(c, n + 32) == 0x04c1_1db7
  {
    var h1, h2, h3, h4 := c / 0x10, c / 0x100, c / 0x1000, c / 0x1_0000;
    var h5, h6, h7 := c / 0x10_0000, c / 0x100_0000, c / 0x1000_0000;
    NextDigit(h7, n, 1, 1, 1, 0, n, 0, 1);
    NextDigit(h6, h7, 1, 1, 0, 1, n + 4, 0x7, 0x10);
    NextDigit(h5, h6, 1, 0, 1, 1, n + 8, 0xb7, 0x100);
    NextDigit(h4, h5, 1, 0, 0, 0, n + 12, 0xdb7, 0x1000);
    NextDigit(h3, h4, 1, 0, 0, 0, n + 16, 0x1db7, 0x1_0000);
    NextDigit(h2, h3, 0, 0, 1, 1, n + 20, 0x1_1db7, 0x10_0000);
    NextDigit(h1, h2, 0, 0, 1, 0, n + 24, 0xc1_1db7, 0x100_0000);
    NextDigit(c, h1, 0, 0, 0, 0, n + 28, 0x4c1_1db7, 0x1000_0000);
  }

  lemma TopAdded(m: nat, n: nat)
    requires n == 32 && m < 0x1_0000_0000
    ensures Xor(Raised(1, n), m) == 0x1_0000_0000 + m
  {
    Width32(n);
    RaisedIsPower(n);
    XorDisjoint(1, m, n);
  }

  lemma MirroredAt(c: nat, n: nat, m: nat)
    requires m + 32 == n && c == 0xedb8_8320 && m == 0
    ensures Mirror(c, n) == 0x04c1_1db7
  {
    MirroredPolynomial(c, m);
  }

  lemma RecordTop(n: nat, poly: nat)
    requires n == 32 && poly == 0xedb8_8320
    ensures Xor(Raised(1, n), Mirror(poly, n)) == RECORD_GENERATOR
  {
    MirroredAt(poly, n, n - 32);
    TopAdded(Mirror(poly, n), n);
  }

  lemma Lowered(d: u32, n: nat)
    requires n == 32
    ensures 2 * Mirror(d, n) == Xor(Raised(d % 2, n), Mirror(d / 2, n))
  {
    Width32(n);
    MirrorParts(d, n);
    MirrorHigher(d / 2, n - 1);
    XorDoubled(Raised(d % 2, n - 1), Mirror(d / 2, n - 1));
  }

  lemma Reduced(m: nat, p: nat, n: nat)
    requires Xor(Raised(1, n), p) == RECORD_GENERATOR
    ensures Xor(Raised(1, n), m) == Xor(Xor(m, p), RECORD_GENERATOR)
  {
    CancelTwice(m, Raised(1, n), p);
    XorCommutes(m, Raised(1, n));
  }

  lemma RecordCarries(d: u32, n: nat, poly: u32)
    requires n == 32 && poly == 0xedb8_8320 && d % 2 == 1
    ensures Xor(Raised(d % 2, n), Mirror(d / 2, n)) == Xor(Mirror(Xor(d / 2, poly), n), RECORD_GENERATOR)
  {
    RecordTop(n, poly);
    MirrorAdds(d / 2, poly, n);
    Reduced(Mirror(d / 2, n), Mirror(poly, n), n);
  }

  lemma StepParts(d: u32, poly: u32)
    requires poly == 0xedb8_8320
    ensures Record().Step(d) == if d % 2 == 1 then Xor(d / 2, poly) else d / 2
  {
  }

  lemma RecordStep(d: u32, n: nat, poly: u32)
    requires n == 32 && poly == 0xedb8_8320
    ensures 2 * Mirror(d, n) == Xor(Mirror(Record().Step(d), n), Maybe(Carry32(d), RECORD_GENERATOR))
  {
    Lowered(d, n);
    StepParts(d, poly);
    if d % 2 == 1 {
      RecordCarries(d, n, poly);
    } else {
      RaisedZero(n);
      XorCommutes(0, Mirror(d / 2, n));
    }
  }

  lemma {:induction false} MirroredZero(n: nat)
    ensures Mirror(0, n) == 0
  {
    if n > 0 {
      MirroredZero(n - 1);
      RaisedZero(n - 1);
    }
  }

  lemma RecordReads(n: nat)
    requires n == 32
    ensures Reads(RecordSerial(), Mirrored(n), RECORD_GENERATOR)
  {
    var value := Mirrored(n);
    MirroredZero(n);
    MirroredZero(n - 1);
    assert Mirror(1, n) == Raised(1, n - 1) + Mirror(0, n - 1);
    forall a: u32, b: u32 ensures value(Xor32(a, b)) == Xor(value(a), value(b)) {
      MirrorAdds(a, b, n);
    }
    forall d: u32 ensures 2 * value(d) == Xor(value(Record().Step(d)), Maybe(Carry32(d), RECORD_GENERATOR)) {
      RecordStep(d, n, Record().poly);
    }
  }

  lemma RecordFed(data: Bytes)
    ensures RecordSerial().Feed(MAX_U32, RecordBits(data)) == MAX_U32 - Crc32(data)
  {
    RecordOrdered();
    RecordInjectsBits();
    FromIsFeed(RecordSerial(), MAX_U32, data);
  }

  lemma RecordDivides(data: Bytes, width: nat) returns (q: nat)
    requires width == RecordSerial().width
    ensures Remains(RecordBits(data), width, Mirrored(width)(MAX_U32), q, RECORD_GENERATOR,
                    Mirrored(width)(MAX_U32 - Crc32(data)))
  {
    RecordReads(width);
    RecordFed(data);
    q := FeedDivides(RecordSerial(), Mirrored(width), RECORD_GENERATOR, MAX_U32, RecordBits(data));
  }

  lemma RecordOnly(bits: BitString, width: nat, start: nat, q: nat, r: nat)
    requires width == 32 && Remains(bits, width, start, q, RECORD_GENERATOR, r) && r < Pow2(width)
    ensures forall p: nat, t: nat :: Remains(bits, width, start, p, RECORD_GENERATOR, t) && t < Pow2(width) ==> t == r
  {
    Width32(width);
    OnlyRemainder(bits, width, start, q, RECORD_GENERATOR, r);
  }

  /** The record checksum, complemented and read back to front, is the remainder of the data, low bit of each byte
      first, followed by thirty-two zeros and with its first thirty-two bits complemented, divided by the generator of
      section 3.2.9 of IEEE 802.3; and nothing else below x^32 is. */
  lemma Crc32IsRemainder(data: Bytes, width: nat) returns (q: nat)
    requires width == 32
    ensures var ones, r := Mirrored(width)(MAX_U32), Mirrored(width)(MAX_U32 - Crc32(data));
      && Remains(RecordBits(data), width, ones, q, RECORD_GENERATOR, r)
      && forall p: nat, t: nat :: Remains(RecordBits(data), width, ones, p, RECORD_GENERATOR, t) && t < Pow2(width)
           ==> t == r
  {
    q := RecordDivides(data, width);
    MirrorFits(MAX_U32 - Crc32(data), width);
    RecordOnly(RecordBits(data), width, Mirrored(width)(MAX_U32), q, Mirrored(width)(MAX_U32 - Crc32(data)));
  }
}
