/** The exception to the link's burst detection. The register sends its high byte out first, but the
    trailer is stored low byte first, so damage that takes in the last payload byte and the first
    trailer byte can pass: it does, in every frame, for one pattern. */
module AudioLinkTrailer {
  import opened Words
  import opened Bits
  import opened WordXor
  import opened ShiftRegister
  import opened Crc
  import opened AudioLink

  const LAST: nat := 95
  const PAYLOAD_FLIP: Byte := 0x89
  const TRAILER_FLIP: Byte := 0xa1

  function FlipByte(b: Byte, flip: Byte, n: nat): Byte
    requires n == 8
  {
    Octet(n); XorFits(b, flip, n);
    Xor(b, flip)
  }

  lemma FirstTap()
    ensures Xor(0x1200, 0x1021) == 0x221
  {
    assert Xor(0x1, 0x1) == 0x0;
    assert Xor(0x2, 0x2) == 0x0;
    assert Xor(0x4, 0x4) == 0x0;
    assert Xor(0x9, 0x8) == 0x1;
    assert Xor(0x12, 0x10) == 0x2;
    assert Xor(0x24, 0x20) == 0x4;
    assert Xor(0x48, 0x40) == 0x8;
    assert Xor(0x90, 0x81) == 0x11;
    assert Xor(0x120, 0x102) == 0x22;
    assert Xor(0x240, 0x204) == 0x44;
    assert Xor(0x480, 0x408) == 0x88;
    assert Xor(0x900, 0x810) == 0x110;
    assert Xor(0x1200, 0x1021) == 0x221;
  }

  lemma LastTap()
    ensures Xor(0x1080, 0x1021) == 0xa1
  {
    assert Xor(0x1, 0x1) == 0x0;
    assert Xor(0x2, 0x2) == 0x0;
    assert Xor(0x4, 0x4) == 0x0;
    assert Xor(0x8, 0x8) == 0x0;
    assert Xor(0x10, 0x10) == 0x0;
    assert Xor(0x21, 0x20) == 0x1;
    assert Xor(0x42, 0x40) == 0x2;
    assert Xor(0x84, 0x81) == 0x5;
    assert Xor(0x108, 0x102) == 0xa;
    assert Xor(0x210, 0x204) == 0x14;
    assert Xor(0x420, 0x408) == 0x28;
    assert Xor(0x840, 0x810) == 0x50;
    assert Xor(0x1080, 0x1021) == 0xa1;
  }

  /** The two taps, for operands that are not literals. */
  lemma Taps(first: nat, last: nat, poly: nat)
    requires first == 0x1200 && last == 0x1080 && poly == 0x1021
    ensures Xor(first, poly) == 0x221 && Xor(last, poly) == 0xa1
  {
    FirstTap();
    LastTap();
  }

  lemma CarryStep(c: u16, poly: nat, next: u16)
    requires Carry16(c) && poly == 0x1021 && Xor(Shift16(c), poly) == next
    ensures Link().Step(c) == next
  {
  }

  lemma FlipEnds(first: u16, last: u16, poly: nat)
    requires first == 0x8900 && last == 0x8840 && poly == 0x1021
    ensures Link().Step(first) == 0x221 && Link().Step(last) == 0xa1
  {
    Taps(Shift16(first), Shift16(last), poly);
    CarryStep(first, poly, 0x221);
    CarryStep(last, poly, 0xa1);
  }

  lemma FlipSteps(n: nat)
    requires n == 6
    ensures Link().Steps(0x8900, n + 2) == TRAILER_FLIP
  {
    var m := Link();
    FlipEnds(0x8900, 0x8840, m.poly);
    FlipMiddle(m, n);
    assert m.Steps(0x8900, n + 2) == m.Step(m.Steps(0x8900, n + 1));
  }

  /** After the first step nothing falls out until the last. */
  lemma FlipMiddle(m: Register<u16>, n: nat)
    requires n == 6 && m == Link() && m.Step(0x8900) == 0x221
    ensures m.Steps(0x8900, n + 1) == 0x8840
  {
    StepFirst(m, 0x8900, n);
    Doubled(0, 1);
    Doubled(2, 4);
    ShiftOut16(0x221, n);
  }

  lemma FlipDelta(b: Byte, c: Byte, n: nat)
    requires n == 8 && Xor(b, c) == PAYLOAD_FLIP
    ensures Xor16(Inject16(b), Inject16(c)) == 0x8900
  {
    RaisedXor(b, c, n);
    RaisedByte(b, n);
    RaisedByte(c, n);
    RaisedByte(PAYLOAD_FLIP, n);
  }

  lemma LinkDifference(c: u16, a: Byte, b: Byte, delta: u16)
    requires Xor16(Inject16(a), Inject16(b)) == delta
    ensures Xor16(Link().Absorb(c, a), Link().Absorb(c, b)) == Link().Steps(delta, 8)
  {
    LinkGroup();
    LinkLinear();
    Difference(Link(), c, c, a, b);
    assert Link().xor(c, c) == 0;
    FirstDelta(Link(), delta);
  }

  function Drop(x: nat, n: nat): nat {
    if n == 0 then x else Drop(x / 2, n - 1)
  }

  lemma DropByte(x: nat, n: nat)
    requires n == 8
    ensures Drop(x, n) == x / 0x100
  {
    assert Drop(x, n) == Drop(x / 2 / 2, n - 2) && x / 2 / 2 == x / 4;
    assert Drop(x / 4, n - 2) == Drop(x / 4 / 2 / 2, n - 4) && x / 4 / 2 / 2 == x / 16;
    assert Drop(x / 16, n - 4) == Drop(x / 16 / 2 / 2, n - 6) && x / 16 / 2 / 2 == x / 64;
    assert Drop(x / 64, n - 6) == Drop(x / 64 / 2 / 2, n - 8) && x / 64 / 2 / 2 == x / 256;
  }

  lemma {:induction false} SmallDifference(x: nat, y: nat, n: nat)
    requires Xor(x, y) < Pow2(n)
    ensures Drop(x, n) == Drop(y, n)
  {
    if n == 0 {
      XorInverse(x, y);
    } else {
      XorHalves(x, y);
      SmallDifference(x / 2, y / 2, n - 1);
    }
  }

  /** Flipping the last covered byte by 0x89 flips only the low byte of the checksum, by 0xa1. */
  lemma ChecksumFlips(head: Bytes, b: Byte)
    ensures Xor(Crc16(head + [b]), Crc16(head + [FlipByte(b, PAYLOAD_FLIP, 8)])) == TRAILER_FLIP
    ensures Crc16(head + [b]) / 0x100 == Crc16(head + [FlipByte(b, PAYLOAD_FLIP, 8)]) / 0x100
  {
    var c := FlipByte(b, PAYLOAD_FLIP, 8);
    XorTwice(b, PAYLOAD_FLIP);
    FlipDelta(b, c, 8);
    LinkDifference(Link().From(0xffff, head), b, c, 0x8900);
    FlipSteps(6);
    AbsorbLast(head, b);
    AbsorbLast(head, c);
    Octet(8);
    SmallDifference(Crc16(head + [b]), Crc16(head + [c]), 8);
    DropByte(Crc16(head + [b]), 8);
    DropByte(Crc16(head + [c]), 8);
  }

  lemma AbsorbLast(head: Bytes, b: Byte)
    ensures Crc16(head + [b]) == Link().Absorb(Link().From(0xffff, head), b)
  {
    assert (head + [b])[..|head|] == head;
  }

  /** The one pattern, applied to a frame. */
  function Straddle(wire: Bytes): Bytes
    requires |wire| == FRAME_BYTES
  {
    wire[LAST := FlipByte(wire[LAST], PAYLOAD_FLIP, 8)][LAST + 1 := FlipByte(wire[LAST + 1], TRAILER_FLIP, 8)]
  }

  lemma TrailerWord(low: Byte, high: Byte)
    ensures FromLE([low, high]) == low + 0x100 * high
  {
    assert [low, high][1..] == [high] && [high][1..] == [];
    assert FromLE([high]) == high + 256 * FromLE([high][1..]);
  }

  lemma SmallRemainder(flip: nat, p: nat)
    requires flip < p
    ensures flip % p == flip
  {
  }

  lemma LowXor(x: nat, flip: nat, n: nat)
    requires flip < Pow2(n)
    ensures Xor(x, flip) % Pow2(n) == Xor(x % Pow2(n), flip)
  {
    SmallRemainder(flip, Pow2(n));
    XorRemainder(x, flip, n);
  }

  lemma LowParts(x: nat, y: nat, flip: Byte)
    requires Xor(x, y) == flip
    ensures y % 0x100 == Xor(x % 0x100, flip)
  {
    XorTwice(x, y);
    Octet(8);
    LowXor(x, flip, 8);
  }

  lemma FlipChanges(b: Byte, flip: Byte)
    requires flip > 0
    ensures FlipByte(b, flip, 8) != b
  {
    XorTwice(b, flip);
    XorInverse(b, FlipByte(b, flip, 8));
  }

  lemma WordParts(low: Byte, high: Byte, word: u16)
    ensures low + 0x100 * high == word <==> low == word % 0x100 && high == word / 0x100
  {
  }

  lemma ChecksumBytes(wire: Bytes, covered: Bytes)
    requires |wire| == FRAME_BYTES && wire[..96] == covered
    ensures ChecksumHolds(wire) <==> wire[96] == Crc16(covered) % 0x100 && wire[97] == Crc16(covered) / 0x100
  {
    assert wire[96..98] == [wire[96], wire[97]];
    TrailerWord(wire[96], wire[97]);
    WordParts(wire[96], wire[97], Crc16(covered));
  }

  lemma FlippedChecksum(head: Bytes, b: Byte)
    ensures var x, y := Crc16(head + [b]), Crc16(head + [FlipByte(b, PAYLOAD_FLIP, 8)]);
      y / 0x100 == x / 0x100 && y % 0x100 == Xor(x % 0x100, TRAILER_FLIP)
  {
    ChecksumFlips(head, b);
    LowParts(Crc16(head + [b]), Crc16(head + [FlipByte(b, PAYLOAD_FLIP, 8)]), TRAILER_FLIP);
  }

  lemma StraddleKeepsChecksum(wire: Bytes)
    requires |wire| == FRAME_BYTES
    ensures ChecksumHolds(wire) ==> ChecksumHolds(Straddle(wire))
  {
    var damaged := Straddle(wire);
    var head, b, c := wire[..LAST], wire[LAST], damaged[LAST];
    assert wire[..96] == head + [b] && damaged[..96] == head + [c];
    ChecksumBytes(wire, head + [b]);
    ChecksumBytes(damaged, head + [c]);
    FlippedChecksum(head, b);
  }

  lemma StraddleIsAccepted(wire: Bytes)
    requires |wire| == FRAME_BYTES
    ensures AgreeOutside(wire, Straddle(wire), LAST, 2) && Straddle(wire) != wire
    ensures Decode(wire).Some? ==> Decode(Straddle(wire)).Some?
  {
    var damaged := Straddle(wire);
    FlipChanges(wire[LAST], PAYLOAD_FLIP);
    StraddleKeepsChecksum(wire);
    assert damaged[0..2] == wire[0..2] && damaged[12..14] == wire[12..14];
  }

  /** Damage confined to two adjacent bytes is always rejected at this place. */
  ghost predicate RejectsDamageAt(wire: Bytes, at: nat) {
    forall damaged :: AgreeOutside(wire, damaged, at, 2) && damaged != wire ==> Decode(damaged) == None
  }

  /** Of every accepted frame, damage confined to two adjacent bytes is always rejected at exactly those
      places that do not join payload and trailer. */
  lemma DamageRejectedExactly(wire: Bytes, at: nat)
    requires |wire| == FRAME_BYTES
    ensures Decode(wire).Some? ==> (RejectsDamageAt(wire, at) <==> at != LAST)
  {
    if Decode(wire).Some? {
      if at == LAST {
        StraddleIsAccepted(wire);
      } else {
        forall damaged | AgreeOutside(wire, damaged, at, 2) && damaged != wire ensures Decode(damaged) == None {
          DamageIsRejected(wire, damaged, at);
        }
      }
    }
  }
}
