/** Burst detection over a whole record, trailer included: the register sends its low byte out first and
    the trailer is stored low byte first, so the complemented checksum brings the register to the same
    state whatever came before it. */
module ConfigTrailer {
  import opened Words
  import opened WordXor
  import opened Bits
  import opened ShiftRegister
  import opened Crc
  import opened ConfigRecord

  lemma ByteSplit(e: nat)
    ensures Xor(e, e % 0x100) == 0x100 * (e / 0x100)
  {
    var q, r := e / 0x100, e % 0x100;
    XorByte(q, r, 8);
    XorCommutes(0x100 * q, r);
    XorTwice(r, 0x100 * q);
    XorCommutes(e, r);
  }

  lemma RecordDifference(c: u32, d: u32, a: Byte, b: Byte)
    ensures Xor32(Record().Absorb(c, a), Record().Absorb(d, b)) ==
      Record().Steps(Xor32(Xor32(c, d), Xor32(a, b)), 8)
  {
    RecordGroup();
    RecordLinear();
    Difference(Record(), c, d, a, b);
  }

  /** Absorbing bytes that differ as the low bytes of the registers do moves the difference down a byte. */
  lemma DifferenceMovesDown(c: u32, d: u32, a: Byte, b: Byte)
    requires Xor(a, b) == Xor(c, d) % 0x100
    ensures Xor(Record().Absorb(c, a), Record().Absorb(d, b)) == Xor(c, d) / 0x100
  {
    var e := Xor32(c, d);
    RecordDifference(c, d, a, b);
    ByteSplit(e);
    ByteOut32(e / 0x100, 8);
  }

  lemma Halved(x: nat, p: nat)
    requires x < 2 * p
    ensures (2 * p - 1 - x) / 2 == p - 1 - x / 2 && (2 * p - 1 - x) % 2 == 1 - x % 2
  {
  }

  lemma SameHalves(a: nat, b: nat)
    requires a / 2 == b / 2 && a % 2 == b % 2
    ensures a == b
  {
  }

  lemma ComplementStep(x: nat, y: nat, p: nat)
    requires x < 2 * p && y < 2 * p
    requires Xor(p - 1 - x / 2, p - 1 - y / 2) == Xor(x / 2, y / 2)
    ensures Xor(2 * p - 1 - x, 2 * p - 1 - y) == Xor(x, y)
  {
    var u, v := 2 * p - 1 - x, 2 * p - 1 - y;
    Halved(x, p);
    Halved(y, p);
    XorHalves(x, y);
    XorHalves(u, v);
    SameHalves(Xor(u, v), Xor(x, y));
  }

  lemma {:induction false} ComplementXor(x: nat, y: nat, n: nat)
    requires x < Pow2(n) && y < Pow2(n)
    ensures Xor(Pow2(n) - 1 - x, Pow2(n) - 1 - y) == Xor(x, y)
  {
    if n > 0 {
      ComplementXor(x / 2, y / 2, n - 1);
      ComplementStep(x, y, Pow2(n - 1));
    }
  }

  lemma HighXor(x: nat, y: nat)
    ensures Xor(x, y) / 0x100 == Xor(x / 0x100, y / 0x100)
  {
    ByteOf(Xor(x, y));
    ByteOf(x);
    ByteOf(y);
    XorHalves(x, y);
    XorHalves(x / 2, y / 2);
    XorHalves(x / 4, y / 4);
    XorHalves(x / 8, y / 8);
    XorHalves(x / 16, y / 16);
    XorHalves(x / 32, y / 32);
    XorHalves(x / 64, y / 64);
    XorHalves(x / 128, y / 128);
  }

  lemma ByteOf(x: nat)
    ensures x / 2 / 2 == x / 4 && x / 4 / 2 == x / 8 && x / 8 / 2 == x / 16 && x / 16 / 2 == x / 32
    ensures x / 32 / 2 == x / 64 && x / 64 / 2 == x / 128 && x / 128 / 2 == x / 0x100
  {
  }

  lemma LowXor(x: nat, y: nat, n: nat)
    requires n == 8
    ensures Xor(x, y) % 0x100 == Xor(x % 0x100, y % 0x100)
  {
    Octet(n);
    XorRemainder(x, y, n);
  }

  lemma WordSplit(bytes: Bytes)
    requires |bytes| > 0
    ensures FromLE(bytes) % 0x100 == bytes[0] && FromLE(bytes) / 0x100 == FromLE(bytes[1..])
  {
  }

  lemma FromFirst<R(!new)>(m: Register<R>, c: R, x: Bytes)
    requires |x| > 0
    ensures m.From(c, x) == m.From(m.Absorb(c, x[0]), x[1..])
  {
    assert x == [x[0]] + x[1..];
    FromConcat(m, c, [x[0]], x[1..]);
    assert [x[0]][..0] == [];
    assert m.From(c, [x[0]]) == m.Absorb(m.From(c, [x[0]][..0]), x[0]);
  }

  /** Runs that stay related while they absorb, and are related only if equal at the end, meet. */
  lemma {:induction false} RelatedRunsMeet<R(!new)>(
      m: Register<R>, near: (R, R, Bytes, Bytes) -> bool, c: R, d: R, x: Bytes, y: Bytes)
    requires forall c: R, d: R, x: Bytes, y: Bytes :: near(c, d, x, y) && |x| == |y| > 0 ==>
      near(m.Absorb(c, x[0]), m.Absorb(d, y[0]), x[1..], y[1..])
    requires forall c: R, d: R :: near(c, d, [], []) ==> c == d
    requires |x| == |y| && near(c, d, x, y)
    ensures m.From(c, x) == m.From(d, y)
    decreases |x|
  {
    if |x| == 0 {
      assert x == [] && y == [];
    } else {
      FromFirst(m, c, x);
      FromFirst(m, d, y);
      RelatedRunsMeet(m, near, m.Absorb(c, x[0]), m.Absorb(d, y[0]), x[1..], y[1..]);
    }
  }

  /** The registers differ as the words still to be absorbed do. */
  predicate Near(c: u32, d: u32, x: Bytes, y: Bytes) { Xor(c, d) == Xor(FromLE(x), FromLE(y)) }

  lemma NearStep(c: u32, d: u32, x: Bytes, y: Bytes)
    requires Near(c, d, x, y) && |x| == |y| > 0
    ensures Near(Record().Absorb(c, x[0]), Record().Absorb(d, y[0]), x[1..], y[1..])
  {
    WordSplit(x);
    WordSplit(y);
    LowXor(FromLE(x), FromLE(y), 8);
    HighXor(FromLE(x), FromLE(y));
    DifferenceMovesDown(c, d, x[0], y[0]);
  }

  lemma NearRunsMeet(c: u32, d: u32, x: Bytes, y: Bytes)
    requires |x| == |y| && Near(c, d, x, y)
    ensures Record().From(c, x) == Record().From(d, y)
  {
    forall c: u32, d: u32, x: Bytes, y: Bytes | Near(c, d, x, y) && |x| == |y| > 0
      ensures Near(Record().Absorb(c, x[0]), Record().Absorb(d, y[0]), x[1..], y[1..]) {
      NearStep(c, d, x, y);
    }
    forall c: u32, d: u32 | Near(c, d, [], []) ensures c == d {
      XorInverse(c, d);
      XorInverse(0, 0);
    }
    RelatedRunsMeet(Record(), Near, c, d, x, y);
  }

  lemma Complemented(c: u32, d: u32, n: nat)
    requires n == 32
    ensures Xor(MAX_U32 - c, MAX_U32 - d) == Xor(c, d)
  {
    Width32(n);
    ComplementXor(c, d, n);
  }

  /** Checksums that hold leave the register in one and the same state. */
  lemma SealedMeet(a: Bytes, b: Bytes, x: Bytes, y: Bytes)
    requires |x| == |y| && FromLE(x) == Crc32(a) && FromLE(y) == Crc32(b)
    ensures Record().From(MAX_U32, a + x) == Record().From(MAX_U32, b + y)
  {
    FromConcat(Record(), MAX_U32, a, x);
    FromConcat(Record(), MAX_U32, b, y);
    Complemented(Record().From(MAX_U32, a), Record().From(MAX_U32, b), 32);
    NearRunsMeet(Record().From(MAX_U32, a), Record().From(MAX_U32, b), x, y);
  }

  lemma CheckedParts(bytes: Bytes) returns (covered: Bytes, trailer: Bytes)
    requires |bytes| == SLOT_BYTES && ChecksumHolds(bytes)
    ensures bytes == covered + trailer && |trailer| == 4 && FromLE(trailer) == Crc32(covered)
  {
    covered, trailer := bytes[..76], bytes[76..80];
  }

  lemma CheckedMeet(bytes: Bytes, damaged: Bytes)
    requires |bytes| == |damaged| == SLOT_BYTES && ChecksumHolds(bytes) && ChecksumHolds(damaged)
    ensures Record().From(MAX_U32, bytes) == Record().From(MAX_U32, damaged)
  {
    var a, x := CheckedParts(bytes);
    var b, y := CheckedParts(damaged);
    SealedMeet(a, b, x, y);
  }

  /** Damage confined to thirty-two consecutive bits of a readable record is rejected, wherever it falls. */
  lemma BurstIsRejected(l: Layout, bytes: Bytes, damaged: Bytes, at: nat)
    requires Readable(l, bytes) && |damaged| == |bytes| && damaged != bytes
    requires AgreeOutside(RecordBits(bytes), RecordBits(damaged), at, 32)
    ensures !Readable(l, damaged)
  {
    if ChecksumHolds(damaged) {
      CheckedMeet(bytes, damaged);
      RecordDistinguishes(MAX_U32, bytes, damaged, at);
    }
  }

  /** So is damage confined to four adjacent bytes. */
  lemma DamageIsRejected(l: Layout, bytes: Bytes, damaged: Bytes, at: nat)
    requires Readable(l, bytes) && AgreeOutside(bytes, damaged, at, 4) && damaged != bytes
    ensures !Readable(l, damaged)
  {
    BytesAreRecordBits(bytes, damaged, at);
    BurstIsRejected(l, bytes, damaged, 8 * at);
  }
}
