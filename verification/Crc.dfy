/** The two checksums as the shift registers they are: CRC-16 with polynomial 0x1021 on the audio link,
    most significant bit first, and the reflected CRC-32 of section 3.2.9 of IEEE 802.3 on records. */
module Crc {
  import opened Words
  import opened Bits
  import opened WordXor
  import opened ShiftRegister
  import opened BitBurst

  // ----- CRC-16 -----

  function Shift16(c: u16): u16 { Wrap16(2 * c) }
  predicate Carry16(c: u16) { c >= 0x8000 }
  function Inject16(b: Byte): u16 { b * 0x100 }

  function Link(): Register<u16> { Register(0, 0x1021, Xor16, Shift16, Carry16, Inject16) }

  function Crc16(data: Bytes): u16 { Link().From(0xffff, data) }

  // ----- CRC-32 -----

  function Shift32(c: u32): u32 { c / 2 }
  predicate Carry32(c: u32) { c % 2 != 0 }
  function Inject32(b: Byte): u32 { b }

  function Record(): Register<u32> { Register(0, 0xedb8_8320, Xor32, Shift32, Carry32, Inject32) }

  /** The register is complemented at the end. */
  function Crc32(data: Bytes): u32 { MAX_U32 - Record().From(MAX_U32, data) }

  // ----- both registers are linear and one to one -----

  lemma LinkGroup()
    ensures Group(Link())
  {
    forall a: u16, b: u16 ensures Xor16(a, b) == Xor16(b, a) { XorCommutes(a, b); }
    forall a: u16, b: u16, c: u16 ensures Xor16(Xor16(a, b), c) == Xor16(a, Xor16(b, c)) { XorAssociates(a, b, c); }
    forall a: u16 ensures Xor16(a, 0) == a { XorIdentity(a); }
    forall a: u16, b: u16 ensures Xor16(a, b) == 0 <==> a == b { XorInverse(a, b); }
  }

  lemma ShiftXor16(a: u16, b: u16)
    ensures Shift16(Xor16(a, b)) == Xor16(Shift16(a), Shift16(b))
  {
    Width16(16);
    XorDoubled(a, b);
    XorRemainder(2 * a, 2 * b, 16);
  }

  lemma CarryIsTopBit(c: u16, n: nat)
    requires n == 15
    ensures Carry16(c) <==> Bit(c, n)
  {
    Width16(n + 1);
    TopBit(c, n);
  }

  lemma CarryXor16(a: u16, b: u16, n: nat)
    requires n == 15
    ensures Carry16(Xor16(a, b)) == (Carry16(a) != Carry16(b))
  {
    CarryIsTopBit(a, n);
    CarryIsTopBit(b, n);
    CarryIsTopBit(Xor16(a, b), n);
    XorBits(a, b, n);
  }

  lemma LinkLinear()
    ensures Linear(Link())
  {
    forall a: u16, b: u16 ensures Shift16(Xor16(a, b)) == Xor16(Shift16(a), Shift16(b)) { ShiftXor16(a, b); }
    forall a: u16, b: u16 ensures Carry16(Xor16(a, b)) == (Carry16(a) != Carry16(b)) { CarryXor16(a, b, 15); }
  }

  lemma RecordGroup()
    ensures Group(Record())
  {
    forall a: u32, b: u32 ensures Xor32(a, b) == Xor32(b, a) { XorCommutes(a, b); }
    forall a: u32, b: u32, c: u32 ensures Xor32(Xor32(a, b), c) == Xor32(a, Xor32(b, c)) { XorAssociates(a, b, c); }
    forall a: u32 ensures Xor32(a, 0) == a { XorIdentity(a); }
    forall a: u32, b: u32 ensures Xor32(a, b) == 0 <==> a == b { XorInverse(a, b); }
  }

  lemma RecordLinear()
    ensures Linear(Record())
  {
    forall a: u32, b: u32 ensures Shift32(Xor32(a, b)) == Xor32(Shift32(a), Shift32(b)) { XorHalves(a, b); }
    forall a: u32, b: u32 ensures Carry32(Xor32(a, b)) == (Carry32(a) != Carry32(b)) { XorHalves(a, b); }
  }

  // ----- the link register bit by bit -----

  /** The k-th bit to fall out of the link register. */
  function Place16(k: nat): u16 {
    if k < 16 then (Pow2Grows(15 - k, 15); Width16(16); Pow2(15 - k)) else 0
  }

  function HighFirst(b: Byte): BitString { seq(8, j requires 0 <= j < 8 => Bit(b, 7 - j)) }

  function LinkSerial(): Serial<u16> { Serial(Link(), Place16, 16, HighFirst) }

  lemma PlacesOrdered16(k: nat, n: nat)
    requires k < n == 16
    ensures Place16(k) == Pow2(n - 1 - k) && Carry16(Place16(k)) == (k == 0)
    ensures k > 0 ==> Shift16(Place16(k)) == Place16(k - 1)
  {
    Width16(n);
    Pow2Grows(n - 1 - k, n - 1);
    if k > 0 {
      Pow2Grows(n - 1 - k, n - 2);
    }
  }

  lemma LinkOrdered()
    ensures Ordered(LinkSerial())
  {
    LinkGroup();
    LinkLinear();
    LinearIsLawful(Link());
    PlacesOrdered16(0, 16);
    forall k: nat | 0 < k < 16 ensures !Carry16(Place16(k)) && Shift16(Place16(k)) == Place16(k - 1) {
      PlacesOrdered16(k, 16);
    }
  }

  lemma {:induction false} WordBits16(bits: BitString, k: nat, i: nat, n: nat)
    requires k + |bits| <= n == 16
    ensures Bit(LinkSerial().Word(bits, k), i) <==> k <= n - 1 - i < k + |bits| && bits[n - 1 - i - k]
    decreases |bits|
  {
    if |bits| == 0 {
      HighBitsClear(0, 0, i);
    } else {
      var unit, rest := LinkSerial().Unit(bits[0], k), LinkSerial().Word(bits[1..], k + 1);
      PlacesOrdered16(k, n);
      OneBit(n - 1 - k, i);
      HighBitsClear(0, 0, i);
      XorBits(unit, rest, i);
      WordBits16(bits[1..], k + 1, i, n);
    }
  }

  lemma LinkInjects(b: Byte, n: nat)
    requires n == 16
    ensures Inject16(b) == LinkSerial().Word(HighFirst(b), 0)
  {
    Width16(n);
    Octet(n - 8);
    forall i | 0 <= i < n ensures Bit(Inject16(b), i) == Bit(LinkSerial().Word(HighFirst(b), 0), i) {
      WordBits16(HighFirst(b), 0, i, n);
      ProductBits(b, n - 8, i);
    }
    SameBits(Inject16(b), LinkSerial().Word(HighFirst(b), 0), n);
  }

  lemma HighFirstTells(a: Byte, b: Byte, n: nat)
    requires n == 8 && HighFirst(a) == HighFirst(b)
    ensures a == b
  {
    Octet(n);
    forall i | 0 <= i < n ensures Bit(a, i) == Bit(b, i) {
      assert HighFirst(a)[n - 1 - i] == HighFirst(b)[n - 1 - i];
    }
    SameBits(a, b, n);
  }

  lemma LinkInjectsBits()
    ensures Injects(LinkSerial())
  {
    forall b: Byte ensures |HighFirst(b)| == 8 && Inject16(b) == LinkSerial().Word(HighFirst(b), 0) {
      LinkInjects(b, 16);
    }
    forall a: Byte, b: Byte | HighFirst(a) == HighFirst(b) ensures a == b {
      HighFirstTells(a, b, 8);
    }
  }

  /** The bits of a string in the order the link register takes them. */
  function LinkBits(data: Bytes): BitString { LinkSerial().AllBits(data) }

  /** Damage confined to sixteen consecutive bits, at any bit, changes the CRC-16, whatever the length. */
  lemma BitBurstChangesCrc16(a: Bytes, b: Bytes, at: nat)
    requires |a| == |b| && a != b && AgreeOutside(LinkBits(a), LinkBits(b), at, 16)
    ensures Crc16(a) != Crc16(b)
  {
    LinkOrdered();
    LinkInjectsBits();
    BurstChanges(LinkSerial(), 0xffff, a, b, at);
  }

  /** So does damage confined to two adjacent bytes. */
  lemma BurstChangesCrc16(a: Bytes, b: Bytes, at: nat)
    requires AgreeOutside(a, b, at, 2) && a != b
    ensures Crc16(a) != Crc16(b)
  {
    LinkInjectsBits();
    BytesAreBits(LinkSerial(), a, b, at, 2);
    BitBurstChangesCrc16(a, b, 8 * at);
  }

  // ----- the record register bit by bit -----

  /** The k-th bit to fall out of the record register. */
  function Place32(k: nat): u32 {
    if k < 32 then (Pow2Grows(k, 31); Width32(32); Pow2(k)) else 0
  }

  function LowFirst(b: Byte): BitString { seq(8, j requires 0 <= j < 8 => Bit(b, j)) }

  function RecordSerial(): Serial<u32> { Serial(Record(), Place32, 32, LowFirst) }

  lemma RecordOrdered()
    ensures Ordered(RecordSerial())
  {
    RecordGroup();
    RecordLinear();
    LinearIsLawful(Record());
  }

  lemma {:induction false} WordBits32(bits: BitString, k: nat, i: nat)
    requires k + |bits| <= 32
    ensures Bit(RecordSerial().Word(bits, k), i) <==> k <= i < k + |bits| && bits[i - k]
    decreases |bits|
  {
    if |bits| == 0 {
      HighBitsClear(0, 0, i);
    } else {
      var unit, rest := RecordSerial().Unit(bits[0], k), RecordSerial().Word(bits[1..], k + 1);
      OneBit(k, i);
      HighBitsClear(0, 0, i);
      XorBits(unit, rest, i);
      WordBits32(bits[1..], k + 1, i);
    }
  }

  lemma RecordInjects(b: Byte, n: nat)
    requires n == 32
    ensures Inject32(b) == RecordSerial().Word(LowFirst(b), 0)
  {
    Width32(n);
    Octet(n - 24);
    forall i | 0 <= i < n ensures Bit(b, i) == Bit(RecordSerial().Word(LowFirst(b), 0), i) {
      WordBits32(LowFirst(b), 0, i);
      if i >= 8 {
        HighBitsClear(b, n - 24, i);
      }
    }
    SameBits(b, RecordSerial().Word(LowFirst(b), 0), n);
  }

  lemma LowFirstTells(a: Byte, b: Byte, n: nat)
    requires n == 8 && LowFirst(a) == LowFirst(b)
    ensures a == b
  {
    Octet(n);
    forall i | 0 <= i < n ensures Bit(a, i) == Bit(b, i) {
      assert LowFirst(a)[i] == LowFirst(b)[i];
    }
    SameBits(a, b, n);
  }

  lemma RecordInjectsBits()
    ensures Injects(RecordSerial())
  {
    forall b: Byte ensures |LowFirst(b)| == 8 && Inject32(b) == RecordSerial().Word(LowFirst(b), 0) {
      RecordInjects(b, 32);
    }
    forall a: Byte, b: Byte | LowFirst(a) == LowFirst(b) ensures a == b {
      LowFirstTells(a, b, 8);
    }
  }

  /** The bits of a string in the order the record register takes them. */
  function RecordBits(data: Bytes): BitString { RecordSerial().AllBits(data) }

  lemma RecordDistinguishes(c: u32, a: Bytes, b: Bytes, at: nat)
    requires |a| == |b| && a != b && AgreeOutside(RecordBits(a), RecordBits(b), at, 32)
    ensures Record().From(c, a) != Record().From(c, b)
  {
    RecordOrdered();
    RecordInjectsBits();
    BurstChanges(RecordSerial(), c, a, b, at);
  }

  lemma BytesAreRecordBits(a: Bytes, b: Bytes, at: nat)
    requires AgreeOutside(a, b, at, 4)
    ensures AgreeOutside(RecordBits(a), RecordBits(b), 8 * at, 32)
  {
    RecordInjectsBits();
    BytesAreBits(RecordSerial(), a, b, at, 4);
  }

  /** Damage confined to thirty-two consecutive bits, at any bit, changes the CRC-32, whatever the length. */
  lemma BitBurstChangesCrc32(a: Bytes, b: Bytes, at: nat)
    requires |a| == |b| && a != b && AgreeOutside(RecordBits(a), RecordBits(b), at, 32)
    ensures Crc32(a) != Crc32(b)
  {
    RecordDistinguishes(MAX_U32, a, b, at);
  }

  /** So does damage confined to four adjacent bytes. */
  lemma BurstChangesCrc32(a: Bytes, b: Bytes, at: nat)
    requires AgreeOutside(a, b, at, 4) && a != b
    ensures Crc32(a) != Crc32(b)
  {
    BytesAreRecordBits(a, b, at);
    BitBurstChangesCrc32(a, b, 8 * at);
  }

  // ----- words without taps -----

  /** A register with room above it meets no tap: each step just doubles it. */
  lemma {:induction false} ShiftOut16(v: u16, n: nat)
    requires v * Pow2(n) < 0x1_0000
    ensures Link().Steps(v, n) == v * Pow2(n)
  {
    if n > 0 {
      assert v * Pow2(n) == 2 * (v * Pow2(n - 1));
      ShiftOut16(v, n - 1);
    }
  }

  lemma Octet(n: nat)
    requires n == 8
    ensures Pow2(n) == 0x100
  {
    Doubled(0, 1);
    Doubled(4, 16);
  }

  /** A register with its low bits clear meets no tap: each step just halves it. */
  lemma {:induction false} ShiftOut32(w: nat, n: nat)
    requires w * Pow2(n) <= MAX_U32
    ensures Record().Steps(w * Pow2(n), n) == w
    decreases n
  {
    if n > 0 {
      assert w * Pow2(n) == 2 * w * Pow2(n - 1);
      AtLeastOnce32(2 * w, Pow2(n - 1));
      ShiftOut32(2 * w, n - 1);
    }
  }

  lemma AtLeastOnce32(w: nat, p: nat)
    requires p >= 1
    ensures w <= w * p
  {
  }

  lemma ByteOut32(w: nat, n: nat)
    requires n == 8 && w < 0x100_0000
    ensures Record().Steps(0x100 * w, n) == w
  {
    Octet(n);
    ShiftOut32(w, n);
  }

  lemma XorEven(p: nat, y: nat)
    ensures Xor(2 * p, y) == 2 * Xor(p, y / 2) + y % 2
  {
    XorHalves(2 * p, y);
  }

  /** A word whose low n bits are clear, written out bit by bit. */
  function Raised(x: nat, n: nat): nat {
    if n == 0 then x else 2 * Raised(x, n - 1)
  }

  lemma {:induction false} XorDisjoint(x: nat, y: nat, n: nat)
    requires y < Pow2(n)
    ensures Xor(Raised(x, n), y) == Raised(x, n) + y
  {
    if n == 0 {
      XorIdentity(x);
    } else {
      XorDisjoint(x, y / 2, n - 1);
      XorEven(Raised(x, n - 1), y);
    }
  }

  lemma {:induction false} RaisedXor(x: nat, y: nat, n: nat)
    ensures Xor(Raised(x, n), Raised(y, n)) == Raised(Xor(x, y), n)
  {
    if n > 0 {
      RaisedXor(x, y, n - 1);
      XorDoubled(Raised(x, n - 1), Raised(y, n - 1));
    }
  }

  lemma RaisedByte(x: nat, n: nat)
    requires n == 8
    ensures Raised(x, n) == 0x100 * x
  {
    assert Raised(x, n - 7) == 2 * Raised(x, n - 8);
    assert Raised(x, n - 5) == 4 * Raised(x, n - 7);
    assert Raised(x, n - 3) == 4 * Raised(x, n - 5);
    assert Raised(x, n - 1) == 4 * Raised(x, n - 3);
  }

  /** A byte absorbed into a register whose low byte is clear is simply added. */
  lemma XorByte(x: nat, z: Byte, n: nat)
    requires n == 8
    ensures Xor(0x100 * x, z) == 0x100 * x + z
  {
    Octet(n);
    RaisedByte(x, n);
    XorDisjoint(x, z, n);
  }

  // ----- the loops -----

  /** The link checksum of the first bytes of a buffer, bit by bit. */
  method ComputeCrc16(data: array<Byte>, length: nat) returns (crc: u16)
    requires length <= data.Length
    ensures crc == Crc16(data[..length])
  {
    crc := 0xffff;
    for index := 0 to length
      invariant crc == Link().From(0xffff, data[..index])
    {
      crc := Absorb16(crc, data[index]);
      assert data[..index + 1][..index] == data[..index];
    }
  }

  method Absorb16(before: u16, b: Byte) returns (crc: u16)
    ensures crc == Link().Absorb(before, b)
  {
    crc := Xor16(before, b * 0x100);
    for bit := 0 to 8
      invariant crc == Link().Steps(Xor16(before, Inject16(b)), bit)
    {
      crc := if crc >= 0x8000 then Xor16(Wrap16(2 * crc), 0x1021) else Wrap16(2 * crc);
    }
  }

  /** The record checksum of the first bytes of a buffer, bit by bit. */
  method ComputeCrc32(data: array<Byte>, length: nat) returns (crc: u32)
    requires length <= data.Length
    ensures crc == Crc32(data[..length])
  {
    crc := MAX_U32;
    for i := 0 to length
      invariant crc == Record().From(MAX_U32, data[..i])
    {
      crc := Absorb32(crc, data[i]);
      assert data[..i + 1][..i] == data[..i];
    }
    crc := MAX_U32 - crc;
  }

  method Absorb32(before: u32, b: Byte) returns (crc: u32)
    ensures crc == Record().Absorb(before, b)
  {
    crc := Xor32(before, b);
    for bit := 0 to 8
      invariant crc == Record().Steps(Xor32(before, Inject32(b)), bit)
    {
      ghost var c := crc;
      crc := Xor32(crc / 2, if crc % 2 != 0 then 0xedb8_8320 else 0);
      XorIdentity(c / 2);
    }
  }
}
