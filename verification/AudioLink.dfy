/** The 98-byte audio link frame: sixteen header bytes, eighty payload bytes and a CRC-16 trailer. */
module AudioLink {
  import opened Words
  import opened ShiftRegister
  import opened BitBurst
  import opened Crc

  const MAGIC: u16 := 0x414f
  const VERSION: Byte := 1
  const HEADER_BYTES: nat := 16
  const PAYLOAD_BYTES: nat := 80
  const COVERED_BYTES: nat := 96
  const FRAME_BYTES: nat := 98
  const QUEUE_CAPACITY: nat := 4
  const LOCAL_AUDIO: Byte := 1
  const REMOTE_AUDIO: Byte := 2
  const STATUS: Byte := 3

  type Payload = p: Bytes | |p| == PAYLOAD_BYTES witness seq(PAYLOAD_BYTES, _ => 0)

  datatype Frame = Frame(
    kind: Byte, sourceId: Byte, flags: Byte, sequence: u16, timestamp: u32, queueDepth: Byte, payload: Payload)

  predicate ValidKind(kind: Byte) { kind == LOCAL_AUDIO || kind == REMOTE_AUDIO || kind == STATUS }

  predicate ValidFrame(f: Frame) {
    ValidKind(f.kind) && if f.kind == STATUS then f.sourceId == 0 else 1 <= f.sourceId <= 6
  }

  predicate Encodable(f: Frame) { ValidFrame(f) && f.queueDepth <= QUEUE_CAPACITY }

  /** The bytes the checksum covers. */
  function Covered(f: Frame): (bytes: Bytes)
    ensures |bytes| == COVERED_BYTES
  {
    ToLE(MAGIC, 2) + [VERSION, f.kind, f.sourceId, f.flags] + ToLE(f.sequence, 2) + ToLE(f.timestamp, 4)
    + ToLE(PAYLOAD_BYTES, 2) + [f.queueDepth, 0] + f.payload
  }

  function Sealed(covered: Bytes): Bytes { covered + ToLE(Crc16(covered), 2) }

  function Encode(f: Frame, capacity: nat): Option<Bytes> {
    if Encodable(f) && capacity >= FRAME_BYTES then Some(Sealed(Covered(f))) else None
  }

  /** The header checks on the first sixteen bytes. */
  predicate HeaderHolds(wire: Bytes)
    requires |wire| >= HEADER_BYTES
  {
    && FromLE(wire[0..2]) == MAGIC && wire[2] == VERSION && ValidKind(wire[3])
    && FromLE(wire[12..14]) == PAYLOAD_BYTES && wire[14] <= QUEUE_CAPACITY && wire[15] == 0
  }

  predicate ChecksumHolds(wire: Bytes)
    requires |wire| == FRAME_BYTES
  {
    FromLE(wire[96..98]) == Crc16(wire[..96])
  }

  function Fields(wire: Bytes): Frame
    requires |wire| == FRAME_BYTES
  {
    Frame(wire[3], wire[4], wire[5], Word16(wire[6..8]), Word32(wire[8..12]), wire[14], wire[16..96])
  }

  function Decode(wire: Bytes): Option<Frame> {
    if |wire| == FRAME_BYTES && HeaderHolds(wire) && ChecksumHolds(wire) && ValidFrame(Fields(wire))
    then Some(Fields(wire)) else None
  }

  lemma CoveredSlices(f: Frame, rest: Bytes)
    ensures var w := Covered(f) + rest;
      && w[0..2] == ToLE(MAGIC, 2) && w[2] == VERSION && w[3] == f.kind && w[4] == f.sourceId && w[5] == f.flags
      && w[6..8] == ToLE(f.sequence, 2) && w[8..12] == ToLE(f.timestamp, 4)
      && w[12..14] == ToLE(PAYLOAD_BYTES, 2) && w[14] == f.queueDepth && w[15] == 0 && w[16..96] == f.payload
  {
  }

  lemma FieldsOfSealed(f: Frame, rest: Bytes)
    requires |rest| == 2
    ensures Fields(Covered(f) + rest) == f
  {
    CoveredSlices(f, rest);
    ShortWord(f.sequence);
    WordRanges();
    DecodeEncodeLE(f.timestamp, 4);
  }

  lemma HeaderOfSealed(f: Frame, rest: Bytes)
    requires Encodable(f)
    ensures HeaderHolds(Covered(f) + rest)
  {
    CoveredSlices(f, rest);
    ShortWord(MAGIC);
    ShortWord(PAYLOAD_BYTES);
  }

  lemma ChecksumOfSealed(covered: Bytes)
    requires |covered| == COVERED_BYTES
    ensures |Sealed(covered)| == FRAME_BYTES && ChecksumHolds(Sealed(covered))
  {
    var w := Sealed(covered);
    assert w[..96] == covered && w[96..98] == ToLE(Crc16(covered), 2);
    ShortWord(Crc16(covered));
  }

  /** Every frame that can be encoded decodes to itself. */
  lemma EncodeThenDecode(f: Frame, capacity: nat)
    requires Encodable(f) && capacity >= FRAME_BYTES
    ensures Encode(f, capacity).Some? && Decode(Encode(f, capacity).value) == Some(f)
  {
    ChecksumOfSealed(Covered(f));
    FieldsOfSealed(f, ToLE(Crc16(Covered(f)), 2));
    HeaderOfSealed(f, ToLE(Crc16(Covered(f)), 2));
  }

  lemma LEInjective(bytes: Bytes, value: nat)
    requires FromLE(bytes) == value
    ensures bytes == ToLE(value, |bytes|)
  {
    EncodeDecodeLE(bytes);
  }

  lemma CoveredOfFields(wire: Bytes)
    requires |wire| == FRAME_BYTES && HeaderHolds(wire)
    ensures Covered(Fields(wire)) == wire[..96]
  {
    LEInjective(wire[0..2], MAGIC);
    LEInjective(wire[12..14], PAYLOAD_BYTES);
    EncodeDecodeLE(wire[6..8]);
    EncodeDecodeLE(wire[8..12]);
    assert wire[2..6] == [VERSION, wire[3], wire[4], wire[5]] && wire[14..16] == [wire[14], 0];
    assert wire[..96] == wire[0..2] + wire[2..6] + wire[6..8] + wire[8..12] + wire[12..14] + wire[14..16] + wire[16..96];
  }

  /** Decoding accepts nothing but encodings: an accepted frame is, byte for byte, what its fields encode to. */
  lemma DecodeIsCanonical(wire: Bytes, capacity: nat)
    requires capacity >= FRAME_BYTES
    ensures Decode(wire).Some? ==> Encode(Decode(wire).value, capacity) == Some(wire)
  {
    if Decode(wire).Some? {
      CoveredOfFields(wire);
      LEInjective(wire[96..98], Crc16(wire[..96]));
      assert wire == wire[..96] + wire[96..98];
    }
  }

  lemma CoveredDamage(wire: Bytes, damaged: Bytes, at: nat)
    requires |wire| == |damaged| == FRAME_BYTES && ChecksumHolds(wire) && damaged != wire
    requires AgreeOutside(LinkBits(wire), LinkBits(damaged), at, 16) && at + 16 <= 8 * COVERED_BYTES
    ensures !ChecksumHolds(damaged)
  {
    LinkInjectsBits();
    WindowInFront(LinkSerial(), wire, damaged, at, 16, 96);
    assert damaged[96..98] == wire[96..98];
    assert damaged == damaged[..96] + damaged[96..98] && wire == wire[..96] + wire[96..98];
    BitBurstChangesCrc16(wire[..96], damaged[..96], at);
  }

  lemma TrailerDamage(wire: Bytes, damaged: Bytes)
    requires |wire| == |damaged| == FRAME_BYTES && damaged[..COVERED_BYTES] == wire[..COVERED_BYTES] && damaged != wire
    ensures ChecksumHolds(wire) ==> !ChecksumHolds(damaged)
  {
    assert damaged == damaged[..96] + damaged[96..98] && wire == wire[..96] + wire[96..98];
    EncodeDecodeLE(wire[96..98]);
    EncodeDecodeLE(damaged[96..98]);
  }

  lemma BurstInTrailer(wire: Bytes, damaged: Bytes, at: nat)
    requires |wire| == |damaged| == FRAME_BYTES
    requires AgreeOutside(LinkBits(wire), LinkBits(damaged), at, 16) && at >= 8 * COVERED_BYTES
    ensures damaged[..COVERED_BYTES] == wire[..COVERED_BYTES]
  {
    LinkInjectsBits();
    forall i | 0 <= i < COVERED_BYTES ensures wire[i] == damaged[i] {
      SameByte(LinkSerial(), wire, damaged, at, 16, i);
    }
  }

  /** Damage confined to sixteen consecutive bits of an accepted frame is rejected, unless they run from payload
      into checksum. */
  lemma BurstIsRejected(wire: Bytes, damaged: Bytes, at: nat)
    requires |wire| == |damaged| == FRAME_BYTES && damaged != wire
    requires AgreeOutside(LinkBits(wire), LinkBits(damaged), at, 16)
    requires at + 16 <= 8 * COVERED_BYTES || at >= 8 * COVERED_BYTES
    ensures Decode(wire).Some? ==> Decode(damaged) == None
  {
    if Decode(wire).Some? {
      if at < 8 * COVERED_BYTES {
        CoveredDamage(wire, damaged, at);
      } else {
        BurstInTrailer(wire, damaged, at);
        TrailerDamage(wire, damaged);
      }
    }
  }

  /** So is damage to one or two adjacent bytes, unless it takes in both the last payload byte and the first
      checksum byte. */
  lemma DamageIsRejected(wire: Bytes, damaged: Bytes, at: nat)
    requires |wire| == FRAME_BYTES && AgreeOutside(wire, damaged, at, 2) && damaged != wire
    requires at != COVERED_BYTES - 1
    ensures Decode(wire).Some? ==> Decode(damaged) == None
  {
    LinkInjectsBits();
    BytesAreBits(LinkSerial(), wire, damaged, at, 2);
    BurstIsRejected(wire, damaged, 8 * at);
  }
}
