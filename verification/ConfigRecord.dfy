/** The 80-byte record a slot holds: a twelve-byte header, the payload padded with zeros, and a CRC-32. */
module ConfigRecord {
  import opened Words
  import opened ShiftRegister
  import opened Crc
  import TwoSlotStore

  const MAGIC: u32 := 0x4346_524f
  const HEADER_BYTES: nat := 12
  const MAX_PAYLOAD_BYTES: nat := 64
  const CRC_OFFSET: nat := 76
  const SLOT_BYTES: nat := 80

  /** What a store instance is created for. */
  datatype Layout = Layout(schema: u16, length: u16)

  predicate ValidLayout(l: Layout) { l.schema != 0 && 0 < l.length <= MAX_PAYLOAD_BYTES }

  function Padding(n: nat): (bytes: Bytes)
    ensures |bytes| == n
  {
    seq(n, _ => 0)
  }

  function Header(l: Layout, generation: u32): (bytes: Bytes)
    ensures |bytes| == HEADER_BYTES
  {
    ToLE(MAGIC, 4) + ToLE(l.schema, 2) + ToLE(l.length, 2) + ToLE(generation, 4)
  }

  /** The bytes the checksum covers. */
  function Covered(l: Layout, generation: u32, payload: Bytes): (bytes: Bytes)
    requires ValidLayout(l) && |payload| == l.length
    ensures |bytes| == CRC_OFFSET
  {
    Header(l, generation) + payload + Padding(MAX_PAYLOAD_BYTES - l.length)
  }

  function Image(l: Layout, generation: u32, payload: Bytes): (bytes: Bytes)
    requires ValidLayout(l) && |payload| == l.length
    ensures |bytes| == SLOT_BYTES
  {
    Covered(l, generation, payload) + ToLE(Crc32(Covered(l, generation, payload)), 4)
  }

  predicate HeaderHolds(l: Layout, bytes: Bytes)
    requires |bytes| == SLOT_BYTES
  {
    FromLE(bytes[0..4]) == MAGIC && FromLE(bytes[4..6]) == l.schema && FromLE(bytes[6..8]) == l.length
  }

  predicate ChecksumHolds(bytes: Bytes)
    requires |bytes| == SLOT_BYTES
  {
    FromLE(bytes[76..80]) == Crc32(bytes[..76])
  }

  function Generation(bytes: Bytes): u32
    requires |bytes| == SLOT_BYTES
  {
    Word32(bytes[8..12])
  }

  predicate Readable(l: Layout, bytes: Bytes) {
    |bytes| == SLOT_BYTES && HeaderHolds(l, bytes) && ChecksumHolds(bytes) && Generation(bytes) != 0
  }

  function Decode(l: Layout, bytes: Bytes): Option<TwoSlotStore.Record<Bytes>>
    requires ValidLayout(l)
  {
    if Readable(l, bytes)
    then Some(TwoSlotStore.Record(Generation(bytes), bytes[HEADER_BYTES..HEADER_BYTES + l.length]))
    else None
  }

  lemma ImageSlices(l: Layout, generation: u32, payload: Bytes)
    requires ValidLayout(l) && |payload| == l.length
    ensures var b := Image(l, generation, payload);
      && b[0..4] == ToLE(MAGIC, 4) && b[4..6] == ToLE(l.schema, 2) && b[6..8] == ToLE(l.length, 2)
      && b[8..12] == ToLE(generation, 4) && b[12..12 + l.length] == payload
      && b[..76] == Covered(l, generation, payload)
      && b[76..80] == ToLE(Crc32(Covered(l, generation, payload)), 4)
  {
    var h, c := Header(l, generation), Covered(l, generation, payload);
    assert h[0..4] == ToLE(MAGIC, 4) && h[4..6] == ToLE(l.schema, 2) && h[6..8] == ToLE(l.length, 2);
    assert h[8..12] == ToLE(generation, 4);
    assert c[..12] == h && c[12..12 + l.length] == payload;
  }

  /** Every image decodes to its generation and payload, unless the generation is zero. */
  lemma ImageDecodes(l: Layout, generation: u32, payload: Bytes)
    requires ValidLayout(l) && |payload| == l.length
    ensures Decode(l, Image(l, generation, payload)) ==
      if generation != 0 then Some(TwoSlotStore.Record(generation, payload)) else None
  {
    ImageSlices(l, generation, payload);
    LongWord(MAGIC);
    ShortWord(l.schema);
    ShortWord(l.length);
    LongWord(generation);
    LongWord(Crc32(Covered(l, generation, payload)));
  }

  /** A record written for one schema and length is read under that layout only. */
  lemma OtherLayoutIsRefused(l: Layout, other: Layout, generation: u32, payload: Bytes)
    requires ValidLayout(l) && ValidLayout(other) && |payload| == l.length && generation != 0
    ensures Decode(other, Image(l, generation, payload)).Some? <==> other == l
  {
    ImageDecodes(l, generation, payload);
    ImageSlices(l, generation, payload);
    ShortWord(l.schema);
    ShortWord(l.length);
  }

  // ----- as a format for the two-slot store -----

  function ImageOrNone(l: Layout): (u32, Bytes) -> Bytes
    requires ValidLayout(l)
  {
    (generation: u32, payload: Bytes) => if |payload| == l.length then Image(l, generation, payload) else []
  }

  function Format(l: Layout): TwoSlotStore.Format<Bytes>
    requires ValidLayout(l)
  {
    TwoSlotStore.Format(bytes => Decode(l, bytes), ImageOrNone(l), payload => |payload| == l.length)
  }

  lemma FormatIsFaithful(l: Layout)
    requires ValidLayout(l)
    ensures TwoSlotStore.Faithful(Format(l))
  {
    forall g: u32, p: Bytes | g != 0 && |p| == l.length
      ensures Format(l).decode(Format(l).image(g, p)) == Some(TwoSlotStore.Record(g, p)) {
      ImageDecodes(l, g, p);
    }
  }

  lemma LoadedLength(l: Layout, h: TwoSlotStore.Handle, slots: TwoSlotStore.Slots)
    requires ValidLayout(l)
    ensures var found := TwoSlotStore.Load(Format(l), h, slots).1; found.Some? ==> |found.value| == l.length
  {
  }

  /** Crash safety of the real record: on sound flash, after any run, a load finds a payload of the layout's
      length, the one last committed or loaded or one attempted since, and the flash is sound again. */
  lemma LoadAfterAnyRun(l: Layout, slots: TwoSlotStore.Slots, events: seq<TwoSlotStore.Event<Bytes>>,
                        end: TwoSlotStore.World<Bytes>, h: TwoSlotStore.Handle)
    requires ValidLayout(l) && TwoSlotStore.Sound(Format(l), slots)
    requires TwoSlotStore.Run(Format(l), TwoSlotStore.Booted(Format(l), slots), events, end)
    requires h == end.h || h == TwoSlotStore.Blank
    ensures var found := TwoSlotStore.Load(Format(l), h, end.slots).1;
      && (found.Some? ==> |found.value| == l.length)
      && (found == end.base || (found.Some? && found.value in end.attempts))
      && (end.base.Some? ==> found.Some?)
      && (end.attempts == [] ==> found == end.base)
    ensures TwoSlotStore.Sound(Format(l), end.slots)
  {
    FormatIsFaithful(l);
    LoadedLength(l, h, end.slots);
    TwoSlotStore.LoadAfterAnyRun(Format(l), slots, events, end, h);
  }
}
