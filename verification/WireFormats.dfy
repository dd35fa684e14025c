/** What the formats are, byte by byte: the layouts that other devices and tools read and write, too. */
module WireFormats {
  import opened Words
  import P = PacketCodec
  import T = SecureTransport
  import L = AudioLink
  import Rec = ConfigRecord
  import Boot = BootPolicy
  import Codec = BootStateCodec
  import Crc

  type Bytes = seq<Byte>

  /** Byte k of a number, lowest first. */
  function ByteOf(x: nat, k: nat): Byte { if k == 0 then x % 0x100 else ByteOf(x / 0x100, k - 1) }

  /** A number stands in n bytes from an offset on, lowest first. */
  predicate Stands(bytes: Bytes, at: nat, x: nat, n: nat) {
    at + n <= |bytes| && forall k :: 0 <= k < n ==> bytes[at + k] == ByteOf(x, k)
  }

  lemma {:induction false} LittleEndian(x: nat, n: nat, k: nat)
    requires k < n
    ensures ToLE(x, n)[k] == ByteOf(x, k)
  {
    if k > 0 {
      LittleEndian(x / 0x100, n - 1, k - 1);
    }
  }

  lemma Placed(bytes: Bytes, at: nat, x: nat, n: nat)
    requires at + n <= |bytes| && bytes[at..at + n] == ToLE(x, n)
    ensures Stands(bytes, at, x, n)
  {
    forall k | 0 <= k < n ensures bytes[at + k] == ByteOf(x, k) {
      LittleEndian(x, n, k);
      assert bytes[at + k] == bytes[at..at + n][k];
    }
  }

  /** The packet header: "RO", version 1, kind, source, destination, sequence, timestamp and payload length. */
  lemma HeaderLayout(h: P.Header)
    requires P.Encodable(h)
    ensures var b := P.HeaderBytes(h);
      && |b| == 18 && b[..6] == [0x52, 0x4f, 1, h.kind, h.sourceId, h.destinationId]
      && Stands(b, 6, h.sequence, 2) && Stands(b, 8, h.timestamp, 8) && Stands(b, 16, h.payloadLength, 2)
  {
    var b := P.HeaderBytes(h);
    Placed(b, 0, h.magic, 2);
    assert b[0] == ByteOf(h.magic, 0) && b[0 + 1] == ByteOf(h.magic, 1);
    Placed(b, 6, h.sequence, 2);
    Placed(b, 8, h.timestamp, 8);
    Placed(b, 16, h.payloadLength, 2);
  }

  /** A heartbeat: epoch, schedule origin, and zeros. */
  lemma HeartbeatLayout(hb: P.Heartbeat)
    ensures var b := P.HeartbeatPayload(hb);
      && |b| == 80 && Stands(b, 0, hb.coordinatorEpoch, 4) && Stands(b, 4, hb.scheduleOrigin, 8)
      && forall k :: 12 <= k < 80 ==> b[k] == 0
  {
    var b := P.HeartbeatPayload(hb);
    Placed(b, 0, hb.coordinatorEpoch, 4);
    Placed(b, 4, hb.scheduleOrigin, 8);
  }

  /** The nonce: session, source, boot counter, packet counter. */
  lemma NonceLayout(session: u32, source: Byte, boot: u32, counter: u32)
    ensures var b := T.Nonce(session, source, boot, counter);
      && |b| == 13 && Stands(b, 0, session, 4) && b[4] == source && Stands(b, 5, boot, 4) && Stands(b, 9, counter, 4)
  {
    var b := T.Nonce(session, source, boot, counter);
    Placed(b, 0, session, 4);
    Placed(b, 5, boot, 4);
    Placed(b, 9, counter, 4);
  }

  /** What a sender transmits: the packet's header with the length of the envelope, both counters, the ciphertext and
      the tag. */
  lemma SecuredLayout(t: T.Transport, encrypt: T.Encrypt, packet: Bytes)
    requires T.Protect(t, encrypt, packet).1.Some?
    ensures P.ParsePacket(packet).Some?
    ensures var h := P.ParsePacket(packet).value; var b := T.Protect(t, encrypt, packet).1.value;
      var aad := P.HeaderBytes(h.(payloadLength := 96));
      var box := encrypt(T.Nonce(t.session, h.sourceId, t.boot, t.next), aad, packet[18..]);
      && |b| == 114 && b[..18] == aad && Stands(b, 18, t.boot, 4) && Stands(b, 22, t.next, 4)
      && box.Some? && b[26..106] == box.value.ciphertext && b[106..114] == box.value.tag
  {
    var b := T.Protect(t, encrypt, packet).1.value;
    var aad := T.SecuredHeader(P.ParsePacket(packet).value);
    assert b[18..22] == ToLE(t.boot, 4) && b[22..26] == ToLE(t.next, 4);
    Placed(b, 18, t.boot, 4);
    Placed(b, 22, t.next, 4);
  }

  lemma StandsOn(bytes: Bytes, rest: Bytes, at: nat, x: nat, n: nat)
    requires Stands(bytes, at, x, n)
    ensures Stands(bytes + rest, at, x, n)
  {
  }

  lemma CoveredLayout(f: L.Frame)
    ensures var c := L.Covered(f);
      && c[..6] == [0x4f, 0x41, 1, f.kind, f.sourceId, f.flags]
      && Stands(c, 6, f.sequence, 2) && Stands(c, 8, f.timestamp, 4) && c[12..16] == [80, 0, f.queueDepth, 0]
      && c[16..96] == f.payload
  {
    var c := L.Covered(f);
    L.CoveredSlices(f, []);
    assert c + [] == c;
    Placed(c, 0, L.MAGIC, 2);
    assert c[0] == ByteOf(L.MAGIC, 0) && c[0 + 1] == ByteOf(L.MAGIC, 1);
    Placed(c, 6, f.sequence, 2);
    Placed(c, 8, f.timestamp, 4);
    Placed(c, 12, 80, 2);
    assert c[12] == ByteOf(80, 0) && c[12 + 1] == ByteOf(80, 1);
  }

  /** The audio link frame: "OA", version 1, kind, source, flags, sequence, timestamp, payload length, queue depth, a
      zero, the payload, and the checksum of all that. */
  lemma FrameLayout(f: L.Frame, capacity: nat)
    requires L.Encode(f, capacity).Some?
    ensures var b := L.Encode(f, capacity).value;
      && |b| == 98 && b[..6] == [0x4f, 0x41, 1, f.kind, f.sourceId, f.flags]
      && Stands(b, 6, f.sequence, 2) && Stands(b, 8, f.timestamp, 4) && b[12..16] == [80, 0, f.queueDepth, 0]
      && b[16..96] == f.payload && Stands(b, 96, Crc.Crc16(b[..96]), 2)
  {
    var b, c := L.Encode(f, capacity).value, L.Covered(f);
    CoveredLayout(f);
    var trailer := ToLE(Crc.Crc16(c), 2);
    StandsOn(c, trailer, 6, f.sequence, 2);
    StandsOn(c, trailer, 8, f.timestamp, 4);
    assert b == c + trailer && b[..96] == c && b[96..98] == trailer;
    Placed(b, 96, Crc.Crc16(c), 2);
    assert b[..6] == c[..6] && b[12..16] == c[12..16] && b[16..96] == c[16..96];
  }

  lemma RecordHeader(l: Rec.Layout, generation: u32)
    ensures var h := Rec.Header(l, generation);
      && h[..4] == [0x4f, 0x52, 0x46, 0x43]
      && Stands(h, 4, l.schema, 2) && Stands(h, 6, l.length, 2) && Stands(h, 8, generation, 4)
  {
    var h := Rec.Header(l, generation);
    Placed(h, 0, Rec.MAGIC, 4);
    assert h[0] == ByteOf(Rec.MAGIC, 0) && h[0 + 1] == ByteOf(Rec.MAGIC, 1);
    assert h[0 + 2] == ByteOf(Rec.MAGIC, 2) && h[0 + 3] == ByteOf(Rec.MAGIC, 3);
    Placed(h, 4, l.schema, 2);
    Placed(h, 6, l.length, 2);
    Placed(h, 8, generation, 4);
  }

  /** A stored record: "ORFC", schema, length, generation, the payload, zeros, and the checksum of all that. */
  lemma RecordLayout(l: Rec.Layout, generation: u32, payload: Bytes)
    requires Rec.ValidLayout(l) && |payload| == l.length
    ensures var b := Rec.Image(l, generation, payload);
      && |b| == 80 && b[..4] == [0x4f, 0x52, 0x46, 0x43]
      && Stands(b, 4, l.schema, 2) && Stands(b, 6, l.length, 2) && Stands(b, 8, generation, 4)
      && b[12..12 + l.length] == payload && (forall k :: 12 + l.length <= k < 76 ==> b[k] == 0)
      && Stands(b, 76, Crc.Crc32(b[..76]), 4)
  {
    var b, h, c := Rec.Image(l, generation, payload), Rec.Header(l, generation), Rec.Covered(l, generation, payload);
    RecordHeader(l, generation);
    var rest := b[12..];
    RecordParts(l, generation, payload);
    StandsOn(h, rest, 4, l.schema, 2);
    StandsOn(h, rest, 6, l.length, 2);
    StandsOn(h, rest, 8, generation, 4);
    Placed(b, 76, Crc.Crc32(c), 4);
    assert b[..4] == h[..4];
  }

  lemma RecordParts(l: Rec.Layout, generation: u32, payload: Bytes)
    requires Rec.ValidLayout(l) && |payload| == l.length
    ensures var b, c := Rec.Image(l, generation, payload), Rec.Covered(l, generation, payload);
      && b == Rec.Header(l, generation) + b[12..] && b[..76] == c && b[76..80] == ToLE(Crc.Crc32(c), 4)
      && b[12..12 + l.length] == payload && forall k :: 12 + l.length <= k < 76 ==> b[k] == 0
  {
    var b, c := Rec.Image(l, generation, payload), Rec.Covered(l, generation, payload);
    Rec.ImageSlices(l, generation, payload);
    forall k | 12 + l.length <= k < 76 ensures b[k] == 0 {
      assert b[k] == c[k];
    }
  }

  /** A boot state: record version, version floor, confirmed and pending slot, attempts, and a zero. */
  lemma StateLayout(s: Boot.State)
    ensures var b := Codec.EncodeState(s);
      && |b| == 12 && Stands(b, 0, s.recordVersion, 4) && Stands(b, 4, s.minimumVersion, 4)
      && b[8..12] == [s.confirmed, s.pending, s.attempts, 0]
  {
    var b := Codec.EncodeState(s);
    Placed(b, 0, s.recordVersion, 4);
    Placed(b, 4, s.minimumVersion, 4);
  }
}
