/** The 18-byte packet header and the fixed 98-byte network packet. */
module PacketCodec {
  import opened Words

  const MAGIC: u16 := 0x4F52
  const VERSION: Byte := 1
  const HEADER_BYTES: nat := 18
  const MAX_PAYLOAD: nat := 255
  const PAYLOAD_BYTES: nat := 80
  const PACKET_BYTES: nat := 98
  const AUDIO_FRAME: Byte := 2
  const HEARTBEAT: Byte := 3
  const CONTROL: Byte := 4

  datatype Header = Header(
    magic: u16, version: Byte, kind: Byte, sourceId: Byte, destinationId: Byte,
    sequence: u16, timestamp: u64, payloadLength: u16)

  predicate Encodable(h: Header) {
    h.magic == MAGIC && h.version == VERSION && h.payloadLength <= MAX_PAYLOAD
  }

  function HeaderBytes(h: Header): (bytes: seq<Byte>)
    ensures |bytes| == HEADER_BYTES
  {
    ToLE(h.magic, 2) + [h.version, h.kind, h.sourceId, h.destinationId]
    + ToLE(h.sequence, 2) + ToLE(h.timestamp, 8) + ToLE(h.payloadLength, 2)
  }

  function HeaderFields(bytes: seq<Byte>): Header
    requires |bytes| >= HEADER_BYTES
  {
    Header(Word16(bytes[0..2]), bytes[2], bytes[3], bytes[4], bytes[5],
           Word16(bytes[6..8]), Word64(bytes[8..16]), Word16(bytes[16..18]))
  }

  function DecodeHeader(bytes: seq<Byte>): Option<Header> {
    if |bytes| < HEADER_BYTES then None
    else
      var h := HeaderFields(bytes);
      if Encodable(h) && |bytes| >= HEADER_BYTES + h.payloadLength then Some(h) else None
  }

  lemma FieldsOfBytes(h: Header, rest: seq<Byte>)
    ensures HeaderFields(HeaderBytes(h) + rest) == h
  {
    var b := HeaderBytes(h) + rest;
    WordRanges();
    assert b[0..2] == ToLE(h.magic, 2);
    assert b[6..8] == ToLE(h.sequence, 2);
    assert b[8..16] == ToLE(h.timestamp, 8);
    assert b[16..18] == ToLE(h.payloadLength, 2);
    DecodeEncodeLE(h.magic, 2);
    DecodeEncodeLE(h.sequence, 2);
    DecodeEncodeLE(h.timestamp, 8);
    DecodeEncodeLE(h.payloadLength, 2);
  }

  lemma BytesOfFields(bytes: seq<Byte>)
    requires |bytes| >= HEADER_BYTES
    ensures HeaderBytes(HeaderFields(bytes)) == bytes[..HEADER_BYTES]
  {
    EncodeDecodeLE(bytes[0..2]);
    EncodeDecodeLE(bytes[6..8]);
    EncodeDecodeLE(bytes[8..16]);
    EncodeDecodeLE(bytes[16..18]);
    assert bytes[..18] == bytes[0..2] + bytes[2..6] + bytes[6..8] + bytes[8..16] + bytes[16..18];
    assert bytes[2..6] == [bytes[2], bytes[3], bytes[4], bytes[5]];
  }

  lemma HeaderRoundTrip(h: Header, rest: seq<Byte>)
    requires Encodable(h)
    ensures DecodeHeader(HeaderBytes(h) + rest) == if |rest| >= h.payloadLength then Some(h) else None
  {
    FieldsOfBytes(h, rest);
  }

  /** Decoding accepts exactly the encodings: a decoded header encodes to the bytes it came from. */
  lemma DecodeIsCanonical(bytes: seq<Byte>)
    ensures DecodeHeader(bytes).Some? ==>
      var h := DecodeHeader(bytes).value; Encodable(h) && HeaderBytes(h) == bytes[..HEADER_BYTES]
  {
    if |bytes| >= HEADER_BYTES {
      BytesOfFields(bytes);
    }
  }

  // ----- network packets -----

  predicate NetworkHeader(h: Header, payloadLength: nat) {
    && 1 <= h.sourceId <= 6 && h.destinationId == 0 && h.payloadLength == payloadLength
    && (h.kind == AUDIO_FRAME || h.kind == HEARTBEAT || h.kind == CONTROL)
  }

  function ParsePacket(bytes: seq<Byte>): Option<Header> {
    if |bytes| != PACKET_BYTES then None
    else
      match DecodeHeader(bytes)
      case Some(h) => if NetworkHeader(h, PAYLOAD_BYTES) then Some(h) else None
      case None => None
  }

  function BuildPacket(kind: Byte, sourceId: Byte, sequence: u16, timestamp: u64, payload: seq<Byte>): Option<seq<Byte>>
    requires |payload| == PAYLOAD_BYTES
  {
    if 1 <= sourceId <= 6 then
      Some(HeaderBytes(Header(MAGIC, VERSION, kind, sourceId, 0, sequence, timestamp, PAYLOAD_BYTES)) + payload)
    else None
  }

  datatype Heartbeat = Heartbeat(coordinatorEpoch: u32, scheduleOrigin: u64)

  function HeartbeatPayload(hb: Heartbeat): (payload: seq<Byte>)
    ensures |payload| == PAYLOAD_BYTES
  {
    ToLE(hb.coordinatorEpoch, 4) + ToLE(hb.scheduleOrigin, 8) + seq(PAYLOAD_BYTES - 12, _ => 0)
  }

  function ParseHeartbeat(bytes: seq<Byte>): Option<Heartbeat> {
    match ParsePacket(bytes)
    case Some(h) =>
      if h.kind == HEARTBEAT then Some(Heartbeat(Word32(bytes[18..22]), Word64(bytes[22..30]))) else None
    case None => None
  }

  /** Every packet the builders make parses back to its header and carries its payload. */
  lemma BuildThenParse(kind: Byte, sourceId: Byte, sequence: u16, timestamp: u64, payload: seq<Byte>)
    requires |payload| == PAYLOAD_BYTES && (kind == AUDIO_FRAME || kind == HEARTBEAT || kind == CONTROL)
    ensures var packet := BuildPacket(kind, sourceId, sequence, timestamp, payload);
      if 1 <= sourceId <= 6 then
        && packet.Some? && packet.value[HEADER_BYTES..] == payload
        && ParsePacket(packet.value) ==
             Some(Header(MAGIC, VERSION, kind, sourceId, 0, sequence, timestamp, PAYLOAD_BYTES))
      else packet == None
  {
    if 1 <= sourceId <= 6 {
      HeaderRoundTrip(Header(MAGIC, VERSION, kind, sourceId, 0, sequence, timestamp, PAYLOAD_BYTES), payload);
    }
  }

  lemma HeartbeatRoundTrip(hb: Heartbeat, sourceId: Byte, sequence: u16, timestamp: u64)
    requires 1 <= sourceId <= 6
    ensures ParseHeartbeat(BuildPacket(HEARTBEAT, sourceId, sequence, timestamp, HeartbeatPayload(hb)).value) == Some(hb)
  {
    var payload := HeartbeatPayload(hb);
    var packet := BuildPacket(HEARTBEAT, sourceId, sequence, timestamp, payload).value;
    BuildThenParse(HEARTBEAT, sourceId, sequence, timestamp, payload);
    assert packet[18..22] == payload[0..4] == ToLE(hb.coordinatorEpoch, 4);
    assert packet[22..30] == payload[4..12] == ToLE(hb.scheduleOrigin, 8);
    WordRanges();
    DecodeEncodeLE(hb.coordinatorEpoch, 4);
    DecodeEncodeLE(hb.scheduleOrigin, 8);
  }

  // ----- the codec over buffers -----

  method EncodeHeader(h: Header, buffer: array<Byte>) returns (ok: bool)
    modifies buffer
    ensures ok == (buffer.Length >= HEADER_BYTES && Encodable(h))
    ensures ok ==> buffer[..] == HeaderBytes(h) + old(buffer[HEADER_BYTES..])
    ensures !ok ==> buffer[..] == old(buffer[..])
  {
    if buffer.Length < HEADER_BYTES || h.magic != MAGIC || h.version != VERSION || h.payloadLength > MAX_PAYLOAD {
      return false;
    }
    ghost var rest := buffer[HEADER_BYTES..];
    WriteLE(buffer, 0, h.magic, 2);
    assert buffer[HEADER_BYTES..] == buffer[2..][HEADER_BYTES - 2..] == rest;
    buffer[2], buffer[3], buffer[4], buffer[5] := h.version, h.kind, h.sourceId, h.destinationId;
    assert buffer[..6] == ToLE(h.magic, 2) + [h.version, h.kind, h.sourceId, h.destinationId];
    WriteTail(h, buffer, rest);
    return true;
  }

  method WriteTail(h: Header, buffer: array<Byte>, ghost rest: seq<Byte>)
    requires buffer.Length >= HEADER_BYTES && buffer[HEADER_BYTES..] == rest
    modifies buffer
    ensures buffer[..] == old(buffer[..6])
      + ToLE(h.sequence, 2) + ToLE(h.timestamp, 8) + ToLE(h.payloadLength, 2) + rest
  {
    ghost var start := buffer[..6];
    WriteLE(buffer, 6, h.sequence, 2);
    assert buffer[..8] == start + ToLE(h.sequence, 2);
    assert buffer[HEADER_BYTES..] == buffer[8..][10..] == rest;
    WriteLE(buffer, 8, h.timestamp, 8);
    assert buffer[..16] == buffer[..8] + ToLE(h.timestamp, 8);
    assert buffer[HEADER_BYTES..] == buffer[16..][2..] == rest;
    WriteLE(buffer, 16, h.payloadLength, 2);
    assert buffer[..18] == buffer[..16] + ToLE(h.payloadLength, 2);
    assert buffer[..] == buffer[..18] + buffer[18..];
  }

  method ReadHeader(buffer: array<Byte>) returns (header: Option<Header>)
    ensures header == DecodeHeader(buffer[..])
  {
    if buffer.Length < HEADER_BYTES {
      return None;
    }
    ghost var bytes := buffer[..];
    var magic := ReadLE(buffer, 0, 2);
    var sequence := ReadLE(buffer, 6, 2);
    var timestamp := ReadLE(buffer, 8, 8);
    var payloadLength := ReadLE(buffer, 16, 2);
    assert bytes[0..2] == buffer[0..2] && bytes[6..8] == buffer[6..8];
    assert bytes[8..16] == buffer[8..16] && bytes[16..18] == buffer[16..18];
    assert magic == Word16(bytes[0..2]) && sequence == Word16(bytes[6..8]);
    assert timestamp == Word64(bytes[8..16]) && payloadLength == Word16(bytes[16..18]);
    var h := Header(magic, buffer[2], buffer[3], buffer[4], buffer[5], sequence, timestamp, payloadLength);
    if h.magic != MAGIC || h.version != VERSION || h.payloadLength > MAX_PAYLOAD
       || buffer.Length < HEADER_BYTES + h.payloadLength {
      return None;
    }
    return Some(h);
  }
}
