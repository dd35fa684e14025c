/** Authenticated transport of network packets: a never-repeating transmit counter, the wrap and open
    codec around an AEAD cipher, and one replay window per source. */
module SecureTransport {
  import opened Words
  import opened PacketCodec
  import ReplayWindow

  const TAG_BYTES: nat := 8
  const ENVELOPE_BYTES: nat := 96
  const SECURED_BYTES: nat := 114

  type Bytes = seq<Byte>
  type Plain = p: seq<Byte> | |p| == PAYLOAD_BYTES witness seq(PAYLOAD_BYTES, _ => 0)

  /** Ciphertext and tag. */
  datatype RawBox = Box(ciphertext: Bytes, tag: Bytes)
  type Box = b: RawBox | |b.ciphertext| == PAYLOAD_BYTES && |b.tag| == TAG_BYTES
    witness RawBox.Box(seq(PAYLOAD_BYTES, _ => 0), seq(TAG_BYTES, _ => 0))

  /** The cipher hooks, over nonce, associated data and plaintext or box; either may fail. */
  type Encrypt = (Bytes, Bytes, Plain) -> Option<Box>
  type Decrypt = (Bytes, Bytes, Box) -> Option<Plain>

  function Nonce(session: u32, sourceId: Byte, boot: u32, counter: u32): (nonce: Bytes)
    ensures |nonce| == 13
  {
    ToLE(session, 4) + [sourceId] + ToLE(boot, 4) + ToLE(counter, 4)
  }

  lemma NonceDeterminesItsParts(s: u32, i: Byte, b: u32, c: u32, s': u32, i': Byte, b': u32, c': u32)
    requires Nonce(s, i, b, c) == Nonce(s', i', b', c')
    ensures s == s' && i == i' && b == b' && c == c'
  {
    var n := Nonce(s, i, b, c);
    WordRanges();
    assert ToLE(s, 4) == n[0..4] == ToLE(s', 4);
    assert i == n[4] == i';
    assert ToLE(b, 4) == n[5..9] == ToLE(b', 4);
    assert ToLE(c, 4) == n[9..13] == ToLE(c', 4);
    DecodeEncodeLE(s, 4); DecodeEncodeLE(s', 4);
    DecodeEncodeLE(b, 4); DecodeEncodeLE(b', 4);
    DecodeEncodeLE(c, 4); DecodeEncodeLE(c', 4);
  }

  // ----- wrap and open -----

  function SecuredHeader(h: Header): (aad: Bytes)
    ensures |aad| == HEADER_BYTES
  {
    HeaderBytes(h.(payloadLength := ENVELOPE_BYTES))
  }

  function Assemble(aad: Bytes, boot: u32, counter: u32, box: Box): Bytes {
    aad + ToLE(boot, 4) + ToLE(counter, 4) + box.ciphertext + box.tag
  }

  function Wrap(encrypt: Encrypt, session: u32, boot: u32, counter: u32, packet: Bytes): Option<Bytes> {
    match ParsePacket(packet)
    case None => None
    case Some(h) =>
      var aad := SecuredHeader(h);
      match encrypt(Nonce(session, h.sourceId, boot, counter), aad, packet[HEADER_BYTES..])
      case Some(box) => Some(Assemble(aad, boot, counter, box))
      case None => None
  }

  /** The parts of a well-formed secured packet. */
  datatype Envelope = Envelope(header: Header, aad: Bytes, boot: u32, counter: u32, box: Box)

  function ParseSecured(secured: Bytes): Option<Envelope> {
    if |secured| != SECURED_BYTES then None
    else
      match DecodeHeader(secured)
      case Some(h) =>
        if NetworkHeader(h, ENVELOPE_BYTES) then
          Some(Envelope(h, secured[..18], Word32(secured[18..22]), Word32(secured[22..26]),
                        RawBox.Box(secured[26..106], secured[106..114])))
        else None
      case None => None
  }

  type Windows = w: seq<ReplayWindow.Window> | |w| == 6
    witness seq(6, _ => ReplayWindow.Window(false, 0, 0, 0))

  datatype Opening = Rejected | Refused(result: ReplayWindow.Result) | Opened(packet: Bytes)

  function Open(decrypt: Decrypt, session: u32, windows: Windows, secured: Bytes): (Windows, Opening) {
    match ParseSecured(secured)
    case None => (windows, Rejected)
    case Some(e) =>
      var source := e.header.sourceId;
      match decrypt(Nonce(session, source, e.boot, e.counter), e.aad, e.box)
      case None => (windows, Rejected)
      case Some(plain) =>
        var (window, result) := ReplayWindow.Accept(windows[source - 1], e.boot, e.counter);
        (windows[source - 1 := window],
         if result.Accepted() then Opened(HeaderBytes(e.header.(payloadLength := PAYLOAD_BYTES)) + plain)
         else Refused(result))
  }

  lemma OpenDecrypted(decrypt: Decrypt, session: u32, windows: Windows, secured: Bytes, plain: Plain, packet: Bytes)
    requires ParseSecured(secured).Some?
    requires var e := ParseSecured(secured).value;
      && decrypt(Nonce(session, e.header.sourceId, e.boot, e.counter), e.aad, e.box) == Some(plain)
      && HeaderBytes(e.header.(payloadLength := PAYLOAD_BYTES)) + plain == packet
    ensures var e := ParseSecured(secured).value; var i := e.header.sourceId - 1;
      var (window, result) := ReplayWindow.Accept(windows[i], e.boot, e.counter);
      Open(decrypt, session, windows, secured) ==
        (windows[i := window], if result.Accepted() then Opened(packet) else Refused(result))
  {
  }

  lemma AssembledParts(aad: Bytes, boot: u32, counter: u32, box: Box)
    requires |aad| == HEADER_BYTES
    ensures var s := Assemble(aad, boot, counter, box);
      && |s| == SECURED_BYTES && s[..18] == aad && s == aad + s[18..]
      && Word32(s[18..22]) == boot && Word32(s[22..26]) == counter
      && s[26..106] == box.ciphertext && s[106..114] == box.tag
  {
    var s := Assemble(aad, boot, counter, box);
    assert s[18..22] == ToLE(boot, 4) && s[22..26] == ToLE(counter, 4);
    WordRanges();
    DecodeEncodeLE(boot, 4);
    DecodeEncodeLE(counter, 4);
  }

  lemma AssembledHeader(packet: Bytes, rest: Bytes)
    requires ParsePacket(packet).Some? && |rest| == ENVELOPE_BYTES
    ensures var h := ParsePacket(packet).value.(payloadLength := ENVELOPE_BYTES);
      DecodeHeader(HeaderBytes(h) + rest) == Some(h) && NetworkHeader(h, ENVELOPE_BYTES)
  {
    HeaderRoundTrip(ParsePacket(packet).value.(payloadLength := ENVELOPE_BYTES), rest);
  }

  lemma ParseAssembled(packet: Bytes, boot: u32, counter: u32, box: Box)
    requires ParsePacket(packet).Some?
    ensures var h := ParsePacket(packet).value;
      ParseSecured(Assemble(SecuredHeader(h), boot, counter, box)) ==
        Some(Envelope(h.(payloadLength := ENVELOPE_BYTES), SecuredHeader(h), boot, counter, box))
  {
    var aad := SecuredHeader(ParsePacket(packet).value);
    AssembledParts(aad, boot, counter, box);
    AssembledHeader(packet, Assemble(aad, boot, counter, box)[18..]);
  }

  /** Restoring the plaintext length in an authentic header gives back the original packet. */
  lemma UnwrapRestores(packet: Bytes, secured: Bytes)
    requires ParsePacket(packet).Some? && ParseSecured(secured).Some?
    requires ParseSecured(secured).value.aad == SecuredHeader(ParsePacket(packet).value)
    ensures var e := ParseSecured(secured).value;
      HeaderBytes(e.header.(payloadLength := PAYLOAD_BYTES)) + packet[HEADER_BYTES..] == packet
  {
    var h, e := ParsePacket(packet).value, ParseSecured(secured).value;
    DecodeIsCanonical(packet);
    DecodeIsCanonical(secured);
    FieldsOfBytes(h.(payloadLength := ENVELOPE_BYTES), []);
    FieldsOfBytes(e.header, []);
    assert HeaderBytes(e.header) + [] == HeaderBytes(h.(payloadLength := ENVELOPE_BYTES)) + [];
    assert e.header == h.(payloadLength := ENVELOPE_BYTES);
    assert e.header.(payloadLength := PAYLOAD_BYTES) == h;
    assert packet == packet[..18] + packet[18..];
  }

  // ----- the transport state -----

  datatype Transport = Transport(session: u32, boot: u32, next: u32, exhausted: bool, windows: Windows)

  /** The counter moves only when a packet was protected, and never past its last value. */
  function Protect(t: Transport, encrypt: Encrypt, packet: Bytes): (Transport, Option<Bytes>) {
    if t.exhausted then (t, None)
    else
      match Wrap(encrypt, t.session, t.boot, t.next, packet)
      case None => (t, None)
      case Some(secured) =>
        (if t.next == MAX_U32 then t.(exhausted := true) else t.(next := t.next + 1), Some(secured))
  }

  function Receive(t: Transport, decrypt: Decrypt, secured: Bytes): (Transport, Opening) {
    var (windows, opening) := Open(decrypt, t.session, t.windows, secured);
    (t.(windows := windows), opening)
  }
}
