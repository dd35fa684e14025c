/** The transport in memory: buffers, counters and one replay state per source, proved against the
    codec and the transport steps of SecureTransport. */
module SecureTransportDevice {
  import opened Words
  import opened PacketCodec
  import opened SecureTransport
  import R = ReplayWindow

  method BuildNonce(session: u32, sourceId: Byte, boot: u32, counter: u32) returns (nonce: array<Byte>)
    ensures fresh(nonce) && nonce[..] == Nonce(session, sourceId, boot, counter)
  {
    nonce := new Byte[13](_ => 0);
    WriteLE(nonce, 0, session, 4);
    nonce[4] := sourceId;
    assert nonce[..5] == ToLE(session, 4) + [sourceId];
    WriteLE(nonce, 5, boot, 4);
    assert nonce[..9] == nonce[..5] + ToLE(boot, 4);
    WriteLE(nonce, 9, counter, 4);
    assert nonce[..] == nonce[..9] + ToLE(counter, 4);
  }

  method CopyInto(source: seq<Byte>, target: array<Byte>, offset: nat)
    requires offset + |source| <= target.Length
    modifies target
    ensures target[..] == old(target[..offset]) + source + old(target[offset + |source|..])
  {
    var i := 0;
    while i < |source|
      invariant 0 <= i <= |source|
      invariant target[..offset + i] == old(target[..offset]) + source[..i]
      invariant target[offset + i..] == old(target[offset + i..])
    {
      target[offset + i] := source[i];
      i := i + 1;
    }
    assert target[..] == target[..offset + i] + target[offset + i..];
  }

  /** Counter prefix, ciphertext and tag after a header that is already in place. */
  method FillEnvelope(secured: array<Byte>, boot: u32, counter: u32, box: Box)
    requires secured.Length == SECURED_BYTES
    modifies secured
    ensures secured[..] == Assemble(old(secured[..HEADER_BYTES]), boot, counter, box)
  {
    ghost var aad := secured[..HEADER_BYTES];
    WriteLE(secured, 18, boot, 4);
    assert secured[..22] == aad + ToLE(boot, 4);
    WriteLE(secured, 22, counter, 4);
    assert secured[..26] == secured[..22] + ToLE(counter, 4);
    CopyInto(box.ciphertext, secured, 26);
    assert secured[..106] == secured[..26] + box.ciphertext;
    CopyInto(box.tag, secured, 106);
    assert secured[..] == secured[..106] + box.tag;
  }

  method ReadPacketHeader(packet: array<Byte>) returns (header: Option<Header>)
    ensures header == ParsePacket(packet[..])
  {
    if packet.Length != PACKET_BYTES {
      return None;
    }
    header := ReadHeader(packet);
    if header.Some? && !NetworkHeader(header.value, PAYLOAD_BYTES) {
      header := None;
    }
  }

  method WrapPacket(encrypt: Encrypt, session: u32, boot: u32, counter: u32, packet: array<Byte>, secured: array<Byte>)
    returns (ok: bool)
    requires secured.Length == SECURED_BYTES && packet != secured
    modifies secured
    ensures ok == Wrap(encrypt, session, boot, counter, packet[..]).Some?
    ensures ok ==> secured[..] == Wrap(encrypt, session, boot, counter, packet[..]).value
  {
    var header := ReadPacketHeader(packet);
    if header.None? {
      return false;
    }
    var h := header.value.(payloadLength := ENVELOPE_BYTES);
    var encoded := EncodeHeader(h, secured);
    assert encoded && secured[..HEADER_BYTES] == HeaderBytes(h);
    var nonce := BuildNonce(session, h.sourceId, boot, counter);
    var box := encrypt(nonce[..], secured[..HEADER_BYTES], packet[HEADER_BYTES..]);
    if box.None? {
      return false;
    }
    FillEnvelope(secured, boot, counter, box.value);
    return true;
  }

  method ReadSecured(secured: array<Byte>) returns (e: Option<Envelope>)
    ensures e == ParseSecured(secured[..])
  {
    if secured.Length != SECURED_BYTES {
      return None;
    }
    var header := ReadHeader(secured);
    if header.None? || !NetworkHeader(header.value, ENVELOPE_BYTES) {
      return None;
    }
    ghost var bytes := secured[..];
    var boot := ReadLE(secured, 18, 4);
    var counter := ReadLE(secured, 22, 4);
    assert bytes[18..22] == secured[18..22] && bytes[22..26] == secured[22..26];
    assert boot == Word32(bytes[18..22]) && counter == Word32(bytes[22..26]);
    assert bytes[26..106] == secured[26..106] && bytes[106..114] == secured[106..114];
    return Some(Envelope(header.value, secured[..18], boot, counter, RawBox.Box(secured[26..106], secured[106..114])));
  }

  method RestorePacket(header: Header, plain: Plain, packet: array<Byte>)
    requires packet.Length == PACKET_BYTES && Encodable(header)
    modifies packet
    ensures packet[..] == HeaderBytes(header.(payloadLength := PAYLOAD_BYTES)) + plain
  {
    var encoded := EncodeHeader(header.(payloadLength := PAYLOAD_BYTES), packet);
    assert encoded;
    assert packet[..HEADER_BYTES] == HeaderBytes(header.(payloadLength := PAYLOAD_BYTES));
    CopyInto(plain, packet, HEADER_BYTES);
  }

  class Device {
    const session: u32
    const boot: u32
    const replay: seq<R.ReplayState>
    var nextPacketCounter: u32
    var transmitExhausted: bool
    var protectedPackets: nat
    var openedPackets: nat
    var protectFailures: nat
    var openFailures: nat
    var replayRejections: nat

    ghost predicate Valid() {
      |replay| == 6 && forall i, j :: 0 <= i < j < 6 ==> replay[i] != replay[j]
    }

    ghost function View(): Transport
      requires Valid()
      reads this, replay
    {
      Transport(session, boot, nextPacketCounter, transmitExhausted, Windows())
    }

    ghost function Windows(): Windows
      requires Valid()
      reads replay
    {
      seq(6, i requires 0 <= i < 6 && Valid() reads replay => replay[i].View())
    }

    constructor (crewSession: u32, bootCounter: u32, firstPacketCounter: u32)
      requires crewSession != 0 && bootCounter != 0 && firstPacketCounter != 0
      ensures Valid() && fresh(replay)
      ensures View() == Transport(crewSession, bootCounter, firstPacketCounter, false,
                                  seq(6, _ => R.Window(false, 0, 0, 0)))
    {
      var states: seq<R.ReplayState> := [];
      while |states| < 6
        invariant |states| <= 6
        invariant forall i :: 0 <= i < |states| ==> fresh(states[i]) && states[i].View() == R.Window(false, 0, 0, 0)
        invariant forall i, j :: 0 <= i < j < |states| ==> states[i] != states[j]
      {
        var state := new R.ReplayState();
        states := states + [state];
      }
      session, boot, replay := crewSession, bootCounter, states;
      nextPacketCounter, transmitExhausted := firstPacketCounter, false;
      protectedPackets, openedPackets, protectFailures, openFailures, replayRejections := 0, 0, 0, 0, 0;
    }

    method ProtectPacket(encrypt: Encrypt, packet: array<Byte>, secured: array<Byte>) returns (ok: bool)
      requires Valid() && secured.Length == SECURED_BYTES && packet != secured
      modifies this, secured
      ensures View() == Protect(old(View()), encrypt, old(packet[..])).0
      ensures ok == Protect(old(View()), encrypt, old(packet[..])).1.Some?
      ensures ok ==> secured[..] == Protect(old(View()), encrypt, old(packet[..])).1.value
    {
      if transmitExhausted {
        protectFailures := protectFailures + 1;
        return false;
      }
      var counter := nextPacketCounter;
      ok := WrapPacket(encrypt, session, boot, counter, packet, secured);
      if !ok {
        protectFailures := protectFailures + 1;
        return false;
      }
      protectedPackets := protectedPackets + 1;
      if counter == MAX_U32 {
        transmitExhausted := true;
      } else {
        nextPacketCounter := nextPacketCounter + 1;
      }
    }

    /** Decrypts, then lets the source's window decide; the packet is restored only if it accepts. */
    method OpenPacket(decrypt: Decrypt, secured: array<Byte>, packet: array<Byte>) returns (opening: Opening)
      requires Valid() && packet.Length == PACKET_BYTES && packet != secured
      modifies replay, packet
      ensures Open(decrypt, session, old(Windows()), old(secured[..])) == (Windows(), opening)
      ensures opening.Opened? ==> packet[..] == opening.packet
    {
      ghost var before := Windows();
      var e := ReadSecured(secured);
      if e.None? {
        return Rejected;
      }
      var h := e.value.header;
      var nonce := BuildNonce(session, h.sourceId, e.value.boot, e.value.counter);
      var plain := decrypt(nonce[..], e.value.aad, e.value.box);
      if plain.None? {
        return Rejected;
      }
      var result := replay[h.sourceId - 1].AcceptAuthenticated(e.value.boot, e.value.counter);
      assert Windows() == before[h.sourceId - 1 := replay[h.sourceId - 1].View()];
      if !result.Accepted() {
        return Refused(result);
      }
      RestorePacket(h, plain.value, packet);
      return Opened(HeaderBytes(h.(payloadLength := PAYLOAD_BYTES)) + plain.value);
    }

    method ReceivePacket(decrypt: Decrypt, secured: array<Byte>, packet: array<Byte>) returns (opening: Opening)
      requires Valid() && packet.Length == PACKET_BYTES && packet != secured
      modifies this, replay, packet
      ensures (View(), opening) == Receive(old(View()), decrypt, old(secured[..]))
      ensures opening.Opened? ==> packet[..] == opening.packet
    {
      opening := OpenPacket(decrypt, secured, packet);
      match opening
      case Opened(_) => openedPackets := openedPackets + 1;
      case Rejected => openFailures := openFailures + 1;
      case Refused(_) =>
        openFailures := openFailures + 1;
        replayRejections := replayRejections + 1;
    }
  }
}
