/** One sender, one receiver and any network between them, over an ideal cipher: decryption yields
    exactly what was encrypted under the same nonce and associated data, and nothing else. */
module SecureLink {
  import opened Words
  import opened PacketCodec
  import opened SecureTransport
  import R = ReplayWindow
  import X = ReplayExact

  /** A successful encryption: the packet protected, the bytes transmitted for it, its counters, and what went to
      the cipher. */
  datatype Sealed = Sealed(
    packet: Bytes, sent: Bytes, boot: u32, counter: u32, nonce: Bytes, aad: Bytes, box: Box)

  type Heard = h: seq<seq<X.Arrival>> | |h| == 6 witness seq(6, _ => [])

  /** heard holds, per source, the counters of every arrival the cipher opened; delivered pairs each packet that
      came out with the encryption it came from. */
  datatype World = World(sender: Transport, log: seq<Sealed>, receiver: Transport,
                         heard: Heard, delivered: seq<(nat, Bytes)>)

  /** The network may deliver anything at any time: lost, repeated, reordered or forged packets. The sender may
      restart at any time, with whatever first packet counter. */
  datatype Event = Send(packet: Bytes, encrypt: Encrypt) | Arrive(secured: Bytes) | Reboot(boot: u32, first: u32)

  function FindSealed(log: seq<Sealed>, nonce: Bytes, aad: Bytes, box: Box): (r: Option<nat>)
    ensures r.Some? ==> r.value < |log| && (log[r.value].nonce, log[r.value].aad, log[r.value].box) == (nonce, aad, box)
    ensures r.None? ==> forall i :: 0 <= i < |log| ==> (log[i].nonce, log[i].aad, log[i].box) != (nonce, aad, box)
  {
    if |log| == 0 then None
    else
      var last := log[|log| - 1];
      if (last.nonce, last.aad, last.box) == (nonce, aad, box) then Some(|log| - 1)
      else FindSealed(log[..|log| - 1], nonce, aad, box)
  }

  function Unseal(log: seq<Sealed>, nonce: Bytes, aad: Bytes, box: Box): Option<Plain> {
    match FindSealed(log, nonce, aad, box)
    case Some(i) => if |log[i].packet| == PACKET_BYTES then Some(log[i].packet[HEADER_BYTES..]) else None
    case None => None
  }

  function IdealCipher(log: seq<Sealed>): Decrypt {
    (nonce, aad, box) => Unseal(log, nonce, aad, box)
  }

  function AfterSend(w: World, packet: Bytes, encrypt: Encrypt): World {
    var (sender, secured) := Protect(w.sender, encrypt, packet);
    match SealedBy(w.sender, packet, encrypt)
    case Some(box) =>
      if secured.None? then w.(sender := sender)
      else
        var h := ParsePacket(packet).value;
        var sealed := Sealed(packet, secured.value, w.sender.boot, w.sender.next,
                             Nonce(w.sender.session, h.sourceId, w.sender.boot, w.sender.next),
                             SecuredHeader(h), box);
        w.(sender := sender, log := w.log + [sealed])
    case None => w.(sender := sender)
  }

  /** What the cipher makes of a packet under the sender's next nonce. */
  function SealedBy(t: Transport, packet: Bytes, encrypt: Encrypt): (r: Option<Box>)
    ensures r.Some? ==> ParsePacket(packet).Some?
  {
    match ParsePacket(packet)
    case Some(h) => encrypt(Nonce(t.session, h.sourceId, t.boot, t.next), SecuredHeader(h), packet[HEADER_BYTES..])
    case None => None
  }

  /** The encryption an envelope claims to be, if the sender made it. */
  function ClaimedBy(w: World, e: Option<Envelope>): (r: Option<nat>)
    ensures r.Some? ==> r.value < |w.log| && e.Some?
  {
    if e.None? then None
    else FindSealed(w.log, Nonce(w.receiver.session, e.value.header.sourceId, e.value.boot, e.value.counter),
                    e.value.aad, e.value.box)
  }

  function Claimed(w: World, secured: Bytes): Option<nat> { ClaimedBy(w, ParseSecured(secured)) }

  function Arrived(w: World, e: Option<Envelope>, received: (Transport, Opening)): World
    requires e.Some? ==> 1 <= e.value.header.sourceId <= 6
  {
    match ClaimedBy(w, e)
    case None => w.(receiver := received.0)
    case Some(i) =>
      var at := e.value.header.sourceId - 1;
      w.(receiver := received.0,
         heard := w.heard[at := w.heard[at] + [X.Arrival(e.value.boot, e.value.counter)]],
         delivered := if received.1.Opened? then w.delivered + [(i, received.1.packet)] else w.delivered)
  }

  function AfterArrival(w: World, secured: Bytes): World {
    Arrived(w, ParseSecured(secured), Receive(w.receiver, IdealCipher(w.log), secured))
  }

  function Fresh(session: u32, boot: u32, first: u32): Transport {
    Transport(session, boot, first, false, seq(6, _ => R.Window(false, 0, 0, 0)))
  }

  /** The stored boot counter only grows (see BootCounter); a start that does not raise it does not happen. */
  function AfterReboot(w: World, boot: u32, first: u32): World {
    if boot > w.sender.boot then w.(sender := Fresh(w.sender.session, boot, first)) else w
  }

  function Step(w: World, e: Event): World {
    match e
    case Send(packet, encrypt) => AfterSend(w, packet, encrypt)
    case Arrive(secured) => AfterArrival(w, secured)
    case Reboot(boot, first) => AfterReboot(w, boot, first)
  }

  function Start(session: u32, boot: u32, first: u32, receiverBoot: u32): World {
    World(Fresh(session, boot, first), [], Fresh(session, receiverBoot, 1), seq(6, _ => []), [])
  }

  function Run(w: World, events: seq<Event>): World {
    if |events| == 0 then w else Step(Run(w, events[..|events| - 1]), events[|events| - 1])
  }

  // ----- what every step keeps -----

  /** An entry was sealed under its counters, from a packet that parses. */
  predicate LogEntry(s: Sealed, session: u32) {
    && ParsePacket(s.packet).Some?
    && var h := ParsePacket(s.packet).value;
    && s.nonce == Nonce(session, h.sourceId, s.boot, s.counter) && s.aad == SecuredHeader(h)
    && Carries(s.sent, s)
  }

  /** The bytes transmitted name the source and the counters, and hold the box. */
  predicate Carries(sent: Bytes, s: Sealed)
    requires ParsePacket(s.packet).Some?
  {
    match ParseSecured(sent)
    case Some(e) =>
      && e.header.sourceId == SourceOf(s) && X.Arrival(e.boot, e.counter) == ArrivalOf(s)
      && e.aad == s.aad && e.box == s.box
    case None => false
  }

  predicate Before(a: Sealed, b: Sealed) { a.boot < b.boot || (a.boot == b.boot && a.counter < b.counter) }

  /** The sender is past the counters of an entry. */
  predicate Spent(s: Sealed, t: Transport) {
    s.boot < t.boot || (s.boot == t.boot && (t.exhausted || s.counter < t.next))
  }

  predicate InOrder(log: seq<Sealed>) { forall i, j :: 0 <= i < j < |log| ==> Before(log[i], log[j]) }

  predicate SenderKept(w: World) {
    && (forall i :: 0 <= i < |w.log| ==> LogEntry(w.log[i], w.sender.session) && Spent(w.log[i], w.sender))
    && InOrder(w.log)
  }

  /** The arrival that an entry makes. */
  function ArrivalOf(s: Sealed): X.Arrival { X.Arrival(s.boot, s.counter) }

  lemma EntriesDiffer(log: seq<Sealed>, i: nat, j: nat)
    requires InOrder(log) && i < j < |log|
    ensures ArrivalOf(log[i]) != ArrivalOf(log[j])
  {
    assert Before(log[i], log[j]);
  }

  lemma ArrivalTellsEntry(log: seq<Sealed>, i: nat, j: nat)
    requires InOrder(log) && i < |log| && j < |log| && ArrivalOf(log[i]) == ArrivalOf(log[j])
    ensures i == j
  {
  }

  function SourceOf(s: Sealed): (source: Byte)
    requires ParsePacket(s.packet).Some?
    ensures 1 <= source <= 6
  {
    ParsePacket(s.packet).value.sourceId
  }

  /** Each window is where the arrivals of its source left it. */
  predicate ReceiverKept(w: World) {
    && w.receiver.session == w.sender.session
    && forall s :: 0 <= s < 6 ==> w.receiver.windows[s] == X.After(w.heard[s])
  }

  predicate Sending(w: World, i: nat) { i < |w.log| && ParsePacket(w.log[i].packet).Some? }

  predicate MadeBy(w: World, i: nat, s: nat, a: X.Arrival) {
    Sending(w, i) && SourceOf(w.log[i]) == s + 1 && ArrivalOf(w.log[i]) == a
  }

  /** An arrival is one the sender sealed for this source. */
  ghost predicate Known(w: World, s: nat, a: X.Arrival) { exists i: nat :: MadeBy(w, i, s, a) }

  ghost predicate HeardKept(w: World) {
    forall s, a :: 0 <= s < 6 && a in w.heard[s] ==> Known(w, s, a)
  }

  /** A delivery is byte-identical to what was sealed. */
  predicate DeliveredKept(w: World) {
    forall k :: 0 <= k < |w.delivered| ==>
      w.delivered[k].0 < |w.log| && w.delivered[k].1 == w.log[w.delivered[k].0].packet
  }

  /** How often a log entry came out. */
  function Times(delivered: seq<(nat, Bytes)>, i: nat): nat {
    if |delivered| == 0 then 0
    else Times(delivered[..|delivered| - 1], i) + (if delivered[|delivered| - 1].0 == i then 1 else 0)
  }

  /** An entry came out as often as its window took it. */
  predicate Counted(w: World, i: nat)
    requires Sending(w, i)
  {
    Times(w.delivered, i) == X.TakenTimes(w.heard[SourceOf(w.log[i]) - 1], ArrivalOf(w.log[i]))
  }

  ghost predicate CountsKept(w: World) {
    forall i: nat :: Sending(w, i) ==> Counted(w, i)
  }

  ghost predicate Kept(w: World) {
    SenderKept(w) && ReceiverKept(w) && HeardKept(w) && DeliveredKept(w) && CountsKept(w)
  }

  lemma {:induction false} NeverCameOut(delivered: seq<(nat, Bytes)>, i: nat)
    requires forall k :: 0 <= k < |delivered| ==> delivered[k].0 != i
    ensures Times(delivered, i) == 0
  {
    if |delivered| > 0 {
      NeverCameOut(delivered[..|delivered| - 1], i);
    }
  }

  /** What a send does to the rest of the world: one more entry at most, and nothing else. */
  lemma SendParts(w: World, packet: Bytes, encrypt: Encrypt)
    ensures var v := AfterSend(w, packet, encrypt);
      && v.receiver == w.receiver && v.heard == w.heard && v.delivered == w.delivered
      && v.sender.boot == w.sender.boot && v.sender.session == w.sender.session
      && w.log <= v.log && |v.log| <= |w.log| + 1
  {
  }

  lemma HeardStays(w: World, v: World)
    requires HeardKept(w) && v.heard == w.heard && w.log <= v.log
    ensures HeardKept(v)
  {
    forall s, a | 0 <= s < 6 && a in v.heard[s] ensures Known(v, s, a) {
      assert Known(w, s, a);
      var i: nat :| MadeBy(w, i, s, a);
      assert MadeBy(v, i, s, a);
    }
  }

  lemma NewIsUnknown(w: World, v: World, i: nat, s: nat)
    requires InOrder(v.log) && w.log <= v.log && |w.log| <= i < |v.log|
    ensures !Known(w, s, ArrivalOf(v.log[i]))
  {
    forall j: nat ensures !MadeBy(w, j, s, ArrivalOf(v.log[i])) {
      if j < |w.log| {
        EntriesDiffer(v.log, j, i);
      }
    }
  }

  /** A new entry has not been taken and has not come out. */
  lemma NewEntryCounts(w: World, v: World, i: nat)
    requires HeardKept(w) && DeliveredKept(w) && CountsKept(w) && InOrder(v.log)
    requires v.heard == w.heard && v.delivered == w.delivered && w.log <= v.log
    requires Sending(v, i)
    ensures Counted(v, i)
  {
    var s, a := SourceOf(v.log[i]) - 1, ArrivalOf(v.log[i]);
    if i < |w.log| {
      assert Sending(w, i) && Counted(w, i);
    } else {
      NewIsUnknown(w, v, i, s);
      X.NeverTaken(w.heard[s], a);
      NeverCameOut(w.delivered, i);
    }
  }

  lemma SendKeeps(w: World, packet: Bytes, encrypt: Encrypt)
    requires Kept(w)
    ensures Kept(AfterSend(w, packet, encrypt))
  {
    var v := AfterSend(w, packet, encrypt);
    SendParts(w, packet, encrypt);
    SenderStays(w, packet, encrypt);
    HeardStays(w, v);
    forall i: nat | Sending(v, i) ensures Counted(v, i) {
      NewEntryCounts(w, v, i);
    }
  }

  /** What a send may add: one entry under the sender's counters, which then move on. */
  predicate Appends(w: World, v: World) {
    && |v.log| == |w.log| + 1 && v.log[..|w.log|] == w.log && !w.sender.exhausted
    && var s := v.log[|w.log|];
    && LogEntry(s, w.sender.session) && s.boot == w.sender.boot && s.counter == w.sender.next
    && v.sender == if w.sender.next == MAX_U32 then w.sender.(exhausted := true)
                   else w.sender.(next := w.sender.next + 1)
  }

  /** Protecting a packet succeeds exactly when the sender is not exhausted and the cipher seals it under the next
      nonce, and then it transmits what carries that box. */
  lemma ProtectSeals(t: Transport, packet: Bytes, encrypt: Encrypt)
    ensures Protect(t, encrypt, packet).1.Some? <==> !t.exhausted && SealedBy(t, packet, encrypt).Some?
    ensures Protect(t, encrypt, packet).1.Some? ==>
      && ParsePacket(packet).Some?
      && var h, e := ParsePacket(packet).value, ParseSecured(Protect(t, encrypt, packet).1.value);
      && e.Some? && e.value.header.sourceId == h.sourceId && (e.value.boot, e.value.counter) == (t.boot, t.next)
      && e.value.aad == SecuredHeader(h) && e.value.box == SealedBy(t, packet, encrypt).value
  {
    var box := SealedBy(t, packet, encrypt);
    if box.Some? {
      ParseAssembled(packet, t.boot, t.next, box.value);
    }
  }

  lemma SendAppends(w: World, packet: Bytes, encrypt: Encrypt)
    ensures var v := AfterSend(w, packet, encrypt);
      if !w.sender.exhausted && SealedBy(w.sender, packet, encrypt).Some?
      then Appends(w, v) && v.log[|w.log|].packet == packet
      else v.log == w.log && v.sender == w.sender
  {
    ProtectSeals(w.sender, packet, encrypt);
  }

  lemma AppendedEntries(w: World, v: World, i: nat)
    requires SenderKept(w) && Appends(w, v) && i < |v.log|
    ensures LogEntry(v.log[i], v.sender.session) && Spent(v.log[i], v.sender)
    ensures i < |w.log| ==> v.log[i] == w.log[i] && Before(v.log[i], v.log[|w.log|])
  {
    if i < |w.log| {
      assert v.log[i] == w.log[i] && LogEntry(w.log[i], w.sender.session) && Spent(w.log[i], w.sender);
    }
  }

  lemma AppendedOrder(log: seq<Sealed>, more: seq<Sealed>)
    requires InOrder(log) && |more| == |log| + 1 && more[..|log|] == log
    requires forall i :: 0 <= i < |log| ==> Before(log[i], more[|log|])
    ensures InOrder(more)
  {
    forall i, j | 0 <= i < j < |more| ensures Before(more[i], more[j]) {
      assert more[i] == log[i] && (j < |log| ==> more[j] == log[j]);
    }
  }

  lemma AppendedStays(w: World, v: World)
    requires SenderKept(w) && Appends(w, v)
    ensures SenderKept(v)
  {
    forall i | 0 <= i < |v.log| ensures LogEntry(v.log[i], v.sender.session) && Spent(v.log[i], v.sender) {
      AppendedEntries(w, v, i);
    }
    forall i | 0 <= i < |w.log| ensures Before(w.log[i], v.log[|w.log|]) {
      AppendedEntries(w, v, i);
    }
    AppendedOrder(w.log, v.log);
  }

  lemma SenderStays(w: World, packet: Bytes, encrypt: Encrypt)
    requires SenderKept(w)
    ensures SenderKept(AfterSend(w, packet, encrypt))
  {
    SendAppends(w, packet, encrypt);
    if AfterSend(w, packet, encrypt).log != w.log {
      AppendedStays(w, AfterSend(w, packet, encrypt));
    }
  }

  lemma SameCounts(w: World, v: World)
    requires CountsKept(w) && v.log == w.log && v.heard == w.heard && v.delivered == w.delivered
    ensures CountsKept(v)
  {
    forall i: nat | Sending(v, i) ensures Counted(v, i) {
      assert Sending(w, i) && Counted(w, i);
    }
  }

  /** A restart raises the boot counter past every entry and changes nothing else. */
  lemma RebootKeeps(w: World, boot: u32, first: u32)
    requires Kept(w)
    ensures Kept(AfterReboot(w, boot, first))
  {
    var v := AfterReboot(w, boot, first);
    RebootedSender(w, boot, first);
    HeardStays(w, v);
    SameCounts(w, v);
  }

  /** What the ideal cipher opens was sealed by the sender: same source, boot and counter, and
      restoring its length field restores the packet. */
  lemma OpenedWasSealed(w: World, secured: Bytes)
    requires SenderKept(w) && w.receiver.session == w.sender.session && Claimed(w, secured).Some?
    ensures var i := Claimed(w, secured).value;
      var e := ParseSecured(secured).value; var packet := w.log[i].packet;
      && ParsePacket(packet).Some?
      && e.header.sourceId == SourceOf(w.log[i]) && X.Arrival(e.boot, e.counter) == ArrivalOf(w.log[i])
      && HeaderBytes(e.header.(payloadLength := PAYLOAD_BYTES)) + packet[HEADER_BYTES..] == packet
  {
    var i := Claimed(w, secured).value;
    var e, s := ParseSecured(secured).value, w.log[i];
    assert LogEntry(s, w.sender.session);
    NonceDeterminesItsParts(w.sender.session, SourceOf(s), s.boot, s.counter,
                            w.receiver.session, e.header.sourceId, e.boot, e.counter);
    UnwrapRestores(s.packet, secured);
  }

  /** Nothing the sender did not make is opened, and nothing changes. */
  lemma ForgeryIsRejected(w: World, secured: Bytes)
    requires Claimed(w, secured).None?
    ensures Receive(w.receiver, IdealCipher(w.log), secured) == (w.receiver, Rejected)
  {
  }

  lemma CipherOpens(w: World, secured: Bytes, i: nat)
    requires SenderKept(w) && w.receiver.session == w.sender.session
    requires i < |w.log| && Claimed(w, secured) == Some(i)
    ensures ParsePacket(w.log[i].packet).Some?
    ensures var e := ParseSecured(secured).value;
      IdealCipher(w.log)(Nonce(w.receiver.session, e.header.sourceId, e.boot, e.counter), e.aad, e.box)
        == Some(w.log[i].packet[HEADER_BYTES..])
  {
    assert LogEntry(w.log[i], w.sender.session);
  }

  /** The window of a source decides on a packet the cipher has opened. */
  function Decided(t: Transport, source: Byte, boot: u32, counter: u32, packet: Bytes): (Transport, Opening)
    requires 1 <= source <= 6
  {
    var (window, result) := R.Accept(t.windows[source - 1], boot, counter);
    (t.(windows := t.windows[source - 1 := window]), if result.Accepted() then Opened(packet) else Refused(result))
  }

  lemma ReceiveDecides(t: Transport, decrypt: Decrypt, secured: Bytes, e: Envelope, plain: Plain, packet: Bytes)
    requires ParseSecured(secured) == Some(e)
    requires decrypt(Nonce(t.session, e.header.sourceId, e.boot, e.counter), e.aad, e.box) == Some(plain)
    requires HeaderBytes(e.header.(payloadLength := PAYLOAD_BYTES)) + plain == packet
    ensures 1 <= e.header.sourceId <= 6
    ensures Receive(t, decrypt, secured) == Decided(t, e.header.sourceId, e.boot, e.counter, packet)
  {
    OpenDecrypted(decrypt, t.session, t.windows, secured, plain, packet);
  }

  lemma SealedIsDecided(w: World, secured: Bytes, i: nat, e: Envelope)
    requires SenderKept(w) && w.receiver.session == w.sender.session
    requires i < |w.log| && Claimed(w, secured) == Some(i) && ParseSecured(secured) == Some(e)
    ensures 1 <= e.header.sourceId <= 6
    ensures Receive(w.receiver, IdealCipher(w.log), secured) ==
      Decided(w.receiver, e.header.sourceId, e.boot, e.counter, w.log[i].packet)
  {
    OpenedWasSealed(w, secured);
    CipherOpens(w, secured, i);
    ReceiveDecides(w.receiver, IdealCipher(w.log), secured, e, w.log[i].packet[HEADER_BYTES..], w.log[i].packet);
  }

  /** The world after entry i arrives: its window decides. */
  function Outcome(w: World, i: nat): World
    requires Sending(w, i)
  {
    var at := SourceOf(w.log[i]) - 1;
    var (window, result) := R.Accept(w.receiver.windows[at], w.log[i].boot, w.log[i].counter);
    w.(receiver := w.receiver.(windows := w.receiver.windows[at := window]),
       heard := w.heard[at := w.heard[at] + [ArrivalOf(w.log[i])]],
       delivered := if result.Accepted() then w.delivered + [(i, w.log[i].packet)] else w.delivered)
  }

  lemma SealedArrived(w: World, e: Envelope, i: nat, received: (Transport, Opening))
    requires Sending(w, i) && ClaimedBy(w, Some(e)) == Some(i)
    requires e.header.sourceId == SourceOf(w.log[i]) && X.Arrival(e.boot, e.counter) == ArrivalOf(w.log[i])
    requires received == Decided(w.receiver, e.header.sourceId, e.boot, e.counter, w.log[i].packet)
    ensures Arrived(w, Some(e), received) == Outcome(w, i)
  {
  }

  lemma SealedArrival(w: World, secured: Bytes, i: nat)
    requires SenderKept(w) && w.receiver.session == w.sender.session
    requires Sending(w, i) && Claimed(w, secured) == Some(i)
    ensures AfterArrival(w, secured) == Outcome(w, i)
  {
    OpenedWasSealed(w, secured);
    SealedIsDecided(w, secured, i, ParseSecured(secured).value);
    SealedArrived(w, ParseSecured(secured).value, i, Receive(w.receiver, IdealCipher(w.log), secured));
  }

  /** What an arrival does to the world: nothing for a forgery, else the outcome of its entry. */
  lemma ArrivalOutcome(w: World, secured: Bytes)
    requires SenderKept(w) && w.receiver.session == w.sender.session
    ensures match Claimed(w, secured)
      case None => AfterArrival(w, secured) == w
      case Some(i) => Sending(w, i) && AfterArrival(w, secured) == Outcome(w, i)
  {
    match Claimed(w, secured)
    case None => ForgeryIsRejected(w, secured);
    case Some(i) =>
      assert LogEntry(w.log[i], w.sender.session);
      SealedArrival(w, secured, i);
  }

  lemma OneMoreTime(delivered: seq<(nat, Bytes)>, d: (nat, Bytes), i: nat)
    ensures Times(delivered + [d], i) == Times(delivered, i) + if d.0 == i then 1 else 0
  {
    assert (delivered + [d])[..|delivered|] == delivered;
  }

  lemma OutcomeHeard(w: World, i: nat)
    requires ReceiverKept(w) && HeardKept(w) && Sending(w, i)
    ensures ReceiverKept(Outcome(w, i)) && HeardKept(Outcome(w, i))
  {
    var v, at, a := Outcome(w, i), SourceOf(w.log[i]) - 1, ArrivalOf(w.log[i]);
    X.TakenTimesMore(w.heard[at], a, a);
    forall s, b | 0 <= s < 6 && b in v.heard[s] ensures Known(v, s, b) {
      if b in w.heard[s] {
        assert Known(w, s, b);
        var k: nat :| MadeBy(w, k, s, b);
        assert MadeBy(v, k, s, b);
      } else {
        assert MadeBy(v, i, s, b);
      }
    }
  }

  lemma OutcomeParts(w: World, i: nat)
    requires ReceiverKept(w) && Sending(w, i)
    ensures var v := Outcome(w, i);
      var at, a := SourceOf(w.log[i]) - 1, ArrivalOf(w.log[i]);
      && v.log == w.log && v.sender == w.sender && v.heard == w.heard[at := w.heard[at] + [a]]
      && v.delivered == if R.Accept(X.After(w.heard[at]), a.boot, a.counter).1.Accepted()
                        then w.delivered + [(i, w.log[i].packet)] else w.delivered
  {
  }

  /** One more arrival at one source is taken once more there exactly if the window takes it. */
  lemma TakenMoves(heard: Heard, at: nat, a: X.Arrival, here: nat, b: X.Arrival)
    requires at < 6 && here < 6
    ensures X.TakenTimes(heard[at := heard[at] + [a]][here], b) == X.TakenTimes(heard[here], b) +
      if here == at && a == b && R.Accept(X.After(heard[at]), a.boot, a.counter).1.Accepted() then 1 else 0
  {
    X.TakenTimesMore(heard[at], b, a);
  }

  /** Entry j is counted once more exactly when it is the arrival and the window takes it. */
  lemma CountMoves(w: World, v: World, i: nat, j: nat, taken: bool)
    requires Sending(w, i) && Sending(w, j) && Counted(w, j) && InOrder(w.log)
    requires v.log == w.log && v.delivered == if taken then w.delivered + [(i, w.log[i].packet)] else w.delivered
    requires var here, b := SourceOf(w.log[j]) - 1, ArrivalOf(w.log[j]);
      X.TakenTimes(v.heard[here], b) == X.TakenTimes(w.heard[here], b) +
        if here == SourceOf(w.log[i]) - 1 && ArrivalOf(w.log[i]) == b && taken then 1 else 0
    ensures Counted(v, j)
  {
    OneMoreTime(w.delivered, (i, w.log[i].packet), j);
    if ArrivalOf(w.log[j]) == ArrivalOf(w.log[i]) {
      ArrivalTellsEntry(w.log, i, j);
    }
  }

  lemma OutcomeCounts(w: World, i: nat, j: nat)
    requires ReceiverKept(w) && InOrder(w.log) && Sending(w, i) && Sending(w, j) && Counted(w, j)
    ensures Counted(Outcome(w, i), j)
  {
    var at, a := SourceOf(w.log[i]) - 1, ArrivalOf(w.log[i]);
    OutcomeParts(w, i);
    TakenMoves(w.heard, at, a, SourceOf(w.log[j]) - 1, ArrivalOf(w.log[j]));
    CountMoves(w, Outcome(w, i), i, j, R.Accept(X.After(w.heard[at]), a.boot, a.counter).1.Accepted());
  }

  lemma OutcomeKeeps(w: World, i: nat)
    requires Kept(w) && Sending(w, i)
    ensures Kept(Outcome(w, i))
  {
    var v := Outcome(w, i);
    OutcomeHeard(w, i);
    forall j: nat | Sending(v, j) ensures Counted(v, j) {
      assert Sending(w, j) && Counted(w, j);
      OutcomeCounts(w, i, j);
    }
  }

  lemma StartKept(session: u32, boot: u32, first: u32, receiverBoot: u32)
    ensures Kept(Start(session, boot, first, receiverBoot))
  {
  }

  lemma StepKeeps(w: World, e: Event)
    requires Kept(w)
    ensures Kept(Step(w, e))
  {
    match e
    case Send(packet, encrypt) => SendKeeps(w, packet, encrypt);
    case Reboot(boot, first) => RebootKeeps(w, boot, first);
    case Arrive(secured) =>
      ArrivalOutcome(w, secured);
      if Claimed(w, secured).Some? {
        OutcomeKeeps(w, Claimed(w, secured).value);
      }
  }

  /** Every reachable world, however many packets were protected. */
  lemma {:induction false} EveryRunIsKept(session: u32, boot: u32, first: u32, receiverBoot: u32, events: seq<Event>)
    ensures Kept(Run(Start(session, boot, first, receiverBoot), events))
  {
    if |events| == 0 {
      StartKept(session, boot, first, receiverBoot);
    } else {
      var earlier := events[..|events| - 1];
      EveryRunIsKept(session, boot, first, receiverBoot, earlier);
      StepKeeps(Run(Start(session, boot, first, receiverBoot), earlier), events[|events| - 1]);
    }
  }

  // ----- the main results -----

  lemma SenderStep(w: World, e: Event)
    requires SenderKept(w)
    ensures SenderKept(Step(w, e)) && Step(w, e).sender.session == w.sender.session
  {
    match e
    case Send(packet, encrypt) => SenderStays(w, packet, encrypt);
    case Arrive(secured) =>
      assert AfterArrival(w, secured).log == w.log && AfterArrival(w, secured).sender == w.sender;
    case Reboot(boot, first) => RebootedSender(w, boot, first);
  }

  lemma RebootedSender(w: World, boot: u32, first: u32)
    requires SenderKept(w)
    ensures SenderKept(AfterReboot(w, boot, first))
  {
    var v := AfterReboot(w, boot, first);
    forall i | 0 <= i < |v.log| ensures LogEntry(v.log[i], v.sender.session) && Spent(v.log[i], v.sender) {
      assert LogEntry(w.log[i], w.sender.session) && Spent(w.log[i], w.sender);
    }
  }

  lemma {:induction false} SenderRun(session: u32, boot: u32, first: u32, receiverBoot: u32, events: seq<Event>)
    ensures var w := Run(Start(session, boot, first, receiverBoot), events);
      SenderKept(w) && w.sender.session == session
  {
    if |events| > 0 {
      var earlier := events[..|events| - 1];
      SenderRun(session, boot, first, receiverBoot, earlier);
      SenderStep(Run(Start(session, boot, first, receiverBoot), earlier), events[|events| - 1]);
    }
  }

  /** The nonces of all successful encryptions are pairwise distinct, up to and past the exhaustion of the packet
      counter and across all restarts, as section 2.1 of RFC 3610 requires under one key. */
  lemma NoncesNeverRepeat(session: u32, boot: u32, first: u32, receiverBoot: u32, events: seq<Event>, i: nat, j: nat)
    requires i < j < |Run(Start(session, boot, first, receiverBoot), events).log|
    ensures var log := Run(Start(session, boot, first, receiverBoot), events).log; log[i].nonce != log[j].nonce
  {
    var w := Run(Start(session, boot, first, receiverBoot), events);
    SenderRun(session, boot, first, receiverBoot, events);
    var a, b := w.log[i], w.log[j];
    assert LogEntry(a, session) && LogEntry(b, session) && Before(a, b);
    if a.nonce == b.nonce {
      NonceDeterminesItsParts(session, SourceOf(a), a.boot, a.counter, session, SourceOf(b), b.boot, b.counter);
    }
  }

  lemma {:induction false} CameOutBefore(delivered: seq<(nat, Bytes)>, i: nat) returns (k: nat)
    requires Times(delivered, i) >= 1
    ensures k < |delivered| && delivered[k].0 == i
  {
    var n := |delivered| - 1;
    if delivered[n].0 == i {
      k := n;
    } else {
      k := CameOutBefore(delivered[..n], i);
    }
  }

  lemma {:induction false} CameOutTwice(delivered: seq<(nat, Bytes)>, i: nat) returns (j: nat, k: nat)
    requires Times(delivered, i) >= 2
    ensures j < k < |delivered| && delivered[j].0 == i && delivered[k].0 == i
  {
    var n := |delivered| - 1;
    if delivered[n].0 == i {
      k := n;
      j := CameOutBefore(delivered[..n], i);
    } else {
      j, k := CameOutTwice(delivered[..n], i);
    }
  }

  lemma {:induction false} CountsCameOut(delivered: seq<(nat, Bytes)>, k: nat)
    requires k < |delivered|
    ensures Times(delivered, delivered[k].0) >= 1
    ensures forall j :: 0 <= j < k && delivered[j].0 == delivered[k].0 ==> Times(delivered, delivered[k].0) >= 2
  {
    var n := |delivered| - 1;
    if k < n {
      CountsCameOut(delivered[..n], k);
    } else if j :| 0 <= j < k && delivered[j].0 == delivered[k].0 {
      CountsCameOut(delivered[..n], j);
    }
  }

  /** No protected packet comes out twice. */
  predicate DeliveredOnce(w: World) {
    forall j, k :: 0 <= j < k < |w.delivered| ==> w.delivered[j].0 != w.delivered[k].0
  }

  lemma OnceMeansCounts(w: World, i: nat)
    requires DeliveredOnce(w)
    ensures Times(w.delivered, i) <= 1
  {
    if Times(w.delivered, i) >= 2 {
      var j, k := CameOutTwice(w.delivered, i);
    }
  }

  lemma TakenOnce(w: World, s: nat, a: X.Arrival)
    requires CountsKept(w) && DeliveredOnce(w) && s < 6 && Known(w, s, a)
    ensures X.TakenTimes(w.heard[s], a) <= 1
  {
    var i: nat :| MadeBy(w, i, s, a);
    assert Sending(w, i) && Counted(w, i);
    OnceMeansCounts(w, i);
  }

  lemma OnceReachesWindows(w: World, s: nat)
    requires HeardKept(w) && CountsKept(w) && DeliveredOnce(w) && s < 6
    ensures X.AtMostOnce(w.heard[s])
  {
    forall a | a in w.heard[s] ensures X.TakenTimes(w.heard[s], a) <= 1 {
      assert Known(w, s, a);
      TakenOnce(w, s, a);
    }
    X.AtMostOnceFromCounts(w.heard[s]);
  }

  lemma DeliveredIsCounted(w: World, k: nat)
    requires SenderKept(w) && DeliveredKept(w) && CountsKept(w) && k < |w.delivered|
    ensures Sending(w, w.delivered[k].0) && Counted(w, w.delivered[k].0)
  {
    var i := w.delivered[k].0;
    assert LogEntry(w.log[i], w.sender.session);
    assert Sending(w, i);
  }

  lemma CountedIsOnce(w: World, i: nat)
    requires Sending(w, i) && Counted(w, i) && X.AtMostOnce(w.heard[SourceOf(w.log[i]) - 1])
    ensures Times(w.delivered, i) <= 1
  {
    X.TakenAtMostOnce(w.heard[SourceOf(w.log[i]) - 1], ArrivalOf(w.log[i]));
  }

  lemma WindowsKeepOnce(w: World, k: nat)
    requires Kept(w) && (forall s :: 0 <= s < 6 ==> X.AtMostOnce(w.heard[s])) && k < |w.delivered|
    ensures Times(w.delivered, w.delivered[k].0) <= 1
  {
    DeliveredIsCounted(w, k);
    CountedIsOnce(w, w.delivered[k].0);
  }

  /** Exactly: no packet comes out twice if and only if no window had meanwhile moved out of reach of a packet it
      had taken when that packet arrived again. */
  lemma AtMostOnceExactly(session: u32, boot: u32, first: u32, receiverBoot: u32, events: seq<Event>)
    ensures var w := Run(Start(session, boot, first, receiverBoot), events);
      DeliveredOnce(w) <==> forall s :: 0 <= s < 6 ==> X.WithinReach(w.heard[s])
  {
    var w := Run(Start(session, boot, first, receiverBoot), events);
    EveryRunIsKept(session, boot, first, receiverBoot, events);
    forall s | 0 <= s < 6 ensures X.AtMostOnce(w.heard[s]) <==> X.WithinReach(w.heard[s]) {
      X.AtMostOnceExactly(w.heard[s]);
    }
    if DeliveredOnce(w) {
      forall s | 0 <= s < 6 ensures X.AtMostOnce(w.heard[s]) {
        OnceReachesWindows(w, s);
      }
    }
    if forall s :: 0 <= s < 6 ==> X.AtMostOnce(w.heard[s]) {
      ReachKeepsOnce(w);
    }
  }

  lemma ReachKeepsOnce(w: World)
    requires Kept(w) && forall s :: 0 <= s < 6 ==> X.AtMostOnce(w.heard[s])
    ensures DeliveredOnce(w)
  {
    forall j, k | 0 <= j < k < |w.delivered| ensures w.delivered[j].0 != w.delivered[k].0 {
      CountsCameOut(w.delivered, k);
      WindowsKeepOnce(w, k);
    }
  }

  // ----- runs that are short enough -----

  /** Within a boot the counters of successive entries are consecutive, and the sender stands after the last. */
  predicate Consecutive(log: seq<Sealed>, t: Transport) {
    && (forall i :: 0 < i < |log| && log[i - 1].boot == log[i].boot ==> log[i].counter == log[i - 1].counter + 1)
    && (|log| > 0 && log[|log| - 1].boot == t.boot ==>
          if t.exhausted then log[|log| - 1].counter == MAX_U32 else t.next == log[|log| - 1].counter + 1)
    && (t.exhausted ==> |log| > 0 && log[|log| - 1].boot == t.boot)
  }

  lemma AppendedIsConsecutive(w: World, v: World)
    requires Consecutive(w.log, w.sender) && Appends(w, v)
    ensures Consecutive(v.log, v.sender)
  {
    var n := |w.log|;
    forall i | 0 < i < |v.log| && v.log[i - 1].boot == v.log[i].boot
      ensures v.log[i].counter == v.log[i - 1].counter + 1 {
      assert i < n ==> v.log[i] == w.log[i];
      assert v.log[i - 1] == w.log[i - 1];
    }
  }

  /** Also, nothing is older than the boot a run starts in. */
  predicate Compact(w: World, boot: u32) {
    && Consecutive(w.log, w.sender) && boot <= w.sender.boot
    && forall i :: 0 <= i < |w.log| ==> boot <= w.log[i].boot
  }

  lemma SendIsCompact(w: World, packet: Bytes, encrypt: Encrypt, boot: u32)
    requires Compact(w, boot)
    ensures Compact(AfterSend(w, packet, encrypt), boot)
  {
    var v := AfterSend(w, packet, encrypt);
    SendAppends(w, packet, encrypt);
    if Appends(w, v) {
      AppendedIsConsecutive(w, v);
      assert forall i :: 0 <= i < |w.log| ==> v.log[i] == w.log[i];
    }
  }

  lemma RebootIsCompact(w: World, later: u32, first: u32, boot: u32)
    requires SenderKept(w) && Compact(w, boot)
    ensures Compact(AfterReboot(w, later, first), boot)
  {
    if |w.log| > 0 {
      assert Spent(w.log[|w.log| - 1], w.sender);
    }
  }

  lemma ArrivalIsCompact(w: World, secured: Bytes, boot: u32)
    requires Compact(w, boot)
    ensures Compact(AfterArrival(w, secured), boot)
  {
    var v := AfterArrival(w, secured);
    assert v.log == w.log && v.sender == w.sender;
  }

  /** The counter of the first entry of a boot, or 0 if there is none. */
  function FirstOf(log: seq<Sealed>, boot: int): int {
    if |log| == 0 then 0
    else if log[0].boot == boot then log[0].counter
    else FirstOf(log[1..], boot)
  }

  /** How far the counters of a boot reach above its first. */
  lemma {:induction false} CountersSpan(log: seq<Sealed>, i: nat)
    requires InOrder(log) && i < |log|
    requires forall k :: 0 < k < |log| && log[k - 1].boot == log[k].boot ==> log[k].counter == log[k - 1].counter + 1
    ensures FirstOf(log, log[i].boot) <= log[i].counter <= FirstOf(log, log[i].boot) + i
    decreases |log|
  {
    var rest := log[1..];
    if log[0].boot == log[i].boot {
      FromTheFirst(log, i);
    } else {
      forall k | 0 < k < |rest| && rest[k - 1].boot == rest[k].boot ensures rest[k].counter == rest[k - 1].counter + 1 {
        assert log[k].boot == log[k + 1].boot;
      }
      assert i > 0 && rest[i - 1] == log[i] && InOrder(rest);
      CountersSpan(rest, i - 1);
    }
  }

  lemma {:induction false} FromTheFirst(log: seq<Sealed>, i: nat)
    requires InOrder(log) && i < |log| && log[0].boot == log[i].boot
    requires forall k :: 0 < k < |log| && log[k - 1].boot == log[k].boot ==> log[k].counter == log[k - 1].counter + 1
    ensures log[i].counter == log[0].counter + i
  {
    if i > 0 {
      assert Before(log[i - 1], log[i]);
      assert i > 1 ==> Before(log[0], log[i - 1]);
      FromTheFirst(log, i - 1);
    }
  }

  lemma KnownSpans(w: World, s: nat, a: X.Arrival, boot: u32)
    requires SenderKept(w) && Compact(w, boot) && Known(w, s, a)
    requires |w.log| <= 0x8000_0000 && w.sender.boot < boot + 0x8000_0000
    ensures R.Spans(R.Packet(a.boot, a.counter), boot, (b: int) => FirstOf(w.log, b))
  {
    var i: nat :| MadeBy(w, i, s, a);
    assert Spent(w.log[i], w.sender);
    CountersSpan(w.log, i);
  }

  lemma ShortLogKeepsOnce(w: World, boot: u32)
    requires Kept(w) && Compact(w, boot)
    requires |w.log| <= 0x8000_0000 && w.sender.boot < boot + 0x8000_0000
    ensures DeliveredOnce(w)
  {
    var firsts := (b: int) => FirstOf(w.log, b);
    forall s | 0 <= s < 6 ensures X.AtMostOnce(w.heard[s]) {
      forall a | a in w.heard[s] ensures R.Spans(R.Packet(a.boot, a.counter), boot, firsts) {
        assert Known(w, s, a);
        KnownSpans(w, s, a, boot);
      }
      X.ShortSpanIsAtMostOnce(w.heard[s], boot, firsts);
    }
    ReachKeepsOnce(w);
  }

  lemma {:induction false} RunIsCompact(session: u32, boot: u32, first: u32, receiverBoot: u32, events: seq<Event>)
    ensures Compact(Run(Start(session, boot, first, receiverBoot), events), boot)
  {
    if |events| > 0 {
      var earlier := events[..|events| - 1];
      SenderRun(session, boot, first, receiverBoot, earlier);
      RunIsCompact(session, boot, first, receiverBoot, earlier);
      StepIsCompact(Run(Start(session, boot, first, receiverBoot), earlier), events[|events| - 1], boot);
    }
  }

  lemma StepIsCompact(w: World, e: Event, boot: u32)
    requires SenderKept(w) && Compact(w, boot)
    ensures Compact(Step(w, e), boot)
  {
    match e
    case Send(packet, encrypt) => SendIsCompact(w, packet, encrypt, boot);
    case Reboot(later, first) => RebootIsCompact(w, later, first, boot);
    case Arrive(secured) => ArrivalIsCompact(w, secured, boot);
  }

  /** Whatever the network loses, repeats, reorders or forges, however many packets are protected and however often
      the sender restarts, what comes out is byte for byte what was protected and nothing else; and up to half the
      circle of packets and of boots, each comes out at most once. */
  lemma AtMostOnceAndIdentical(session: u32, boot: u32, first: u32, receiverBoot: u32, events: seq<Event>)
    ensures var w := Run(Start(session, boot, first, receiverBoot), events);
      && (forall k :: 0 <= k < |w.delivered| ==>
            w.delivered[k].0 < |w.log| && w.delivered[k].1 == w.log[w.delivered[k].0].packet)
      && (|w.log| <= 0x8000_0000 && w.sender.boot - boot < 0x8000_0000 ==> DeliveredOnce(w))
  {
    EveryRunIsKept(session, boot, first, receiverBoot, events);
    RunIsCompact(session, boot, first, receiverBoot, events);
    var w := Run(Start(session, boot, first, receiverBoot), events);
    if |w.log| <= 0x8000_0000 && w.sender.boot - boot < 0x8000_0000 {
      ShortLogKeepsOnce(w, boot);
    }
  }

  /** And it does come out: in every reachable world, the bytes transmitted for a packet, arriving intact, deliver it
      exactly when it is new to its window as the window sees it: above the highest counter taken, or less than 64
      below and not yet taken. */
  lemma IntactArrivalIsDelivered(w: World, i: nat)
    requires Kept(w) && Sending(w, i)
    ensures var h := X.Track(w.heard[SourceOf(w.log[i]) - 1]);
      AfterArrival(w, w.log[i].sent).delivered ==
        if R.Decide(h, X.Place(h, ArrivalOf(w.log[i]))).Accepted()
        then w.delivered + [(i, w.log[i].packet)] else w.delivered
  {
    IntactIsClaimed(w, i);
    SealedArrival(w, w.log[i].sent, i);
    OutcomeDelivers(w, i);
  }

  lemma {:induction false} LogStays(w: World, events: seq<Event>)
    requires Kept(w)
    ensures Kept(Run(w, events)) && w.log <= Run(w, events).log
  {
    if |events| > 0 {
      var earlier, e := events[..|events| - 1], events[|events| - 1];
      LogStays(w, earlier);
      StepKeeps(Run(w, earlier), e);
      if e.Send? {
        SendParts(Run(w, earlier), e.packet, e.encrypt);
      }
    }
  }

  /** From end to end: in any reachable world, protecting a well-formed packet succeeds if and only if the sender is
      not exhausted and the cipher seals it under its next nonce; and whatever happens afterwards, the very bytes it
      returned, arriving then, deliver that packet if and only if the window of its source takes the counters it
      was protected under. */
  lemma ProtectedArrives(w: World, packet: Bytes, encrypt: Encrypt, later: seq<Event>)
    requires Kept(w) && ParsePacket(packet).Some?
    ensures var source := ParsePacket(packet).value.sourceId; var sent := Protect(w.sender, encrypt, packet).1;
      && (sent.Some? <==> !w.sender.exhausted && SealedBy(w.sender, packet, encrypt).Some?)
      && 1 <= source <= 6
      && (sent.Some? ==>
            var u := Run(AfterSend(w, packet, encrypt), later);
            var h := X.Track(u.heard[source - 1]);
            AfterArrival(u, sent.value).delivered ==
              if R.Decide(h, X.Place(h, X.Arrival(w.sender.boot, w.sender.next))).Accepted()
              then u.delivered + [(|w.log|, packet)] else u.delivered)
  {
    ProtectSeals(w.sender, packet, encrypt);
    if Protect(w.sender, encrypt, packet).1.Some? {
      var v := AfterSend(w, packet, encrypt);
      SendAppends(w, packet, encrypt);
      SendKeeps(w, packet, encrypt);
      LogStays(v, later);
      assert Run(v, later).log[|w.log|] == v.log[|w.log|];
      IntactArrivalIsDelivered(Run(v, later), |w.log|);
    }
  }

  /** The sender has used the last counter of its boot. */
  predicate LastUsed(w: World) {
    exists i :: 0 <= i < |w.log| && w.log[i].boot == w.sender.boot && w.log[i].counter == MAX_U32
  }

  lemma LastIsUsed(w: World)
    requires SenderKept(w) && Consecutive(w.log, w.sender)
    ensures w.sender.exhausted <==> LastUsed(w)
  {
    if LastUsed(w) {
      var i :| 0 <= i < |w.log| && w.log[i].boot == w.sender.boot && w.log[i].counter == MAX_U32;
      assert Spent(w.log[i], w.sender);
    }
  }

  /** The sender is exhausted exactly when it has used its last counter in this boot. */
  lemma ExhaustedExactly(session: u32, boot: u32, first: u32, receiverBoot: u32, events: seq<Event>)
    ensures var w := Run(Start(session, boot, first, receiverBoot), events);
      w.sender.exhausted <==> LastUsed(w)
  {
    SenderRun(session, boot, first, receiverBoot, events);
    RunIsCompact(session, boot, first, receiverBoot, events);
    LastIsUsed(Run(Start(session, boot, first, receiverBoot), events));
  }

  /** After a restart the earlier boot is over: once a window has taken a packet of a later boot, an intact packet
      of an earlier one is refused, exactly as long as the boots are at most half the circle apart. */
  lemma EarlierBootIsRefusedExactly(w: World, i: nat)
    requires Kept(w) && Sending(w, i)
    requires w.receiver.windows[SourceOf(w.log[i]) - 1].initialized
    requires w.log[i].boot < w.receiver.windows[SourceOf(w.log[i]) - 1].boot
    ensures AfterArrival(w, w.log[i].sent).delivered == w.delivered <==>
      w.receiver.windows[SourceOf(w.log[i]) - 1].boot - w.log[i].boot <= 0x8000_0000
  {
    IntactIsClaimed(w, i);
    SealedArrival(w, w.log[i].sent, i);
    LaterWindowRefuses(w.receiver.windows[SourceOf(w.log[i]) - 1], w.log[i].boot, w.log[i].counter);
  }

  lemma LaterWindowRefuses(window: R.Window, boot: u32, counter: u32)
    requires window.initialized && boot < window.boot
    ensures R.Accept(window, boot, counter).1.Accepted() <==> window.boot - boot > 0x8000_0000
  {
  }

  lemma OutcomeDelivers(w: World, i: nat)
    requires ReceiverKept(w) && Sending(w, i)
    ensures var h := X.Track(w.heard[SourceOf(w.log[i]) - 1]);
      Outcome(w, i).delivered ==
        if R.Decide(h, X.Place(h, ArrivalOf(w.log[i]))).Accepted()
        then w.delivered + [(i, w.log[i].packet)] else w.delivered
  {
    WindowDecides(w, SourceOf(w.log[i]) - 1, ArrivalOf(w.log[i]));
  }

  lemma WindowDecides(w: World, s: nat, a: X.Arrival)
    requires ReceiverKept(w) && s < 6
    ensures var h := X.Track(w.heard[s]);
      R.Accept(w.receiver.windows[s], a.boot, a.counter).1 == R.Decide(h, X.Place(h, a))
  {
    X.EveryRunIsFollowed(w.heard[s]);
    X.PlaceIsNear(X.Track(w.heard[s]), a);
    R.AcceptFollows(X.After(w.heard[s]), X.Track(w.heard[s]), X.Place(X.Track(w.heard[s]), a));
  }

  lemma IntactIsClaimed(w: World, i: nat)
    requires SenderKept(w) && w.receiver.session == w.sender.session && i < |w.log|
    ensures Claimed(w, w.log[i].sent) == Some(i)
  {
    var s := w.log[i];
    assert LogEntry(s, w.sender.session);
    var found := Claimed(w, s.sent);
    assert found.Some?;
    OpenedWasSealed(w, s.sent);
  }
}
