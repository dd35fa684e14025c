/** The capture side: pairs of codec frames become numbered link frames, queued for the radio. */
module AudioCapture {
  import opened Words
  import L = AudioLink
  import P = AudioPlayout
  import Device = AudioLinkDevice

  const HALF_BYTES: nat := 40

  type HalfFrame = b: seq<Byte> | |b| == HALF_BYTES witness seq(HALF_BYTES, _ => 0)

  function Silence(): HalfFrame { seq(HALF_BYTES, _ => 0) }

  /** One block: the codec frame if encoding succeeded, whether capture was interrupted before it, and when it
      was taken. */
  datatype Block = Block(codecFrame: Option<HalfFrame>, discontinuity: bool, timestamp: u32)

  datatype Flags = Flags(first: bool, second: bool, discontinuity: bool) {
    function Value(): Byte {
      (if first then 1 else 0) + (if second then 2 else 0) + (if discontinuity then 4 else 0)
    }
  }

  const NoFlags := Flags(false, false, false)

  datatype Capture = Capture(
    source: Byte, half: nat, flags: Flags, sequence: u16, firstTimestamp: u32, payload: L.Payload)

  predicate WellFormed(c: Capture) { c.half < 2 && 1 <= c.source <= 6 }

  function Fresh(source: Byte, initial: u16): Capture {
    Capture(source, 0, NoFlags, initial, 0, seq(L.PAYLOAD_BYTES, _ => 0))
  }

  function BytesOf(b: Block): HalfFrame { if b.codecFrame.Some? then b.codecFrame.value else Silence() }

  function Flagged(flags: Flags, half: nat, b: Block): Flags {
    Flags(flags.first || (half == 0 && b.codecFrame.Some?), flags.second || (half != 0 && b.codecFrame.Some?),
          flags.discontinuity || b.discontinuity)
  }

  function Filled(payload: L.Payload, half: nat, bytes: HalfFrame): L.Payload {
    if half == 0 then bytes + payload[HALF_BYTES..] else payload[..HALF_BYTES] + bytes
  }

  /** Every second block completes a frame; depth is how many were queued before it. */
  function Submitted(c: Capture, b: Block, depth: Byte): (Capture, Option<L.Frame>) {
    var flags, payload := Flagged(c.flags, c.half, b), Filled(c.payload, c.half, BytesOf(b));
    if c.half == 0 then
      (c.(half := 1, flags := flags, payload := payload, firstTimestamp := b.timestamp), None)
    else
      (c.(half := 0, flags := NoFlags, payload := payload, sequence := Wrap16(c.sequence + 1)),
       Some(L.Frame(L.LOCAL_AUDIO, c.source, flags.Value(), c.sequence, c.firstTimestamp, depth, payload)))
  }

  // ----- runs -----

  function Joined(frames: seq<L.Frame>, next: (Capture, Option<L.Frame>)): (Capture, seq<L.Frame>) {
    (next.0, if next.1.Some? then frames + [next.1.value] else frames)
  }

  /** After some blocks: the state, and the frames completed, each with the queue depth it met. */
  function After(source: Byte, initial: u16, blocks: seq<Block>, depths: seq<Byte>): (Capture, seq<L.Frame>)
    requires |depths| == |blocks|
  {
    if |blocks| == 0 then (Fresh(source, initial), [])
    else
      var n := |blocks| - 1;
      var before := After(source, initial, blocks[..n], depths[..n]);
      Joined(before.1, Submitted(before.0, blocks[n], depths[n]))
  }

  /** The frame that should carry blocks a and b. */
  function FrameOf(source: Byte, sequence: u16, a: Block, b: Block, depth: Byte): L.Frame {
    L.Frame(L.LOCAL_AUDIO, source,
            Flags(a.codecFrame.Some?, b.codecFrame.Some?, a.discontinuity || b.discontinuity).Value(),
            sequence, a.timestamp, depth, BytesOf(a) + BytesOf(b))
  }

  /** What is pending after the first block of a pair. */
  predicate Holds(c: Capture, a: Block) {
    && c.half == 1 && c.firstTimestamp == a.timestamp && c.payload[..HALF_BYTES] == BytesOf(a)
    && c.flags == Flags(a.codecFrame.Some?, false, a.discontinuity)
  }

  predicate Carries(source: Byte, initial: u16, blocks: seq<Block>, depths: seq<Byte>, f: L.Frame, k: nat)
    requires |depths| == |blocks| && 2 * k + 1 < |blocks|
  {
    f == FrameOf(source, Wrap16(initial + k), blocks[2 * k], blocks[2 * k + 1], depths[2 * k + 1])
  }

  predicate Pairs(source: Byte, initial: u16, blocks: seq<Block>, depths: seq<Byte>, c: Capture, frames: seq<L.Frame>)
    requires |depths| == |blocks|
  {
    && c.source == source && c.sequence == Wrap16(initial + |frames|)
    && |frames| == |blocks| / 2
    && (if |blocks| % 2 == 0 then c.half == 0 && c.flags == NoFlags else Holds(c, blocks[|blocks| - 1]))
    && forall k :: 0 <= k < |frames| ==> Carries(source, initial, blocks, depths, frames[k], k)
  }

  lemma FirstOfPair(c: Capture, a: Block, depth: Byte)
    requires c.half == 0 && c.flags == NoFlags
    ensures var (d, frame) := Submitted(c, a, depth);
      frame == None && Holds(d, a) && d.source == c.source && d.sequence == c.sequence
  {
  }

  lemma SecondOfPair(c: Capture, a: Block, b: Block, depth: Byte)
    requires Holds(c, a)
    ensures var (d, frame) := Submitted(c, b, depth);
      && frame == Some(FrameOf(c.source, c.sequence, a, b, depth))
      && d.half == 0 && d.flags == NoFlags && d.source == c.source && d.sequence == Wrap16(c.sequence + 1)
  {
  }

  lemma EarlierCarry(source: Byte, initial: u16, blocks: seq<Block>, depths: seq<Byte>, frames: seq<L.Frame>, n: nat)
    requires |depths| == |blocks| && n <= |blocks| && 2 * |frames| <= n
    requires forall k :: 0 <= k < |frames| ==> Carries(source, initial, blocks[..n], depths[..n], frames[k], k)
    ensures forall k :: 0 <= k < |frames| ==> Carries(source, initial, blocks, depths, frames[k], k)
  {
    forall k | 0 <= k < |frames| ensures Carries(source, initial, blocks, depths, frames[k], k) {
      assert Carries(source, initial, blocks[..n], depths[..n], frames[k], k);
    }
  }

  lemma AddHalf(source: Byte, initial: u16, blocks: seq<Block>, depths: seq<Byte>, c: Capture, d: Capture,
                frames: seq<L.Frame>)
    requires |depths| == |blocks| && |blocks| % 2 == 1
    requires Pairs(source, initial, blocks[..|blocks| - 1], depths[..|blocks| - 1], c, frames)
    requires Holds(d, blocks[|blocks| - 1]) && d.source == c.source && d.sequence == c.sequence
    ensures Pairs(source, initial, blocks, depths, d, frames)
  {
    HalfOfNext(|blocks| - 1);
    EarlierCarry(source, initial, blocks, depths, frames, |blocks| - 1);
  }

  lemma AddFrame(source: Byte, initial: u16, blocks: seq<Block>, depths: seq<Byte>, c: Capture, d: Capture,
                 frames: seq<L.Frame>)
    requires |depths| == |blocks| > 0 && |blocks| % 2 == 0
    requires Pairs(source, initial, blocks[..|blocks| - 1], depths[..|blocks| - 1], c, frames)
    requires d.half == 0 && d.flags == NoFlags && d.source == c.source && d.sequence == Wrap16(c.sequence + 1)
    ensures var n := |blocks| - 1; var f := FrameOf(c.source, c.sequence, blocks[n - 1], blocks[n], depths[n]);
      Pairs(source, initial, blocks, depths, d, frames + [f])
  {
    var n, k := |blocks| - 1, |frames|;
    var f := FrameOf(c.source, c.sequence, blocks[n - 1], blocks[n], depths[n]);
    HalfOfNext(n);
    WrapSum16(initial + k, 1);
    EarlierCarry(source, initial, blocks, depths, frames, n);
    assert 2 * k == n - 1 && Carries(source, initial, blocks, depths, f, k);
  }

  lemma PendingIs(source: Byte, initial: u16, blocks: seq<Block>, depths: seq<Byte>, n: nat, c: Capture,
                  frames: seq<L.Frame>)
    requires |depths| == |blocks| && n <= |blocks| && Pairs(source, initial, blocks[..n], depths[..n], c, frames)
    ensures if n % 2 == 0 then c.half == 0 && c.flags == NoFlags else Holds(c, blocks[n - 1])
  {
  }

  lemma OneMoreBlock(source: Byte, initial: u16, blocks: seq<Block>, depths: seq<Byte>, c: Capture, frames: seq<L.Frame>)
    requires |depths| == |blocks| > 0
    requires Pairs(source, initial, blocks[..|blocks| - 1], depths[..|blocks| - 1], c, frames)
    ensures var r := Joined(frames, Submitted(c, blocks[|blocks| - 1], depths[|blocks| - 1]));
      Pairs(source, initial, blocks, depths, r.0, r.1)
  {
    var n := |blocks| - 1;
    var next := Submitted(c, blocks[n], depths[n]);
    PendingIs(source, initial, blocks, depths, n, c, frames);
    if n % 2 == 0 {
      FirstOfPair(c, blocks[n], depths[n]);
      AddHalf(source, initial, blocks, depths, c, next.0, frames);
    } else {
      SecondOfPair(c, blocks[n - 1], blocks[n], depths[n]);
      AddFrame(source, initial, blocks, depths, c, next.0, frames);
    }
  }

  /** Frame k carries blocks 2k and 2k + 1, numbered from the initial sequence, and nothing else is sent: both
      codec frames, silence where encoding failed, flags that say which are real, and the first one's time. */
  lemma {:induction false} FramesCarryPairs(source: Byte, initial: u16, blocks: seq<Block>, depths: seq<Byte>)
    requires |depths| == |blocks|
    ensures var r := After(source, initial, blocks, depths);
      Pairs(source, initial, blocks, depths, r.0, r.1)
  {
    if |blocks| > 0 {
      var n := |blocks| - 1;
      FramesCarryPairs(source, initial, blocks[..n], depths[..n]);
      var before := After(source, initial, blocks[..n], depths[..n]);
      OneMoreBlock(source, initial, blocks, depths, before.0, before.1);
    }
  }

  // ----- from microphone to headphone -----

  /** The packet playout makes of a frame. */
  function PacketOf(f: L.Frame): P.Packet { P.Packet(f.sequence, f.flags, f.payload) }

  /** What a decoder is to be handed for a block. */
  function Heard(b: Block): P.Output { if b.codecFrame.Some? then P.Deliver(b.codecFrame.value) else P.Conceal }

  lemma FrameEmits(source: Byte, sequence: u16, a: Block, b: Block, depth: Byte)
    ensures var p := PacketOf(FrameOf(source, sequence, a, b, depth));
      P.Emit(Some(p), 0) == Heard(a) && P.Emit(Some(p), 1) == Heard(b)
  {
    var payload := BytesOf(a) + BytesOf(b);
    assert payload[0..HALF_BYTES] == BytesOf(a) && payload[HALF_BYTES..HALF_BYTES + HALF_BYTES] == BytesOf(b);
  }

  /** The frame can be sent, so that it arrives as it is (AudioLink.EncodeThenDecode), and playing this half of
      its packet hands the decoder the block. */
  predicate Conveys(f: L.Frame, half: nat, b: Block)
    requires half < 2
  {
    L.Encodable(f) && P.Emit(Some(PacketOf(f)), half) == Heard(b)
  }

  lemma FrameConveys(source: Byte, sequence: u16, a: Block, b: Block, depth: Byte, half: nat)
    requires 1 <= source <= 6 && depth <= L.QUEUE_CAPACITY && half < 2
    ensures Conveys(FrameOf(source, sequence, a, b, depth), half, if half == 0 then a else b)
  {
    FrameEmits(source, sequence, a, b, depth);
  }

  lemma FrameIsThere(source: Byte, initial: u16, blocks: seq<Block>, depths: seq<Byte>, c: Capture,
                     frames: seq<L.Frame>, k: nat)
    requires |depths| == |blocks| && 2 * k + 1 < |blocks| && Pairs(source, initial, blocks, depths, c, frames)
    ensures k < |frames|
    ensures frames[k] == FrameOf(source, Wrap16(initial + k), blocks[2 * k], blocks[2 * k + 1], depths[2 * k + 1])
  {
    assert Carries(source, initial, blocks, depths, frames[k], k);
  }

  lemma PairIsHeard(source: Byte, initial: u16, blocks: seq<Block>, depths: seq<Byte>, f: L.Frame, k: nat, half: nat)
    requires |depths| == |blocks| && 1 <= source <= 6 && half < 2 && 2 * k + 1 < |blocks|
    requires depths[2 * k + 1] <= L.QUEUE_CAPACITY
    requires f == FrameOf(source, Wrap16(initial + k), blocks[2 * k], blocks[2 * k + 1], depths[2 * k + 1])
    ensures f.sequence == Wrap16(initial + k) && Conveys(f, half, blocks[2 * k + half])
  {
    FrameConveys(source, Wrap16(initial + k), blocks[2 * k], blocks[2 * k + 1], depths[2 * k + 1], half);
  }

  /** A captured block, sent in its link frame, is what the decoder is handed when its half of its packet is
      played, or a request to conceal if it could not be encoded. */
  lemma BlockIsHeard(source: Byte, initial: u16, blocks: seq<Block>, depths: seq<Byte>, k: nat, half: nat)
    requires |depths| == |blocks| && 1 <= source <= 6 && half < 2 && 2 * k + 1 < |blocks|
    requires depths[2 * k + 1] <= L.QUEUE_CAPACITY
    ensures var frames := After(source, initial, blocks, depths).1;
      && k < |frames| && frames[k].sequence == Wrap16(initial + k)
      && Conveys(frames[k], half, blocks[2 * k + half])
  {
    FramesCarryPairs(source, initial, blocks, depths);
    var r := After(source, initial, blocks, depths);
    FrameIsThere(source, initial, blocks, depths, r.0, r.1, k);
    PairIsHeard(source, initial, blocks, depths, r.1[k], k, half);
  }

  // ----- the unit in memory -----

  /** The queue of four after one more frame. */
  function Queued(frames: seq<L.Frame>, f: L.Frame): seq<L.Frame> {
    (if |frames| == L.QUEUE_CAPACITY then frames[1..] else frames) + [f]
  }

  class CaptureUnit {
    const source: Byte
    const pending: array<Byte>
    const output: Device.FrameQueue
    ghost const footprint: set<object>
    var half: nat
    var flags: Flags
    var sequence: u16
    var firstTimestamp: u32
    var codecFrames: nat
    var invalidCodecFrames: nat
    var completedPackets: nat

    ghost predicate Valid()
      reads footprint
    {
      && this in footprint && pending in footprint && output in footprint && output.entries in footprint
      && pending.Length == L.PAYLOAD_BYTES && half < 2 && 1 <= source <= 6 && output.Valid()
    }

    ghost function View(): Capture
      requires pending.Length == L.PAYLOAD_BYTES
      reads this, pending
    {
      Capture(source, half, flags, sequence, firstTimestamp, pending[..])
    }

    constructor (sourceId: Byte, initial: u16)
      requires 1 <= sourceId <= 6
      ensures Valid() && View() == Fresh(sourceId, initial) && output.frames == []
      ensures fresh(footprint)
    {
      source, half, flags, sequence, firstTimestamp := sourceId, 0, NoFlags, initial, 0;
      var buffer := new Byte[L.PAYLOAD_BYTES](_ => 0);
      var queue := new Device.FrameQueue();
      pending, output, footprint := buffer, queue, {this, buffer, queue, queue.entries};
      codecFrames, invalidCodecFrames, completedPackets := 0, 0, 0;
      new;
      assert pending[..] == seq(L.PAYLOAD_BYTES, _ => 0);
    }

    /** Copies a codec frame, or silence, into the pending half. */
    method Fill(bytes: HalfFrame)
      requires pending.Length == L.PAYLOAD_BYTES && half < 2
      modifies pending
      ensures pending[..] == Filled(old(pending[..]), half, bytes)
    {
      var at := half * HALF_BYTES;
      ghost var before, after := pending[..at], pending[at + HALF_BYTES..];
      var i := 0;
      while i < HALF_BYTES
        invariant 0 <= i <= HALF_BYTES
        invariant pending[..at] == before && pending[at + HALF_BYTES..] == after
        invariant pending[at..at + i] == bytes[..i]
      {
        pending[at + i] := bytes[i];
        i := i + 1;
      }
      assert bytes[..i] == bytes;
      assert pending[..] == pending[..at] + pending[at..at + HALF_BYTES] + pending[at + HALF_BYTES..];
    }

    method Mark(b: Block)
      modifies this`flags, this`invalidCodecFrames
      ensures flags == Flagged(old(flags), half, b)
    {
      if b.codecFrame.Some? {
        flags := if half == 0 then flags.(first := true) else flags.(second := true);
      } else {
        invalidCodecFrames := invalidCodecFrames + 1;
      }
      if b.discontinuity {
        flags := flags.(discontinuity := true);
      }
    }

    /** Queues the frame of a completed pair; a full queue gives up its oldest, so this always succeeds. */
    method Complete() returns (queued: bool)
      requires Valid()
      modifies this, output, output.entries
      ensures Valid() && queued && pending[..] == old(pending[..])
      ensures var c := old(View());
        && View() == c.(half := 0, flags := NoFlags, sequence := Wrap16(c.sequence + 1))
        && output.frames == Queued(old(output.frames),
             L.Frame(L.LOCAL_AUDIO, c.source, c.flags.Value(), c.sequence, c.firstTimestamp, |old(output.frames)|,
                     c.payload))
    {
      var frame := L.Frame(L.LOCAL_AUDIO, source, flags.Value(), sequence, firstTimestamp, output.count, pending[..]);
      queued := output.Push(frame);
      sequence, half, flags := Wrap16(sequence + 1), 0, NoFlags;
      codecFrames := codecFrames + 1;
      if queued {
        completedPackets := completedPackets + 1;
      }
    }

    method Submit(b: Block) returns (queued: bool)
      requires Valid()
      modifies this, pending, output, output.entries
      ensures Valid() && queued
      ensures var (c, frame) := Submitted(old(View()), b, |old(output.frames)|);
        && View() == c
        && output.frames == if frame.None? then old(output.frames) else Queued(old(output.frames), frame.value)
    {
      Fill(BytesOf(b));
      Mark(b);
      if half == 0 {
        firstTimestamp, half := b.timestamp, 1;
        codecFrames := codecFrames + 1;
        return true;
      }
      queued := Complete();
    }

    method Pop() returns (f: Option<L.Frame>)
      requires Valid()
      modifies output
      ensures Valid()
      ensures old(output.frames) == [] ==> f == None && output.frames == []
      ensures old(output.frames) != [] ==> f == Some(old(output.frames)[0]) && output.frames == old(output.frames)[1..]
    {
      f := output.Pop();
    }
  }
}
