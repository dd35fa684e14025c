/** The link as it lives in memory: framing over byte buffers and the overwrite-oldest receive queue. */
module AudioLinkDevice {
  import opened Words
  import opened Rings
  import opened Crc
  import AudioLink

  type Frame = AudioLink.Frame

  /** Extends what has been written, leaving the buffer from limit on alone. */
  method AppendLE(wire: array<Byte>, at: nat, value: nat, n: nat, ghost limit: nat)
    requires at + n <= limit <= wire.Length
    modifies wire
    ensures wire[..at + n] == old(wire[..at]) + ToLE(value, n)
    ensures wire[limit..] == old(wire[limit..])
  {
    ghost var was := wire[at + n..];
    WriteLE(wire, at, value, n);
    assert wire[at + n..] == was;
    assert wire[limit..] == wire[at + n..][limit - at - n..];
    assert wire[..at + n] == wire[..at] + wire[at..at + n];
  }

  method AppendBytes(wire: array<Byte>, at: nat, bytes: seq<Byte>, ghost limit: nat)
    requires at + |bytes| <= limit <= wire.Length
    modifies wire
    ensures wire[..at + |bytes|] == old(wire[..at]) + bytes
    ensures wire[limit..] == old(wire[limit..])
  {
    var i := 0;
    while i < |bytes|
      invariant 0 <= i <= |bytes|
      invariant wire[..at + i] == old(wire[..at]) + bytes[..i]
      invariant wire[limit..] == old(wire[limit..])
    {
      ghost var was := wire[..at + i];
      wire[at + i] := bytes[i];
      assert wire[..at + i + 1] == was + [bytes[i]];
      i := i + 1;
    }
  }

  method WriteCovered(f: Frame, wire: array<Byte>, ghost limit: nat)
    requires AudioLink.FRAME_BYTES <= limit <= wire.Length
    modifies wire
    ensures wire[..AudioLink.COVERED_BYTES] == AudioLink.Covered(f)
    ensures wire[limit..] == old(wire[limit..])
  {
    AppendLE(wire, 0, AudioLink.MAGIC, 2, limit);
    AppendBytes(wire, 2, [AudioLink.VERSION, f.kind, f.sourceId, f.flags], limit);
    AppendLE(wire, 6, f.sequence, 2, limit);
    AppendLE(wire, 8, f.timestamp, 4, limit);
    AppendLE(wire, 12, AudioLink.PAYLOAD_BYTES, 2, limit);
    AppendBytes(wire, 14, [f.queueDepth, 0], limit);
    AppendBytes(wire, 16, f.payload, limit);
  }

  method EncodeFrame(f: Frame, wire: array<Byte>) returns (ok: bool)
    modifies wire
    ensures ok == AudioLink.Encode(f, wire.Length).Some?
    ensures ok ==> wire[..] == AudioLink.Encode(f, wire.Length).value + old(wire[AudioLink.FRAME_BYTES..])
    ensures !ok ==> wire[..] == old(wire[..])
  {
    if !AudioLink.ValidFrame(f) || wire.Length < AudioLink.FRAME_BYTES
      || f.queueDepth > AudioLink.QUEUE_CAPACITY {
      return false;
    }
    WriteCovered(f, wire, AudioLink.FRAME_BYTES);
    var crc := ComputeCrc16(wire, AudioLink.COVERED_BYTES);
    AppendLE(wire, AudioLink.COVERED_BYTES, crc, 2, AudioLink.FRAME_BYTES);
    assert wire[..] == wire[..AudioLink.FRAME_BYTES] + wire[AudioLink.FRAME_BYTES..];
    return true;
  }

  method CheckHeader(wire: array<Byte>) returns (ok: bool)
    requires wire.Length >= AudioLink.HEADER_BYTES
    ensures ok == AudioLink.HeaderHolds(wire[..])
  {
    var magic := ReadLE(wire, 0, 2);
    var payloadBytes := ReadLE(wire, 12, 2);
    assert wire[..][0..2] == wire[0..2] && wire[..][12..14] == wire[12..14];
    ok := magic == AudioLink.MAGIC && wire[2] == AudioLink.VERSION && AudioLink.ValidKind(wire[3])
       && payloadBytes == AudioLink.PAYLOAD_BYTES && wire[14] <= AudioLink.QUEUE_CAPACITY && wire[15] == 0;
  }

  method CheckTrailer(wire: array<Byte>) returns (ok: bool)
    requires wire.Length == AudioLink.FRAME_BYTES
    ensures ok == AudioLink.ChecksumHolds(wire[..])
  {
    var stored := ReadLE(wire, AudioLink.COVERED_BYTES, 2);
    var crc := ComputeCrc16(wire, AudioLink.COVERED_BYTES);
    assert wire[..][96..98] == wire[96..98] && wire[..][..96] == wire[..96];
    ok := stored == crc;
  }

  method ReadFields(wire: array<Byte>) returns (f: Frame)
    requires wire.Length == AudioLink.FRAME_BYTES
    ensures f == AudioLink.Fields(wire[..])
  {
    var sequence := ReadLE(wire, 6, 2);
    var timestamp := ReadLE(wire, 8, 4);
    assert wire[..][6..8] == wire[6..8] && wire[..][8..12] == wire[8..12] && wire[..][16..96] == wire[16..96];
    EncodeDecodeLE(wire[6..8]);
    EncodeDecodeLE(wire[8..12]);
    WordRanges();
    f := AudioLink.Frame(wire[3], wire[4], wire[5], sequence, timestamp, wire[14], wire[16..96]);
  }

  method DecodeFrame(wire: array<Byte>) returns (f: Option<Frame>)
    ensures f == AudioLink.Decode(wire[..])
  {
    if wire.Length != AudioLink.FRAME_BYTES {
      return None;
    }
    var header := CheckHeader(wire);
    if !header {
      return None;
    }
    var trailer := CheckTrailer(wire);
    if !trailer {
      return None;
    }
    var fields := ReadFields(wire);
    f := if AudioLink.ValidFrame(fields) then Some(fields) else None;
  }

  /** The receive queue: four entries, the newest overwriting the oldest when full. */
  class FrameQueue {
    const entries: array<Frame>
    var head: nat
    var count: nat
    var pushes: nat
    var pops: nat
    var overruns: nat
    ghost var frames: seq<Frame>

    ghost predicate Valid()
      reads this, entries
    {
      && entries.Length == CAPACITY && head < CAPACITY && count <= CAPACITY
      && frames == Ring(entries[..], head, count)
      && pushes == pops + overruns + |frames|
      && forall f :: f in frames ==> AudioLink.ValidFrame(f)
    }

    constructor ()
      ensures Valid() && frames == [] && fresh(entries)
      ensures pushes == pops == overruns == 0
    {
      var blank := AudioLink.Frame(0, 0, 0, 0, 0, 0, seq(AudioLink.PAYLOAD_BYTES, _ => 0));
      entries := new Frame[CAPACITY](_ => blank);
      head, count, pushes, pops, overruns, frames := 0, 0, 0, 0, 0, [];
    }

    /** A valid frame always gets in; Valid keeps the books: every frame ever pushed was popped,
        overwritten, or is still queued. */
    method Push(f: Frame) returns (ok: bool)
      requires Valid()
      modifies this, entries
      ensures Valid() && ok == AudioLink.ValidFrame(f)
      ensures !ok ==> frames == old(frames) && pushes == old(pushes) && overruns == old(overruns)
      ensures ok ==> pushes == old(pushes) + 1
      ensures ok && |old(frames)| < CAPACITY ==> frames == old(frames) + [f] && overruns == old(overruns)
      ensures ok && |old(frames)| == CAPACITY ==> frames == old(frames)[1..] + [f] && overruns == old(overruns) + 1
      ensures pops == old(pops)
    {
      if !AudioLink.ValidFrame(f) {
        return false;
      }
      if count == CAPACITY {
        DropOldest();
        overruns := overruns + 1;
      }
      Append(f);
      pushes := pushes + 1;
      return true;
    }

    ghost predicate Ringed()
      reads this, entries
    {
      && entries.Length == CAPACITY && head < CAPACITY && count <= CAPACITY
      && frames == Ring(entries[..], head, count)
    }

    method DropOldest()
      requires Ringed() && |frames| > 0
      modifies this`head, this`count, this`frames
      ensures Ringed() && frames == old(frames)[1..]
    {
      head := (head + 1) % CAPACITY;
      count := count - 1;
      frames := frames[1..];
    }

    method Append(f: Frame)
      requires Ringed() && |frames| < CAPACITY
      modifies this`count, this`frames, entries
      ensures Ringed() && frames == old(frames) + [f]
    {
      var tail := (head + count) % CAPACITY;
      ghost var was := entries[..];
      frames := frames + [f];
      assert frames == Ring(was[tail := f], head, count + 1) by {
        RingAppend(was, head, count, f);
      }
      entries[tail] := f;
      assert entries[..] == was[tail := f];
      count := count + 1;
    }

    method Pop() returns (f: Option<Frame>)
      requires Valid()
      modifies this
      ensures Valid()
      ensures old(frames) == [] ==> f == None && frames == [] && pops == old(pops)
      ensures old(frames) != [] ==> f == Some(old(frames)[0]) && frames == old(frames)[1..] && pops == old(pops) + 1
      ensures pushes == old(pushes) && overruns == old(overruns)
    {
      if count == 0 {
        return None;
      }
      RingAt(entries[..], head, count, 0);
      f := Some(entries[head]);
      DropOldest();
      pops := pops + 1;
    }
  }
}
