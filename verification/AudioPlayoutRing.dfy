/** The jitter buffer as it lives in memory: each source is a four-entry ring whose methods are
    proved against the abstract queue operations of AudioPlayout. */
module AudioPlayoutRing {
  import opened Words
  import opened AudioPlayout
  import opened Rings

  /** The four entries with their head and count; packets is the abstract queue they hold. */
  class PacketRing {
    const entries: array<Packet>
    var head: nat
    var count: nat
    ghost var packets: seq<Packet>

    ghost predicate Valid()
      reads this, entries
    {
      && entries.Length == QUEUE_CAPACITY && head < QUEUE_CAPACITY && count <= QUEUE_CAPACITY
      && packets == Ring(entries[..], head, count)
    }

    constructor ()
      ensures Valid() && packets == [] && fresh(entries)
    {
      var blank := Packet(0, 0, seq(PAYLOAD_BYTES, _ => 0));
      entries := new Packet[QUEUE_CAPACITY](_ => blank);
      head, count, packets := 0, 0, [];
    }

    method At(offset: nat) returns (p: Packet)
      requires Valid() && offset < |packets|
      ensures p == packets[offset]
    {
      RingAt(entries[..], head, count, offset);
      p := entries[(head + offset) % QUEUE_CAPACITY];
    }

    method DropFront()
      requires Valid() && |packets| > 0
      modifies this
      ensures Valid() && packets == old(packets)[1..]
    {
      head := (head + 1) % QUEUE_CAPACITY;
      count := count - 1;
      packets := packets[1..];
    }

    method Append(p: Packet)
      requires Valid() && |packets| < QUEUE_CAPACITY
      modifies this, entries
      ensures Valid() && packets == old(packets) + [p]
    {
      var tail := (head + count) % QUEUE_CAPACITY;
      ghost var was := entries[..];
      packets := packets + [p];
      assert packets == Ring(was[tail := p], head, count + 1) by {
        RingAppend(was, head, count, p);
      }
      entries[tail] := p;
      assert entries[..] == was[tail := p];
      count := count + 1;
    }

    method Holds(sequence: u16) returns (found: bool)
      requires Valid()
      ensures found <==> exists i :: 0 <= i < |packets| && packets[i].sequence == sequence
    {
      var offset := 0;
      while offset < count
        invariant 0 <= offset <= count
        invariant forall i :: 0 <= i < offset ==> packets[i].sequence != sequence
      {
        var p := At(offset);
        if p.sequence == sequence {
          return true;
        }
        offset := offset + 1;
      }
      return false;
    }

    method DiscardStaleFront(expectedSequence: u16) returns (dropped: nat)
      requires Valid()
      modifies this
      ensures Valid() && packets == DropStale(old(packets), expectedSequence)
      ensures dropped == |old(packets)| - |packets|
    {
      dropped := 0;
      while count > 0
        invariant Valid() && dropped == |old(packets)| - |packets|
        invariant DropStale(packets, expectedSequence) == DropStale(old(packets), expectedSequence)
      {
        var front := At(0);
        if front.sequence == expectedSequence || After16(front.sequence, expectedSequence) {
          return;
        }
        DropFront();
        dropped := dropped + 1;
      }
    }

    /** Drops stale packets, then removes the one at the front when it is the one due. */
    method TakeDue(expectedSequence: u16) returns (due: Option<Packet>, dropped: nat)
      requires Valid()
      modifies this
      ensures Valid()
      ensures (due, packets) == AudioPlayout.TakeDue(old(packets), expectedSequence)
      ensures dropped == |old(packets)| - |DropStale(old(packets), expectedSequence)|
    {
      dropped := DiscardStaleFront(expectedSequence);
      due := None;
      if count > 0 {
        var front := At(0);
        if front.sequence == expectedSequence {
          due := Some(front);
          DropFront();
        }
      }
    }
  }

  class Source {
    const ring: PacketRing
    var expectedSequence: u16
    var expectedValid: bool
    var currentHalf: nat
    /** The loaded packet, if any: the flag and the copy of the original in one. */
    var current: Option<Packet>
    var accepted: nat
    var duplicates: nat
    var stale: nat
    var overruns: nat
    var plcFrames: nat
    var deliveredFrames: nat

    ghost predicate Valid()
      reads this, ring, ring.entries
    {
      ring.Valid() && WellFormed(View())
    }

    ghost function View(): Playout
      reads this, ring
    {
      Playout(ring.packets, expectedValid, expectedSequence, currentHalf, current,
              accepted, duplicates, stale, overruns, plcFrames, deliveredFrames)
    }

    constructor ()
      ensures Valid() && View() == Initial && fresh(ring) && fresh(ring.entries)
    {
      ring := new PacketRing();
      expectedSequence, expectedValid, currentHalf, current := 0, false, 0, None;
      accepted, duplicates, stale, overruns, plcFrames, deliveredFrames := 0, 0, 0, 0, 0, 0;
    }

    method JudgeSequence(sequence: u16) returns (verdict: Verdict)
      requires Valid()
      ensures verdict == Judge(View(), sequence)
    {
      if expectedValid && sequence != expectedSequence && !After16(sequence, expectedSequence) {
        return TooOld;
      }
      var queued := ring.Holds(sequence);
      if queued {
        return Duplicate;
      }
      if ring.count > 0 {
        var last := ring.At(ring.count - 1);
        if !After16(sequence, last.sequence) {
          return TooOld;
        }
      }
      return Accept;
    }

    method InsertPacket(p: Packet)
      requires Valid()
      modifies this, ring, ring.entries
      ensures ring.Valid()
      ensures View() == Insert(old(View()), p)
    {
      if ring.count == QUEUE_CAPACITY {
        ring.DropFront();
        overruns := overruns + 1;
      }
      ring.Append(p);
      accepted := accepted + 1;
    }

    method Push(p: Packet) returns (ok: bool)
      requires Valid()
      modifies this, ring, ring.entries
      ensures Valid()
      ensures (View(), ok) == AudioPlayout.Push(old(View()), p)
    {
      var verdict := JudgeSequence(p.sequence);
      ok := verdict.Accept?;
      match verdict
      case Accept => InsertPacket(p);
      case Duplicate => duplicates := duplicates + 1;
      case TooOld => stale := stale + 1;
    }

    method LoadDue()
      requires Valid() && expectedValid
      modifies this, ring
      ensures ring.Valid()
      ensures View() == Load(old(View()))
    {
      var due, dropped := ring.TakeDue(expectedSequence);
      stale := stale + dropped;
      current := due;
    }

    method Next() returns (frame: seq<Byte>, usePlc: bool)
      requires Valid()
      modifies this, ring
      ensures Valid()
      ensures View() == AudioPlayout.Next(old(View())).0
      ensures AudioPlayout.Next(old(View())).1 == if usePlc then Conceal else Deliver(frame)
      ensures usePlc ==> frame == seq(CODEC_FRAME_BYTES, _ => 0)
    {
      if !expectedValid && ring.count == 0 {
        plcFrames := plcFrames + 1;
        return seq(CODEC_FRAME_BYTES, _ => 0), true;
      }
      BeginCall();
      frame, usePlc := EmitHalf();
    }

    /** Starts the clock if it stands still, and loads a packet before a first half. */
    method BeginCall()
      requires Valid() && (expectedValid || ring.count > 0)
      modifies this, ring
      ensures ring.Valid()
      ensures var s := Start(old(View())); View() == if s.half == 0 then Load(s) else s
    {
      if !expectedValid {
        var front := ring.At(0);
        expectedSequence := front.sequence;
        expectedValid := true;
      }
      if currentHalf == 0 {
        LoadDue();
      }
    }

    method EmitHalf() returns (frame: seq<Byte>, usePlc: bool)
      requires currentHalf < 2
      modifies this
      ensures var s := old(View()); var out := Emit(s.current, s.half);
        && View() == Advance(Count(s, out))
        && out == if usePlc then Conceal else Deliver(frame)
      ensures usePlc ==> frame == seq(CODEC_FRAME_BYTES, _ => 0)
    {
      if current.Some? && current.value.HalfValid(currentHalf) {
        frame, usePlc := current.value.Half(currentHalf), false;
        deliveredFrames := deliveredFrames + 1;
      } else {
        frame, usePlc := seq(CODEC_FRAME_BYTES, _ => 0), true;
        plcFrames := plcFrames + 1;
      }
      currentHalf := currentHalf + 1;
      if currentHalf == 2 {
        currentHalf := 0;
        current := None;
        expectedSequence := Wrap16(expectedSequence + 1);
      }
    }
  }
}
