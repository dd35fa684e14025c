/** The record store as it runs: building and checking records in byte buffers, choosing between the two
    slots of a flash part, and writing with read-back. */
module ConfigStore {
  import opened Words
  import opened Crc
  import Rec = ConfigRecord
  import Store = TwoSlotStore

  type Bytes = seq<Byte>

  /** A flash part. Whether a read succeeds and what a write does is up to the environment. */
  class Flash {
    var slots: Store.Slots

    predicate Valid()
      reads this
    {
      |slots.first| == Rec.SLOT_BYTES && |slots.second| == Rec.SLOT_BYTES
    }

    constructor (first: Bytes, second: Bytes)
      requires |first| == Rec.SLOT_BYTES && |second| == Rec.SLOT_BYTES
      ensures Valid() && slots == Store.Slots(first, second)
    {
      slots := Store.Slots(first, second);
    }

    method ReadSlot(slot: nat, record: array<Byte>, readable: bool) returns (ok: bool)
      requires Valid() && slot < 2 && record.Length == Rec.SLOT_BYTES
      modifies record
      ensures ok == readable && (ok ==> record[..] == slots.At(slot))
    {
      if !readable {
        return false;
      }
      var bytes := slots.At(slot);
      var i := 0;
      while i < Rec.SLOT_BYTES
        invariant 0 <= i <= Rec.SLOT_BYTES && record[..i] == bytes[..i]
      {
        record[i] := bytes[i];
        i := i + 1;
      }
      return true;
    }

    method WriteSlot(slot: nat, w: Store.Write) returns (ok: bool)
      requires Valid() && slot < 2 && |w.after| == Rec.SLOT_BYTES
      modifies this
      ensures Valid() && ok == w.reported && slots == old(slots).Put(slot, w.after)
    {
      slots := slots.Put(slot, w.after);
      return w.reported;
    }
  }

  /** Lays out the record for a payload in a cleared buffer. */
  method BuildRecord(l: Rec.Layout, generation: u32, payload: array<Byte>, record: array<Byte>)
    requires Rec.ValidLayout(l) && payload.Length == Rec.MAX_PAYLOAD_BYTES && record.Length == Rec.SLOT_BYTES
    requires payload != record && forall i :: 0 <= i < record.Length ==> record[i] == 0
    modifies record
    ensures record[..] == Rec.Image(l, generation, payload[..l.length])
  {
    BuildCovered(l, generation, payload, record);
    WriteTrailer(record);
  }

  method WriteTrailer(record: array<Byte>)
    requires record.Length == Rec.SLOT_BYTES
    modifies record
    ensures var covered := old(record[..Rec.CRC_OFFSET]); record[..] == covered + ToLE(Crc32(covered), 4)
  {
    var crc := ComputeCrc32(record, Rec.CRC_OFFSET);
    WriteLE(record, Rec.CRC_OFFSET, crc, 4);
    assert record[..] == record[..Rec.CRC_OFFSET] + record[Rec.CRC_OFFSET..Rec.CRC_OFFSET + 4];
  }

  method BuildCovered(l: Rec.Layout, generation: u32, payload: array<Byte>, record: array<Byte>)
    requires Rec.ValidLayout(l) && payload.Length == Rec.MAX_PAYLOAD_BYTES && record.Length == Rec.SLOT_BYTES
    requires payload != record && forall i :: 0 <= i < record.Length ==> record[i] == 0
    modifies record
    ensures record[..Rec.CRC_OFFSET] == Rec.Covered(l, generation, payload[..l.length])
  {
    WriteHeader(l, generation, record);
    ghost var rest := record[12 + l.length..];
    CopyPayload(payload, record, l.length);
    assert record[12 + l.length..76] == rest[..Rec.MAX_PAYLOAD_BYTES - l.length];
    assert rest[..Rec.MAX_PAYLOAD_BYTES - l.length] == Rec.Padding(Rec.MAX_PAYLOAD_BYTES - l.length);
    assert record[..76] == record[..12] + record[12..12 + l.length] + record[12 + l.length..76];
  }

  method WriteHeader(l: Rec.Layout, generation: u32, record: array<Byte>)
    requires record.Length == Rec.SLOT_BYTES && forall i :: 0 <= i < record.Length ==> record[i] == 0
    modifies record
    ensures record[..12] == Rec.Header(l, generation)
    ensures forall i :: 12 <= i < record.Length ==> record[i] == 0
  {
    ghost var rest := record[12..];
    WriteLE(record, 0, Rec.MAGIC, 4);
    assert record[12..] == record[4..][8..] == rest;
    ghost var start := record[..4];
    WriteLE(record, 4, l.schema, 2);
    assert record[..6] == start + ToLE(l.schema, 2);
    assert record[12..] == record[6..][6..] == rest;
    start := record[..6];
    WriteLE(record, 6, l.length, 2);
    assert record[..8] == start + ToLE(l.length, 2);
    assert record[12..] == record[8..][4..] == rest;
    start := record[..8];
    WriteLE(record, 8, generation, 4);
    assert record[..12] == start + ToLE(generation, 4);
    assert record[12..] == rest;
    forall i | 12 <= i < record.Length ensures record[i] == 0 {
      assert record[i] == record[12..][i - 12] == rest[i - 12];
    }
  }

  method CopyPayload(payload: array<Byte>, record: array<Byte>, length: nat)
    requires length <= Rec.MAX_PAYLOAD_BYTES == payload.Length && record.Length == Rec.SLOT_BYTES && payload != record
    modifies record
    ensures record[..12] == old(record[..12]) && record[12..12 + length] == payload[..length]
    ensures record[12 + length..] == old(record[12 + length..])
  {
    var i := 0;
    while i < length
      invariant 0 <= i <= length && record[..12] == old(record[..12])
      invariant record[12..12 + i] == payload[..i]
      invariant record[12 + length..] == old(record[12 + length..])
    {
      record[12 + i] := payload[i];
      i := i + 1;
    }
  }

  /** The generation of a readable record. */
  method CheckRecord(l: Rec.Layout, record: array<Byte>) returns (generation: Option<u32>)
    requires Rec.ValidLayout(l) && record.Length == Rec.SLOT_BYTES
    ensures generation == if Rec.Readable(l, record[..]) then Some(Rec.Generation(record[..])) else None
  {
    var header := CheckHeader(l, record);
    var sealed := CheckTrailer(record);
    if !header || !sealed {
      return None;
    }
    var g := ReadLE(record, 8, 4);
    assert record[..][8..12] == record[8..12];
    EncodeDecodeLE(record[8..12]);
    WordRanges();
    generation := if g != 0 then Some(g) else None;
  }

  method CheckHeader(l: Rec.Layout, record: array<Byte>) returns (ok: bool)
    requires record.Length == Rec.SLOT_BYTES
    ensures ok == Rec.HeaderHolds(l, record[..])
  {
    var magic := ReadLE(record, 0, 4);
    var schema := ReadLE(record, 4, 2);
    var length := ReadLE(record, 6, 2);
    assert record[..][0..4] == record[0..4] && record[..][4..6] == record[4..6] && record[..][6..8] == record[6..8];
    ok := magic == Rec.MAGIC && schema == l.schema && length == l.length;
  }

  method CheckTrailer(record: array<Byte>) returns (ok: bool)
    requires record.Length == Rec.SLOT_BYTES
    ensures ok == Rec.ChecksumHolds(record[..])
  {
    var stored := ReadLE(record, Rec.CRC_OFFSET, 4);
    var crc := ComputeCrc32(record, Rec.CRC_OFFSET);
    assert record[..][76..80] == record[76..80] && record[..][..76] == record[..76];
    ok := stored == crc;
  }

  method SameBytes(a: array<Byte>, b: array<Byte>) returns (same: bool)
    requires a.Length == b.Length
    ensures same == (a[..] == b[..])
  {
    var i := 0;
    while i < a.Length
      invariant 0 <= i <= a.Length && a[..i] == b[..i]
    {
      if a[i] != b[i] {
        assert a[..][i] != b[..][i];
        return false;
      }
      i := i + 1;
    }
    assert a[..] == a[..i] && b[..] == b[..i];
    return true;
  }

  /** A write counts as reported only when the slot could also be read back. */
  function Verified(w: Store.Write, readBack: bool): Store.Write { w.(reported := w.reported && readBack) }

  function Found(l: Rec.Layout, bytes: Bytes): Option<u32> {
    if Rec.Readable(l, bytes) then Some(Rec.Generation(bytes)) else None
  }

  function PayloadOf(l: Rec.Layout, bytes: Bytes): Bytes
    requires Rec.ValidLayout(l) && |bytes| == Rec.SLOT_BYTES
  {
    bytes[Rec.HEADER_BYTES..Rec.HEADER_BYTES + l.length]
  }

  lemma LoadCases(l: Rec.Layout, h: Store.Handle, slots: Store.Slots, a: Option<u32>, b: Option<u32>)
    requires Rec.ValidLayout(l) && a == Found(l, slots.first) && b == Found(l, slots.second)
    ensures Store.Load(Rec.Format(l), h, slots) ==
      if a.None? && b.None? then (h.(loaded := false), None)
      else if b.Some? && (a.None? || Store.Newer(b.value, a.value))
      then (Store.Handle(b.value, 1, true), Some(PayloadOf(l, slots.second)))
      else (Store.Handle(a.value, 0, true), Some(PayloadOf(l, slots.first)))
  {
  }

  lemma SaveCases(l: Rec.Layout, h: Store.Handle, slots: Store.Slots, p: Bytes, w: Store.Write)
    requires Rec.ValidLayout(l) && |p| == l.length
    ensures Store.Save(Rec.Format(l), h, slots, p, w) ==
      if h.generation == MAX_U32 then (h, slots, false)
      else
        var next, target := Store.NextGeneration(h), Store.Target(h);
        if w.reported && w.after == Rec.Image(l, next, p)
        then (Store.Handle(next, target, true), slots.Put(target, w.after), true)
        else (h, slots.Put(target, w.after), false)
  {
  }

  class ConfigStore {
    const flash: Flash
    const layout: Rec.Layout
    var generation: u32
    var activeSlot: nat
    var loaded: bool
    var loadFailures: nat
    var writeFailures: nat

    ghost predicate Valid()
      reads this, flash
    {
      Rec.ValidLayout(layout) && flash.Valid() && activeSlot < 2
    }

    ghost function Handle(): Store.Handle
      reads this
    {
      Store.Handle(generation, activeSlot, loaded)
    }

    constructor (part: Flash, l: Rec.Layout)
      requires Rec.ValidLayout(l) && part.Valid()
      ensures Valid() && flash == part && layout == l && Handle() == Store.Blank
    {
      flash, layout := part, l;
      generation, activeSlot, loaded, loadFailures, writeFailures := 0, 0, false, 0, 0;
    }

    method ReadRecord(slot: nat, readable: bool) returns (record: array<Byte>, found: Option<u32>)
      requires Valid() && slot < 2
      ensures fresh(record) && record.Length == Rec.SLOT_BYTES
      ensures found == if readable then Found(layout, flash.slots.At(slot)) else None
      ensures readable ==> record[..] == flash.slots.At(slot)
    {
      record := new Byte[Rec.SLOT_BYTES];
      found := None;
      var ok := flash.ReadSlot(slot, record, readable);
      if ok {
        found := CheckRecord(layout, record);
      }
    }

    /** Reads both slots and takes the newer readable record; a slot that cannot be read counts as unreadable. */
    method Load(payload: array<Byte>, legible: (bool, bool)) returns (ok: bool)
      requires Valid() && payload.Length == Rec.MAX_PAYLOAD_BYTES
      modifies this, payload
      ensures Valid()
      ensures var (handle, found) := Store.Load(Rec.Format(layout), old(Handle()), Store.Seen(flash.slots, legible));
        && Handle() == handle && ok == found.Some?
        && (ok ==> payload[..layout.length] == found.value && payload[layout.length..] == old(payload[layout.length..]))
        && (!ok ==> payload[..] == old(payload[..]))
      ensures loadFailures == old(loadFailures) + (if ok then 0 else 1) && writeFailures == old(writeFailures)
    {
      var first, a := ReadRecord(0, legible.0);
      var second, b := ReadRecord(1, legible.1);
      LoadCases(layout, Handle(), Store.Seen(flash.slots, legible), a, b);
      if a.None? && b.None? {
        loadFailures := loadFailures + 1;
        loaded := false;
        return false;
      }
      if b.Some? && (a.None? || Store.Newer(b.value, a.value)) {
        Adopt(1, b.value, second, payload);
      } else {
        Adopt(0, a.value, first, payload);
      }
      return true;
    }

    /** Stands on the record found in a slot. */
    method Adopt(slot: nat, found: u32, record: array<Byte>, payload: array<Byte>)
      requires Valid() && slot < 2 && record.Length == Rec.SLOT_BYTES && payload.Length == Rec.MAX_PAYLOAD_BYTES
      requires record != payload
      modifies this, payload
      ensures Valid() && Handle() == Store.Handle(found, slot, true)
      ensures payload[..layout.length] == old(PayloadOf(layout, record[..]))
      ensures payload[layout.length..] == old(payload[layout.length..])
      ensures loadFailures == old(loadFailures) && writeFailures == old(writeFailures)
    {
      TakePayload(record, payload, layout.length);
      generation, activeSlot, loaded := found, slot, true;
    }

    static method TakePayload(record: array<Byte>, payload: array<Byte>, length: nat)
      requires record.Length == Rec.SLOT_BYTES && payload.Length == Rec.MAX_PAYLOAD_BYTES && length <= payload.Length
      requires record != payload
      modifies payload
      ensures payload[..length] == record[..][Rec.HEADER_BYTES..Rec.HEADER_BYTES + length]
      ensures payload[length..] == old(payload[length..])
    {
      var i := 0;
      while i < length
        invariant 0 <= i <= length && payload[..i] == record[12..12 + i]
        invariant payload[length..] == old(payload[length..])
      {
        payload[i] := record[12 + i];
        i := i + 1;
      }
      assert record[..][12..12 + length] == record[12..12 + length];
    }

    /** Writes the slot not in use with the next generation and commits only what reads back identical. */
    method Save(payload: array<Byte>, w: Store.Write, readBack: bool) returns (ok: bool)
      requires Valid() && payload.Length == Rec.MAX_PAYLOAD_BYTES && |w.after| == Rec.SLOT_BYTES
      modifies this, flash
      ensures Valid()
      ensures (Handle(), flash.slots, ok) ==
        Store.Save(Rec.Format(layout), old(Handle()), old(flash.slots), payload[..layout.length],
                   Verified(w, readBack))
      ensures loadFailures == old(loadFailures)
    {
      ghost var h, slots, p := Handle(), flash.slots, payload[..layout.length];
      SaveCases(layout, h, slots, p, Verified(w, readBack));
      if generation == MAX_U32 {
        return false;
      }
      var next := if loaded then generation + 1 else 1;
      var target := if loaded then 1 - activeSlot else 0;
      ok := WriteVerified(next, target, payload, w, readBack, p);
      Commit(ok, next, target);
    }

    method Commit(ok: bool, next: u32, target: nat)
      requires Valid() && target < 2
      modifies this
      ensures Valid() && loadFailures == old(loadFailures)
      ensures Handle() == if ok then Store.Handle(next, target, true) else old(Handle())
    {
      if ok {
        generation, activeSlot, loaded := next, target, true;
      } else {
        writeFailures := writeFailures + 1;
      }
    }

    method WriteVerified(next: u32, target: nat, payload: array<Byte>, w: Store.Write, readBack: bool, ghost p: Bytes)
      returns (ok: bool)
      requires Valid() && payload.Length == Rec.MAX_PAYLOAD_BYTES && |w.after| == Rec.SLOT_BYTES
      requires next != 0 && target < 2 && p == payload[..layout.length]
      modifies flash
      ensures Valid() && flash.slots == old(flash.slots).Put(target, w.after)
      ensures ok == (w.reported && readBack && w.after == Rec.Image(layout, next, p))
    {
      var record := new Byte[Rec.SLOT_BYTES](_ => 0);
      BuildRecord(layout, next, payload, record);
      var written := flash.WriteSlot(target, w);
      if !written {
        return false;
      }
      var verify, found := ReadRecord(target, readBack);
      var same := SameBytes(record, verify);
      ImageDecodes(next, p);
      ok := found == Some(next) && same;
    }

    lemma ImageDecodes(next: u32, payload: Bytes)
      requires Rec.ValidLayout(layout) && |payload| == layout.length && next != 0
      ensures var image := Rec.Image(layout, next, payload);
        Rec.Readable(layout, image) && Rec.Generation(image) == next
    {
      Rec.ImageDecodes(layout, next, payload);
    }
  }
}
