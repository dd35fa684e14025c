/** The boot-state store in memory: payload buffers over the two-slot store, and the checks around them. */
module BootStateStore {
  import opened Words
  import opened BootPolicy
  import opened BootStateCodec
  import opened ConfigStore
  import Rec = ConfigRecord
  import Store = TwoSlotStore

  method EncodePayload(s: State) returns (payload: array<Byte>)
    ensures fresh(payload) && payload.Length == Rec.MAX_PAYLOAD_BYTES && payload[..12] == EncodeState(s)
  {
    payload := new Byte[Rec.MAX_PAYLOAD_BYTES](_ => 0);
    WriteLE(payload, 0, s.recordVersion, 4);
    ghost var start := payload[..4];
    assert forall i :: 8 <= i < 64 ==> payload[i] == payload[4..][i - 4] == 0;
    WriteLE(payload, 4, s.minimumVersion, 4);
    assert payload[..8] == start + ToLE(s.minimumVersion, 4);
    assert payload[11] == payload[8..][3] == 0;
    payload[8], payload[9], payload[10] := s.confirmed, s.pending, s.attempts;
    assert payload[..12] == payload[..8] + [payload[8], payload[9], payload[10], payload[11]];
  }

  method DecodePayload(payload: array<Byte>) returns (state: Option<State>)
    requires payload.Length == Rec.MAX_PAYLOAD_BYTES
    ensures state == DecodeState(payload[..12])
  {
    if payload[11] != 0 {
      return None;
    }
    var version := ReadLE(payload, 0, 4);
    var minimum := ReadLE(payload, 4, 4);
    assert payload[..12][0..4] == payload[0..4] && payload[..12][4..8] == payload[4..8];
    EncodeDecodeLE(payload[0..4]);
    EncodeDecodeLE(payload[4..8]);
    WordRanges();
    var s := State(version, minimum, payload[8], payload[9], payload[10]);
    if !Valid(s) || (s.pending == NO_SLOT && s.attempts != 0) || s.pending == s.confirmed {
      return None;
    }
    return Some(s);
  }

  class BootStateStore {
    const records: ConfigStore
    var semanticFailures: nat

    ghost predicate Valid()
      reads this, records, records.flash
    {
      records.Valid() && records.layout == LAYOUT
    }

    constructor (part: Flash)
      requires part.Valid()
      ensures Valid() && fresh(records) && records.flash == part && records.Handle() == Store.Blank
    {
      records := new ConfigStore(part, LAYOUT);
      semanticFailures := 0;
    }

    method Refuse()
      modifies this, records
      requires Valid()
      ensures Valid() && records.Handle() == old(records.Handle()).(loaded := false)
    {
      semanticFailures := semanticFailures + 1;
      records.loaded := false;
    }

    method Load(legible: (bool, bool)) returns (state: Option<State>)
      requires Valid()
      modifies this, records
      ensures Valid()
      ensures (records.Handle(), state) == LoadState(old(records.Handle()), Store.Seen(records.flash.slots, legible))
    {
      var payload := new Byte[Rec.MAX_PAYLOAD_BYTES](_ => 0);
      var ok := records.Load(payload, legible);
      state := None;
      if ok {
        state := DecodePayload(payload);
      }
      if state.None? {
        Refuse();
      }
    }

    method SaveEncoded(s: State, w: Store.Write, readBack: bool) returns (ok: bool)
      requires Valid() && |w.after| == Rec.SLOT_BYTES
      modifies records, records.flash
      ensures Valid()
      ensures (records.Handle(), records.flash.slots, ok) ==
        Store.Save(Rec.Format(LAYOUT), old(records.Handle()), old(records.flash.slots), EncodeState(s), Verified(w, readBack))
    {
      var payload := EncodePayload(s);
      ok := records.Save(payload, w, readBack);
    }

    method FactoryInitialize(initial: State, w: Store.Write, readBack: bool) returns (ok: bool)
      requires Valid() && |w.after| == Rec.SLOT_BYTES
      modifies records, records.flash
      ensures Valid()
      ensures (records.Handle(), records.flash.slots, ok) ==
        FactoryState(old(records.Handle()), old(records.flash.slots), initial, Verified(w, readBack))
    {
      if records.loaded || !BootPolicy.Valid(initial) || initial.pending != NO_SLOT || initial.attempts != 0 {
        return false;
      }
      ok := SaveEncoded(initial, w, readBack);
    }

    method Save(s: State, w: Store.Write, readBack: bool) returns (ok: bool)
      requires Valid() && |w.after| == Rec.SLOT_BYTES
      modifies this, records, records.flash
      ensures Valid()
      ensures (records.Handle(), records.flash.slots, ok) ==
        SaveState(old(records.Handle()), old(records.flash.slots), s, Verified(w, readBack))
    {
      if !records.loaded || !BootPolicy.Valid(s) || (s.pending == NO_SLOT && s.attempts != 0)
        || s.pending == s.confirmed {
        semanticFailures := semanticFailures + 1;
        return false;
      }
      ok := SaveEncoded(s, w, readBack);
    }
  }
}
