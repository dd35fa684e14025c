/** The boot record as a twelve-byte payload of the two-slot store, and what crash safety of the store
    means for boot records. */
module BootStateCodec {
  import opened Words
  import opened BootPolicy
  import Rec = ConfigRecord
  import Store = TwoSlotStore

  type Bytes = seq<Byte>

  const LAYOUT := Rec.Layout(1, 12)

  function EncodeState(s: State): (payload: Bytes)
    ensures |payload| == 12
  {
    ToLE(s.recordVersion, 4) + ToLE(s.minimumVersion, 4) + [s.confirmed, s.pending, s.attempts, 0]
  }

  function Fields(payload: Bytes): State
    requires |payload| == 12
  {
    State(Word32(payload[0..4]), Word32(payload[4..8]), payload[8], payload[9], payload[10])
  }

  /** A record is accepted when its spare byte is zero and what it says is a valid boot state. */
  predicate Storable(s: State) {
    Valid(s) && !(s.pending == NO_SLOT && s.attempts != 0) && s.pending != s.confirmed
  }

  function DecodeState(payload: Bytes): Option<State>
    requires |payload| == 12
  {
    if payload[11] == 0 && Storable(Fields(payload)) then Some(Fields(payload)) else None
  }

  lemma FieldsOfState(s: State)
    ensures Fields(EncodeState(s)) == s
  {
    var p := EncodeState(s);
    WordRanges();
    assert p[0..4] == ToLE(s.recordVersion, 4) && p[4..8] == ToLE(s.minimumVersion, 4);
    DecodeEncodeLE(s.recordVersion, 4);
    DecodeEncodeLE(s.minimumVersion, 4);
  }

  /** Decoding an encoded state gives it back exactly when it is valid: the two checks beside validity
      never decide anything. */
  lemma StateRoundTrip(s: State)
    ensures DecodeState(EncodeState(s)) == if Valid(s) then Some(s) else None
  {
    FieldsOfState(s);
  }

  lemma DecodeStateIsCanonical(payload: Bytes)
    requires |payload| == 12 && DecodeState(payload).Some?
    ensures Valid(DecodeState(payload).value) && EncodeState(DecodeState(payload).value) == payload
  {
    EncodeDecodeLE(payload[0..4]);
    EncodeDecodeLE(payload[4..8]);
    assert payload == payload[0..4] + payload[4..8] + [payload[8], payload[9], payload[10], payload[11]];
  }

  // ----- boot states as the payload of the two-slot store -----

  function DecodeSlot(bytes: Bytes): Option<Store.Record<State>> {
    match Rec.Decode(LAYOUT, bytes)
    case None => None
    case Some(r) =>
      match DecodeState(r.payload)
      case None => None
      case Some(s) => Some(Store.Record(r.generation, s))
  }

  function SlotImage(generation: u32, s: State): Bytes { Rec.Image(LAYOUT, generation, EncodeState(s)) }

  function StateFormat(): Store.Format<State> { Store.Format(DecodeSlot, SlotImage, Valid) }

  lemma StateFormatIsFaithful()
    ensures Store.Faithful(StateFormat())
  {
    forall g: u32, s | g != 0 && Valid(s) ensures DecodeSlot(SlotImage(g, s)) == Some(Store.Record(g, s)) {
      Rec.ImageDecodes(LAYOUT, g, EncodeState(s));
      StateRoundTrip(s);
    }
  }

  /** Loading goes by the record layer's choice of slot, and only then looks at the state. */
  function LoadState(h: Store.Handle, slots: Store.Slots): (Store.Handle, Option<State>) {
    var (after, payload) := Store.Load(Rec.Format(LAYOUT), h, slots);
    match payload
    case None => (after, None)
    case Some(p) =>
      if |p| == 12 && DecodeState(p).Some? then (after, DecodeState(p)) else (after.(loaded := false), None)
  }

  function SaveState(h: Store.Handle, slots: Store.Slots, s: State, w: Store.Write): (Store.Handle, Store.Slots, bool) {
    if !h.loaded || !Storable(s) then (h, slots, false)
    else Store.Save(Rec.Format(LAYOUT), h, slots, EncodeState(s), w)
  }

  function FactoryState(h: Store.Handle, slots: Store.Slots, s: State, w: Store.Write): (Store.Handle, Store.Slots, bool) {
    if h.loaded || !Valid(s) || s.pending != NO_SLOT || s.attempts != 0 then (h, slots, false)
    else Store.Save(Rec.Format(LAYOUT), h, slots, EncodeState(s), w)
  }

  /** Every record that checks out holds a boot state, as it does when only this store writes the flash. */
  predicate HoldsState(bytes: Bytes) {
    Rec.Readable(LAYOUT, bytes) ==> DecodeSlot(bytes).Some?
  }

  predicate OnlyStates(slots: Store.Slots) { HoldsState(slots.first) && HoldsState(slots.second) }

  lemma SelectAgrees(slots: Store.Slots)
    requires OnlyStates(slots)
    ensures Store.Select(Rec.Format(LAYOUT), slots) == Store.Select(StateFormat(), slots)
  {
  }

  lemma LoadAgrees(h: Store.Handle, slots: Store.Slots)
    requires OnlyStates(slots)
    ensures LoadState(h, slots) == Store.Load(StateFormat(), h, slots)
    ensures LoadState(h, slots).1.Some? ==> Valid(LoadState(h, slots).1.value)
  {
    SelectAgrees(slots);
  }

  lemma SaveAgrees(h: Store.Handle, slots: Store.Slots, s: State, w: Store.Write)
    requires Valid(s)
    ensures h.loaded ==> SaveState(h, slots, s, w) == Store.Save(StateFormat(), h, slots, s, w)
    ensures !h.loaded && s.pending == NO_SLOT ==>
      FactoryState(h, slots, s, w) == Store.Save(StateFormat(), h, slots, s, w)
  {
  }

  // ----- runs of the boot-state store -----

  type World = Store.World<State>
  type Event = Store.Event<State>

  /** A boot state the store would write rather than refuse: the first one must have nothing pending. */
  predicate Accepted(w: World, s: State) { Storable(s) && (w.h.loaded || s.pending == NO_SLOT) }

  /** Saving is the factory operation while nothing is loaded; a refused state changes nothing. */
  function SavedState(w: World, s: State, write: Store.Write): World {
    var (h, slots, ok) := if w.h.loaded then SaveState(w.h, w.slots, s, write) else FactoryState(w.h, w.slots, s, write);
    if !Accepted(w, s) then Store.World(h, slots, w.base, w.attempts)
    else if ok then Store.World(h, slots, Some(s), [])
    else Store.World(h, slots, w.base, w.attempts + [s])
  }

  function LoadedState(w: World, h: Store.Handle): World {
    var (after, found) := LoadState(h, w.slots);
    Store.World(after, w.slots, found, [])
  }

  function NextState(w: World, e: Event): World {
    match e
    case Saving(s, write) => SavedState(w, s, write)
    case Loading => LoadedState(w, w.h)
    case Restart => LoadedState(w, Store.Blank)
    case Interrupted(s, write) => LoadedState(SavedState(w, s, write), Store.Blank)
  }

  /** Writes, interrupted or not, leave their slot as it was, complete, or failing the record checks. */
  predicate CleanWrite(w: World, s: State, write: Store.Write) {
    Accepted(w, s) && w.h.generation < MAX_U32 ==>
      || write.after == w.slots.At(Store.Target(w.h))
      || write.after == SlotImage(Store.NextGeneration(w.h), s)
      || !Rec.Readable(LAYOUT, write.after)
  }

  predicate Clean(w: World, e: Event) {
    e.Saving? || e.Interrupted? ==> CleanWrite(w, e.payload, e.w)
  }

  ghost predicate RunStates(w: World, events: seq<Event>, end: World)
    decreases |events|
  {
    if |events| == 0 then end == w
    else Clean(w, events[0]) && RunStates(NextState(w, events[0]), events[1..], end)
  }

  predicate Safe(w: World) { Store.Kept(StateFormat(), w) && OnlyStates(w.slots) }

  lemma SlotHoldsImage(generation: u32, s: State)
    requires Valid(s) && generation != 0
    ensures HoldsState(SlotImage(generation, s))
  {
    StateFormatIsFaithful();
    assert StateFormat().decode(StateFormat().image(generation, s)).Some?;
  }

  lemma SavedIsStored(w: World, s: State, write: Store.Write)
    requires Accepted(w, s)
    ensures SavedState(w, s, write) == Store.Saved(StateFormat(), w, s, write)
  {
    SaveAgrees(w.h, w.slots, s, write);
  }

  lemma CleanIsPossible(w: World, s: State, write: Store.Write)
    requires CleanWrite(w, s, write) && Accepted(w, s) && w.h.generation < MAX_U32
    ensures Store.Possible(
      StateFormat(), w.slots.At(Store.Target(w.h)), StateFormat().image(Store.NextGeneration(w.h), s), write)
  {
  }

  lemma WrittenSlotHolds(w: World, s: State, write: Store.Write)
    requires OnlyStates(w.slots) && CleanWrite(w, s, write) && Accepted(w, s) && w.h.generation < MAX_U32
    ensures HoldsState(write.after)
  {
    SlotHoldsImage(Store.NextGeneration(w.h), s);
  }

  lemma SavedOnlyStates(w: World, s: State, write: Store.Write)
    requires OnlyStates(w.slots) && CleanWrite(w, s, write) && Accepted(w, s)
    ensures OnlyStates(Store.Saved(StateFormat(), w, s, write).slots)
  {
    if w.h.generation < MAX_U32 {
      WrittenSlotHolds(w, s, write);
      PutHolds(w.slots, Store.Target(w.h), write.after);
    }
  }

  lemma PutHolds(slots: Store.Slots, target: nat, bytes: Bytes)
    requires OnlyStates(slots) && HoldsState(bytes)
    ensures OnlyStates(slots.Put(target, bytes))
  {
  }

  lemma SavedKept(w: World, s: State, write: Store.Write)
    requires Store.Kept(StateFormat(), w) && CleanWrite(w, s, write) && Accepted(w, s)
    ensures Store.Kept(StateFormat(), Store.Saved(StateFormat(), w, s, write))
  {
    StateFormatIsFaithful();
    if w.h.generation < MAX_U32 {
      CleanIsPossible(w, s, write);
    }
    Store.SaveKeeps(StateFormat(), w, s, write);
  }

  lemma SaveIsSafe(w: World, s: State, write: Store.Write)
    requires Safe(w) && CleanWrite(w, s, write)
    ensures Safe(SavedState(w, s, write))
  {
    if Accepted(w, s) {
      SavedIsStored(w, s, write);
      SavedOnlyStates(w, s, write);
      SavedKept(w, s, write);
    }
  }

  lemma LoadIsSafe(w: World, h: Store.Handle)
    requires Safe(w) && (h == w.h || h == Store.Blank)
    ensures Safe(LoadedState(w, h))
    ensures var found := LoadState(h, w.slots).1;
      && (found == w.base || (found.Some? && found.value in w.attempts))
      && (w.base.Some? ==> found.Some?)
      && (w.attempts == [] ==> found == w.base)
      && (found.Some? ==> Valid(found.value))
  {
    StateFormatIsFaithful();
    LoadAgrees(h, w.slots);
    Store.LoadFinds(StateFormat(), w, h);
  }

  lemma {:induction false} RunIsSafe(w: World, events: seq<Event>, end: World)
    requires Safe(w) && RunStates(w, events, end)
    ensures Safe(end)
    decreases |events|
  {
    if |events| > 0 {
      match events[0] {
        case Saving(s, write) => SaveIsSafe(w, s, write);
        case Loading => LoadIsSafe(w, w.h);
        case Restart => LoadIsSafe(w, Store.Blank);
        case Interrupted(s, write) =>
          SaveIsSafe(w, s, write);
          LoadIsSafe(SavedState(w, s, write), Store.Blank);
      }
      RunIsSafe(NextState(w, events[0]), events[1..], end);
    }
  }

  /** The world after the first boot on some flash. */
  function BootedState(slots: Store.Slots): World {
    LoadedState(Store.World(Store.Blank, slots, None, []), Store.Blank)
  }

  /** Crash safety of boot records: after any run, what a load finds is a valid boot state, and it is the
      one last committed or loaded, or one whose save was attempted since. */
  lemma BootStateAfterAnyRun(slots: Store.Slots, events: seq<Event>, end: World, h: Store.Handle)
    requires Store.Sound(StateFormat(), slots) && OnlyStates(slots)
    requires RunStates(BootedState(slots), events, end) && (h == end.h || h == Store.Blank)
    ensures var found := LoadState(h, end.slots).1;
      && (found == end.base || (found.Some? && found.value in end.attempts))
      && (end.base.Some? ==> found.Some?)
      && (end.attempts == [] ==> found == end.base)
      && (found.Some? ==> Valid(found.value))
  {
    StateFormatIsFaithful();
    LoadAgrees(Store.Blank, slots);
    Store.BootIsKept(StateFormat(), slots);
    RunIsSafe(BootedState(slots), events, end);
    LoadIsSafe(end, h);
  }
}
