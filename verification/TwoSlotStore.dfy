/** Crash safety of a two-slot, generation-numbered record store, for any record format whose images
    decode to what they hold. A save goes to the slot not in use, with the next generation; whatever an
    interrupted write leaves there, the slot in use still holds the last committed payload. */
module TwoSlotStore {
  import opened Words

  type Bytes = seq<Byte>

  datatype Record<+P> = Record(generation: u32, payload: P)

  /** A record format: how slots are read, how records are laid out, and which payloads fit one. */
  datatype Format<!P> = Format(decode: Bytes -> Option<Record<P>>, image: (u32, P) -> Bytes, fits: P -> bool)

  /** Generation 0 never decodes; the image of any other generation decodes to it and its payload. */
  ghost predicate Faithful<P(!new)>(fmt: Format<P>) {
    && (forall g: u32, p :: g != 0 && fmt.fits(p) ==> fmt.decode(fmt.image(g, p)) == Some(Record(g, p)))
    && (forall bytes :: fmt.decode(bytes).Some? ==> fmt.decode(bytes).value.generation != 0)
  }

  datatype Slots = Slots(first: Bytes, second: Bytes) {
    function At(slot: nat): Bytes { if slot == 0 then first else second }

    function Put(slot: nat, bytes: Bytes): Slots {
      if slot == 0 then Slots(bytes, second) else Slots(first, bytes)
    }
  }

  /** What the store keeps in memory. */
  datatype Handle = Handle(generation: u32, active: nat, loaded: bool)

  const Blank := Handle(0, 0, false)

  /** (int32_t)(candidate - reference) > 0 */
  predicate Newer(candidate: u32, reference: u32) { After32(candidate, reference) }

  function Select<P>(fmt: Format<P>, slots: Slots): Option<nat> {
    var a, b := fmt.decode(slots.first), fmt.decode(slots.second);
    if a.None? && b.None? then None
    else if b.Some? && (a.None? || Newer(b.value.generation, a.value.generation)) then Some(1)
    else Some(0)
  }

  /** What a load gets to see when reading a slot may fail: nothing that decodes. */
  function Seen(slots: Slots, legible: (bool, bool)): Slots {
    Slots(if legible.0 then slots.first else [], if legible.1 then slots.second else [])
  }

  function Load<P>(fmt: Format<P>, h: Handle, slots: Slots): (Handle, Option<P>) {
    match Select(fmt, slots)
    case None => (h.(loaded := false), None)
    case Some(slot) =>
      var found := fmt.decode(slots.At(slot));
      if found.None? then (h, None)
      else (Handle(found.value.generation, slot, true), Some(found.value.payload))
  }

  function Target(h: Handle): nat { if h.loaded then 1 - h.active % 2 else 0 }

  function NextGeneration(h: Handle): u32
    requires h.generation < MAX_U32
  {
    if h.loaded then h.generation + 1 else 1
  }

  /** What the flash driver did: whether it reported success and could read the slot back, and what the slot
      now holds. */
  datatype Write = Write(reported: bool, after: Bytes)

  /** A write, interrupted or not, leaves its slot as it was, complete, or undecodable. */
  predicate Possible<P>(fmt: Format<P>, before: Bytes, image: Bytes, w: Write) {
    w.after == before || w.after == image || fmt.decode(w.after).None?
  }

  function Save<P>(fmt: Format<P>, h: Handle, slots: Slots, p: P, w: Write): (Handle, Slots, bool) {
    if h.generation == MAX_U32 then (h, slots, false)
    else
      var written := slots.Put(Target(h), w.after);
      if w.reported && w.after == fmt.image(NextGeneration(h), p)
      then (Handle(NextGeneration(h), Target(h), true), written, true)
      else (h, written, false)
  }

  // ----- runs -----

  /** The store, its flash, and what a client knows: the payload last loaded or committed, and those
      it has tried to save since. */
  datatype World<P> = World(h: Handle, slots: Slots, base: Option<P>, attempts: seq<P>)

  /** Interrupted is power lost during a save; both restarts end with the load every boot begins with. */
  datatype Event<P> = Saving(payload: P, w: Write) | Loading | Restart | Interrupted(payload: P, w: Write)

  function Loaded<P>(fmt: Format<P>, w: World<P>, h: Handle): World<P> {
    var (after, found) := Load(fmt, h, w.slots);
    World(after, w.slots, found, [])
  }

  function Saved<P>(fmt: Format<P>, w: World<P>, p: P, write: Write): World<P> {
    var (h, slots, ok) := Save(fmt, w.h, w.slots, p, write);
    if ok then World(h, slots, Some(p), []) else World(h, slots, w.base, w.attempts + [p])
  }

  function Next<P>(fmt: Format<P>, w: World<P>, e: Event<P>): World<P> {
    match e
    case Saving(p, write) => Saved(fmt, w, p, write)
    case Loading => Loaded(fmt, w, w.h)
    case Restart => Loaded(fmt, w, Blank)
    case Interrupted(p, write) => Loaded(fmt, Saved(fmt, w, p, write), Blank)
  }

  predicate Allowed<P>(fmt: Format<P>, w: World<P>, e: Event<P>) {
    e.Saving? || e.Interrupted? ==>
      && fmt.fits(e.payload)
      && (w.h.generation < MAX_U32 ==>
            Possible(fmt, w.slots.At(Target(w.h)), fmt.image(NextGeneration(w.h), e.payload), e.w))
  }

  ghost predicate Run<P>(fmt: Format<P>, w: World<P>, events: seq<Event<P>>, end: World<P>)
    decreases |events|
  {
    if |events| == 0 then end == w
    else Allowed(fmt, w, events[0]) && Run(fmt, Next(fmt, w, events[0]), events[1..], end)
  }

  /** Flash as blank parts or earlier saves leave it: never two valid records more than one apart. */
  predicate Sound<P>(fmt: Format<P>, slots: Slots) {
    var a, b := fmt.decode(slots.first), fmt.decode(slots.second);
    a.Some? && b.Some? ==>
      a.value.generation == b.value.generation + 1 || b.value.generation == a.value.generation + 1
  }

  // ----- the invariant -----

  /** The idle slot: unreadable, the generation before the active one, or a save not known to have succeeded. */
  predicate Idle<P(==)>(found: Option<Record<P>>, generation: u32, attempts: seq<P>) {
    match found
    case None => true
    case Some(r) => r.generation + 1 == generation || (r.generation == generation + 1 && r.payload in attempts)
  }

  predicate Kept<P(==)>(fmt: Format<P>, w: World<P>) {
    if w.h.loaded then
      && w.h.active < 2 && w.base.Some?
      && fmt.decode(w.slots.At(w.h.active)) == Some(Record(w.h.generation, w.base.value))
      && Idle(fmt.decode(w.slots.At(1 - w.h.active)), w.h.generation, w.attempts)
    else
      && w.h.generation == 0 && w.base == None
      && fmt.decode(w.slots.second) == None
      && Idle(fmt.decode(w.slots.first), 0, w.attempts)
  }

  lemma NewerByOne(g: u32, h: u32)
    requires g == h + 1
    ensures Newer(g, h) && !Newer(h, g)
  {
  }

  /** Loading finds the base or something attempted since, and afterwards stands on what it found. */
  lemma LoadFinds<P(!new)>(fmt: Format<P>, w: World<P>, h: Handle)
    requires Faithful(fmt) && Kept(fmt, w) && (h == w.h || h == Blank)
    ensures var found := Load(fmt, h, w.slots).1;
      && (found == w.base || (found.Some? && found.value in w.attempts))
      && (w.base.Some? ==> found.Some?)
      && (w.attempts == [] ==> found == w.base)
    ensures Kept(fmt, Loaded(fmt, w, h))
  {
    if w.h.loaded {
      var other := fmt.decode(w.slots.At(1 - w.h.active));
      if other.Some? {
        if other.value.generation == w.h.generation + 1 {
          NewerByOne(other.value.generation, w.h.generation);
        } else {
          NewerByOne(w.h.generation, other.value.generation);
        }
      }
    }
  }

  lemma SaveKeeps<P(!new)>(fmt: Format<P>, w: World<P>, p: P, write: Write)
    requires Faithful(fmt) && Kept(fmt, w) && fmt.fits(p)
    requires w.h.generation < MAX_U32 ==>
      Possible(fmt, w.slots.At(Target(w.h)), fmt.image(NextGeneration(w.h), p), write)
    ensures Kept(fmt, Saved(fmt, w, p, write))
  {
    if w.h.generation < MAX_U32 {
      var g := NextGeneration(w.h);
      assert fmt.decode(fmt.image(g, p)) == Some(Record(g, p));
    }
  }

  lemma StepKeeps<P(!new)>(fmt: Format<P>, w: World<P>, e: Event<P>)
    requires Faithful(fmt) && Kept(fmt, w) && Allowed(fmt, w, e)
    ensures Kept(fmt, Next(fmt, w, e))
  {
    match e {
      case Saving(p, write) => SaveKeeps(fmt, w, p, write);
      case Loading => LoadFinds(fmt, w, w.h);
      case Restart => LoadFinds(fmt, w, Blank);
      case Interrupted(p, write) =>
        SaveKeeps(fmt, w, p, write);
        LoadFinds(fmt, Saved(fmt, w, p, write), Blank);
    }
  }

  lemma {:induction false} RunKeeps<P(!new)>(fmt: Format<P>, w: World<P>, events: seq<Event<P>>, end: World<P>)
    requires Faithful(fmt) && Kept(fmt, w) && Run(fmt, w, events, end)
    ensures Kept(fmt, end)
    decreases |events|
  {
    if |events| > 0 {
      StepKeeps(fmt, w, events[0]);
      RunKeeps(fmt, Next(fmt, w, events[0]), events[1..], end);
    }
  }

  /** The world after the first boot on some flash. */
  function Booted<P>(fmt: Format<P>, slots: Slots): World<P> {
    Loaded(fmt, World(Blank, slots, None, []), Blank)
  }

  lemma BootIsKept<P(!new)>(fmt: Format<P>, slots: Slots)
    requires Faithful(fmt) && Sound(fmt, slots)
    ensures Kept(fmt, Booted(fmt, slots))
  {
    var a, b := fmt.decode(slots.first), fmt.decode(slots.second);
    if a.Some? && b.Some? {
      if a.value.generation == b.value.generation + 1 {
        NewerByOne(a.value.generation, b.value.generation);
      } else {
        NewerByOne(b.value.generation, a.value.generation);
      }
    }
  }

  lemma KeptIsSound<P>(fmt: Format<P>, w: World<P>)
    requires Kept(fmt, w)
    ensures Sound(fmt, w.slots)
  {
  }

  /** Crash safety. On sound flash, after any run of saves, failures, interruptions, reloads and
      restarts, a load (or the load of a fresh boot) finds the payload last committed or loaded, or one
      whose save was attempted since; with no attempt outstanding it finds exactly the former. The
      flash is sound again, so the same holds of whatever runs next. */
  lemma LoadAfterAnyRun<P(!new)>(fmt: Format<P>, slots: Slots, events: seq<Event<P>>, end: World<P>, h: Handle)
    requires Faithful(fmt) && Sound(fmt, slots)
    requires Run(fmt, Booted(fmt, slots), events, end) && (h == end.h || h == Blank)
    ensures var found := Load(fmt, h, end.slots).1;
      && (found == end.base || (found.Some? && found.value in end.attempts))
      && (end.base.Some? ==> found.Some?)
      && (end.attempts == [] ==> found == end.base)
    ensures Sound(fmt, end.slots)
  {
    BootIsKept(fmt, slots);
    RunKeeps(fmt, Booted(fmt, slots), events, end);
    LoadFinds(fmt, end, h);
    KeptIsSound(fmt, end);
  }

  /** A save that reported success is what the next load finds, whether or not the device restarts first. */
  lemma CommittedIsLoaded<P(!new)>(
      fmt: Format<P>, slots: Slots, events: seq<Event<P>>, w: World<P>, p: P, write: Write, restart: bool)
    requires Faithful(fmt) && Sound(fmt, slots) && Run(fmt, Booted(fmt, slots), events, w)
    requires Allowed(fmt, w, Saving(p, write)) && Save(fmt, w.h, w.slots, p, write).2
    ensures var (h, after, ok) := Save(fmt, w.h, w.slots, p, write);
      Load(fmt, if restart then Blank else h, after).1 == Some(p)
  {
    BootIsKept(fmt, slots);
    RunKeeps(fmt, Booted(fmt, slots), events, w);
    SaveKeeps(fmt, w, p, write);
    var after := Saved(fmt, w, p, write);
    LoadFinds(fmt, after, if restart then Blank else after.h);
  }

  /** On flash that does what it is told a save always commits, until the generations are used up; then nothing is
      written. */
  lemma WorkingSaveCommits<P(!new)>(
      fmt: Format<P>, slots: Slots, events: seq<Event<P>>, w: World<P>, p: P, restart: bool)
    requires Faithful(fmt) && Sound(fmt, slots) && Run(fmt, Booted(fmt, slots), events, w) && fmt.fits(p)
    ensures w.h.generation < MAX_U32 ==>
      var write := Write(true, fmt.image(NextGeneration(w.h), p));
      var (h, after, ok) := Save(fmt, w.h, w.slots, p, write);
      ok && h.loaded && h.generation == NextGeneration(w.h) && Load(fmt, if restart then Blank else h, after).1 == Some(p)
    ensures w.h.generation == MAX_U32 ==> forall write :: Save(fmt, w.h, w.slots, p, write) == (w.h, w.slots, false)
  {
    if w.h.generation < MAX_U32 {
      var write := Write(true, fmt.image(NextGeneration(w.h), p));
      CommittedIsLoaded(fmt, slots, events, w, p, write, restart);
    }
  }

  // ----- when the outcome is the last commit or the last attempt -----

  /** A client that loads again after every failed save before it saves anything else. */
  ghost predicate Careful<P>(fmt: Format<P>, w: World<P>, events: seq<Event<P>>)
    decreases |events|
  {
    |events| > 0 ==>
      && (events[0].Saving? || events[0].Interrupted? ==> w.attempts == [])
      && Careful(fmt, Next(fmt, w, events[0]), events[1..])
  }

  /** The payload of the latest save, committed or not, in a run; none after a load. */
  function LastAttempt<P>(w: World<P>): Option<P> {
    if |w.attempts| > 0 then Some(w.attempts[|w.attempts| - 1]) else None
  }

  lemma {:induction false} CarefulKeepsOne<P(!new)>(fmt: Format<P>, w: World<P>, events: seq<Event<P>>, end: World<P>)
    requires Run(fmt, w, events, end) && Careful(fmt, w, events) && |w.attempts| <= 1
    ensures |end.attempts| <= 1
    decreases |events|
  {
    if |events| > 0 {
      CarefulKeepsOne(fmt, Next(fmt, w, events[0]), events[1..], end);
    }
  }

  /** Under that discipline a load finds the last committed payload or the one most recently attempted. */
  lemma CarefulLoad<P(!new)>(fmt: Format<P>, slots: Slots, events: seq<Event<P>>, end: World<P>, h: Handle)
    requires Faithful(fmt) && Sound(fmt, slots)
    requires Run(fmt, Booted(fmt, slots), events, end) && (h == end.h || h == Blank)
    requires Careful(fmt, Booted(fmt, slots), events)
    ensures Load(fmt, h, end.slots).1 in [end.base, LastAttempt(end)]
  {
    LoadAfterAnyRun(fmt, slots, events, end, h);
    CarefulKeepsOne(fmt, Booted(fmt, slots), events, end);
  }

  /** A save of x, perhaps a load, and then a save of y. */
  function Reached<P>(fmt: Format<P>, w: World<P>, x: P, wx: Write, reload: bool): World<P> {
    var u := Next(fmt, w, Saving(x, wx));
    if reload then Next(fmt, u, Loading) else u
  }

  /** Whatever the flash does, the load after both saves finds the last commit or the last attempt. */
  ghost predicate OutcomeKnown<P(!new)>(fmt: Format<P>, w: World<P>, x: P, y: P, reload: bool) {
    forall wx, wy ::
      Allowed(fmt, w, Saving(x, wx)) && Allowed(fmt, Reached(fmt, w, x, wx, reload), Saving(y, wy)) ==>
        var end := Next(fmt, Reached(fmt, w, x, wx, reload), Saving(y, wy));
        Load(fmt, end.h, end.slots).1 in [end.base, Some(y)]
  }

  /** With no attempt outstanding, one save has a known outcome. */
  lemma OneSaveSettles<P(!new)>(fmt: Format<P>, w: World<P>, y: P, wy: Write)
    requires Faithful(fmt) && Kept(fmt, w) && w.attempts == [] && Allowed(fmt, w, Saving(y, wy))
    ensures var end := Next(fmt, w, Saving(y, wy));
      Load(fmt, end.h, end.slots).1 in [end.base, Some(y)]
  {
    var end := Next(fmt, w, Saving(y, wy));
    StepKeeps(fmt, w, Saving(y, wy));
    assert end.attempts == [] || end.attempts == [y];
    LoadFinds(fmt, end, end.h);
  }

  lemma ReloadingSettles<P(!new)>(fmt: Format<P>, w: World<P>, x: P, wx: Write, y: P, wy: Write)
    requires Faithful(fmt) && Kept(fmt, w) && Allowed(fmt, w, Saving(x, wx))
    requires Allowed(fmt, Reached(fmt, w, x, wx, true), Saving(y, wy))
    ensures var end := Next(fmt, Reached(fmt, w, x, wx, true), Saving(y, wy));
      Load(fmt, end.h, end.slots).1 in [end.base, Some(y)]
  {
    var u := Next(fmt, w, Saving(x, wx));
    StepKeeps(fmt, w, Saving(x, wx));
    StepKeeps(fmt, u, Loading);
    OneSaveSettles(fmt, Next(fmt, u, Loading), y, wy);
  }

  /** The payload a load would find instead of the base: one completely written by a save that failed. */
  function Latent<P>(fmt: Format<P>, w: World<P>): Option<P> {
    var found := fmt.decode(w.slots.At(Target(w.h)));
    if found.Some? && found.value.generation == w.h.generation + 1 then Some(found.value.payload) else None
  }

  lemma LoadFindsLatent<P(!new)>(fmt: Format<P>, w: World<P>, h: Handle)
    requires Faithful(fmt) && Kept(fmt, w) && (h == w.h || h == Blank)
    ensures Load(fmt, h, w.slots).1 == if Latent(fmt, w).Some? then Latent(fmt, w) else w.base
  {
    if w.h.loaded {
      var other := fmt.decode(w.slots.At(1 - w.h.active));
      if other.Some? {
        if other.value.generation == w.h.generation + 1 {
          NewerByOne(other.value.generation, w.h.generation);
        } else {
          NewerByOne(w.h.generation, other.value.generation);
        }
      }
    }
  }

  /** A payload, if there is one, that may be found after a save of y: the last commit or the last attempt. */
  predicate Expected<P(==)>(w: World<P>, y: P, p: Option<P>) { p in [None, w.base, Some(y)] }

  /** The first save is complete but reported as failed, the second is not carried out at all: the next
      load finds the first, which was neither committed nor attempted last. */
  lemma EarlierAttemptSurfaces<P(!new)>(fmt: Format<P>, w: World<P>, x: P, y: P)
    requires Faithful(fmt) && Kept(fmt, w) && w.h.generation < MAX_U32
    requires fmt.fits(x) && fmt.fits(y) && !Expected(w, y, Some(x))
    ensures !OutcomeKnown(fmt, w, x, y, false)
  {
    var g := NextGeneration(w.h);
    var write := Write(false, fmt.image(g, x));
    var u := Reached(fmt, w, x, write, false);
    assert fmt.decode(write.after) == Some(Record(g, x));
    assert Allowed(fmt, w, Saving(x, write)) && Allowed(fmt, u, Saving(y, write));
    var end := Next(fmt, u, Saving(y, write));
    StepKeeps(fmt, w, Saving(x, write));
    StepKeeps(fmt, u, Saving(y, write));
    assert end.base == w.base && end.h == w.h && end.slots == w.slots.Put(Target(w.h), write.after);
    LoadFindsLatent(fmt, end, end.h);
  }

  /** Neither save is carried out: the next load finds what an earlier one left. */
  lemma LatentSurfaces<P(!new)>(fmt: Format<P>, w: World<P>, x: P, y: P)
    requires Faithful(fmt) && Kept(fmt, w) && w.h.generation < MAX_U32
    requires fmt.fits(x) && fmt.fits(y) && !Expected(w, y, Latent(fmt, w))
    ensures !OutcomeKnown(fmt, w, x, y, false)
  {
    var write := Write(false, w.slots.At(Target(w.h)));
    var u := Reached(fmt, w, x, write, false);
    assert Allowed(fmt, w, Saving(x, write)) && Allowed(fmt, u, Saving(y, write));
    var end := Next(fmt, u, Saving(y, write));
    StepKeeps(fmt, w, Saving(x, write));
    StepKeeps(fmt, u, Saving(y, write));
    assert end.base == w.base && end.h == w.h && end.slots == w.slots;
    LoadFindsLatent(fmt, end, end.h);
  }

  lemma LatentAfterFailure<P(!new)>(fmt: Format<P>, w: World<P>, p: P, write: Write)
    requires Faithful(fmt) && Kept(fmt, w) && Allowed(fmt, w, Saving(p, write)) && !Save(fmt, w.h, w.slots, p, write).2
    ensures var u := Next(fmt, w, Saving(p, write));
      && Kept(fmt, u) && u.h == w.h && u.base == w.base
      && (Latent(fmt, u) in [Latent(fmt, w), None] || (w.h.generation < MAX_U32 && Latent(fmt, u) == Some(p)))
  {
    StepKeeps(fmt, w, Saving(p, write));
  }

  lemma TwoFailuresSettle<P(!new)>(fmt: Format<P>, w: World<P>, x: P, wx: Write, u: World<P>, y: P, wy: Write)
    requires Faithful(fmt) && Kept(fmt, w) && Allowed(fmt, w, Saving(x, wx)) && u == Next(fmt, w, Saving(x, wx))
    requires Allowed(fmt, u, Saving(y, wy))
    requires !Save(fmt, w.h, w.slots, x, wx).2 && !Save(fmt, u.h, u.slots, y, wy).2
    requires w.h.generation == MAX_U32 || (Expected(w, y, Some(x)) && Expected(w, y, Latent(fmt, w)))
    ensures var end := Next(fmt, u, Saving(y, wy));
      Load(fmt, end.h, end.slots).1 in [end.base, Some(y)]
  {
    LatentAfterFailure(fmt, w, x, wx);
    LatentAfterFailure(fmt, u, y, wy);
    var end := Next(fmt, u, Saving(y, wy));
    LoadFindsLatent(fmt, end, end.h);
  }

  /** With no load in between, two saves end at the base or at whichever failed save was written last. */
  lemma TwoSavesSettle<P(!new)>(fmt: Format<P>, w: World<P>, x: P, wx: Write, y: P, wy: Write)
    requires Faithful(fmt) && Kept(fmt, w) && Allowed(fmt, w, Saving(x, wx))
    requires Allowed(fmt, Next(fmt, w, Saving(x, wx)), Saving(y, wy))
    requires w.h.generation == MAX_U32 || (Expected(w, y, Some(x)) && Expected(w, y, Latent(fmt, w)))
    ensures var end := Next(fmt, Next(fmt, w, Saving(x, wx)), Saving(y, wy));
      Load(fmt, end.h, end.slots).1 in [end.base, Some(y)]
  {
    var u := Next(fmt, w, Saving(x, wx));
    StepKeeps(fmt, w, Saving(x, wx));
    if Save(fmt, w.h, w.slots, x, wx).2 {
      OneSaveSettles(fmt, u, y, wy);
    } else if Save(fmt, u.h, u.slots, y, wy).2 {
      StepKeeps(fmt, u, Saving(y, wy));
      var end := Next(fmt, u, Saving(y, wy));
      LoadFinds(fmt, end, end.h);
    } else {
      TwoFailuresSettle(fmt, w, x, wx, u, y, wy);
    }
  }

  /** Saving x and then y has a known outcome exactly when the client loads in between, when the generations are
      used up so that nothing is written, or when nothing unexpected can be found: neither x nor what an earlier
      failed save may have left in the slot. */
  lemma KnownExactly<P(!new)>(fmt: Format<P>, w: World<P>, x: P, y: P, reload: bool)
    requires Faithful(fmt) && Kept(fmt, w) && fmt.fits(x) && fmt.fits(y)
    ensures OutcomeKnown(fmt, w, x, y, reload) <==>
      reload || w.h.generation == MAX_U32 || (Expected(w, y, Some(x)) && Expected(w, y, Latent(fmt, w)))
  {
    if reload {
      forall wx, wy | Allowed(fmt, w, Saving(x, wx)) && Allowed(fmt, Reached(fmt, w, x, wx, true), Saving(y, wy))
        ensures var end := Next(fmt, Reached(fmt, w, x, wx, true), Saving(y, wy));
          Load(fmt, end.h, end.slots).1 in [end.base, Some(y)] {
        ReloadingSettles(fmt, w, x, wx, y, wy);
      }
    } else if w.h.generation < MAX_U32 && !Expected(w, y, Some(x)) {
      EarlierAttemptSurfaces(fmt, w, x, y);
    } else if w.h.generation < MAX_U32 && !Expected(w, y, Latent(fmt, w)) {
      LatentSurfaces(fmt, w, x, y);
    } else {
      forall wx, wy | Allowed(fmt, w, Saving(x, wx)) && Allowed(fmt, Reached(fmt, w, x, wx, false), Saving(y, wy))
        ensures var end := Next(fmt, Reached(fmt, w, x, wx, false), Saving(y, wy));
          Load(fmt, end.h, end.slots).1 in [end.base, Some(y)] {
        TwoSavesSettle(fmt, w, x, wx, y, wy);
      }
    }
  }

  /** So for a first payload that is neither the last commit nor saved again, on a blank store as on any other,
      the load in between is what it takes, unless the generations are used up. */
  lemma KnownExactlyAfterReload<P(!new)>(fmt: Format<P>, w: World<P>, x: P, y: P, reload: bool)
    requires Faithful(fmt) && Kept(fmt, w)
    requires fmt.fits(x) && fmt.fits(y) && x != y && w.base != Some(x)
    ensures OutcomeKnown(fmt, w, x, y, reload) <==> reload || w.h.generation == MAX_U32
  {
    KnownExactly(fmt, w, x, y, reload);
  }

  /** Why a boot must load before it saves. A store that has not loaded writes the first slot and numbers its
      record 1: a perfect save of p is what the next load finds, restart or not, exactly unless the second slot
      holds a serially later record of another payload. */
  lemma UnloadedSaveExactly<P(!new)>(fmt: Format<P>, h: Handle, slots: Slots, p: P, restart: bool)
    requires Faithful(fmt) && fmt.fits(p) && !h.loaded && h.generation < MAX_U32
    ensures var (after, written, ok) := Save(fmt, h, slots, p, Write(true, fmt.image(1, p)));
      var second := fmt.decode(slots.second);
      && ok
      && (Load(fmt, if restart then Blank else after, written).1 == Some(p) <==>
            !(second.Some? && Newer(second.value.generation, 1) && second.value.payload != p))
  {
    assert fmt.decode(fmt.image(1, p)) == Some(Record(1, p));
  }

  /** So one later record of q in the second slot is enough to lose it. */
  lemma UnloadedSaveIsLost<P(!new)>(fmt: Format<P>, first: Bytes, g: u32, q: P, p: P, restart: bool)
    requires Faithful(fmt) && fmt.fits(q) && fmt.fits(p) && Newer(g, 1) && q != p
    ensures var slots, write := Slots(first, fmt.image(g, q)), Write(true, fmt.image(1, p));
      var (h, after, ok) := Save(fmt, Blank, slots, p, write);
      ok && Load(fmt, if restart then Blank else h, after).1 != Some(p)
  {
    assert fmt.decode(fmt.image(g, q)) == Some(Record(g, q));
    UnloadedSaveExactly(fmt, Blank, Slots(first, fmt.image(g, q)), p, restart);
  }
}
