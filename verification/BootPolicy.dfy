/** Which of two image slots to boot: trial boots of a staged image, fallback to the confirmed one,
    confirmation, and the version floor. */
module BootPolicy {
  import opened Words

  const SLOT_A: Byte := 0
  const SLOT_B: Byte := 1
  const NO_SLOT: Byte := 0xff

  datatype Slot = Slot(present: bool, authenticated: bool, version: u32)

  type Slots = s: seq<Slot> | |s| == 2 witness [Slot(false, false, 0), Slot(false, false, 0)]

  datatype State = State(recordVersion: u32, minimumVersion: u32, confirmed: Byte, pending: Byte, attempts: Byte)

  datatype Kind = Nothing | Confirmed | Trial | Fallback | Recovery

  datatype Decision = Decision(slot: Byte, kind: Kind, stateChanged: bool)

  predicate SlotId(slot: Byte) { slot == SLOT_A || slot == SLOT_B }

  predicate Eligible(minimumVersion: u32, slot: Slot) {
    slot.present && slot.authenticated && slot.version >= minimumVersion
  }

  predicate Valid(s: State) {
    && s.recordVersion == 1 && SlotId(s.confirmed)
    && (s.pending == NO_SLOT || (SlotId(s.pending) && s.pending != s.confirmed))
    && (s.pending != NO_SLOT || s.attempts == 0)
  }

  function Stage(s: State, candidate: Byte, slots: Slots): (State, bool) {
    if !Valid(s) || !SlotId(candidate) || candidate == s.confirmed || !Eligible(s.minimumVersion, slots[candidate])
    then (s, false)
    else (s.(pending := candidate, attempts := 0), true)
  }

  function Select(s: State, slots: Slots, maximumTrials: Byte): (State, Decision) {
    if !Valid(s) || maximumTrials == 0 then (s, Decision(NO_SLOT, Nothing, false))
    else if SlotId(s.pending) && Eligible(s.minimumVersion, slots[s.pending]) && s.attempts < maximumTrials
    then (s.(attempts := s.attempts + 1), Decision(s.pending, Trial, true))
    else
      var t := if s.pending != NO_SLOT then s.(pending := NO_SLOT, attempts := 0) else s;
      var changed := s.pending != NO_SLOT;
      if Eligible(t.minimumVersion, slots[t.confirmed])
      then (t, Decision(t.confirmed, if changed then Fallback else Confirmed, changed))
      else if Eligible(t.minimumVersion, slots[1 - t.confirmed]) then (t, Decision(1 - t.confirmed, Recovery, changed))
      else (t, Decision(NO_SLOT, Nothing, changed))
  }

  function Confirm(s: State, running: Byte, slots: Slots): (State, bool) {
    if !Valid(s) || !SlotId(running) || !Eligible(s.minimumVersion, slots[running])
      || (running != s.confirmed && running != s.pending)
    then (s, false)
    else
      var version := slots[running].version;
      (s.(confirmed := running, pending := NO_SLOT, attempts := 0,
          minimumVersion := if version > s.minimumVersion then version else s.minimumVersion), true)
  }

  // ----- runs -----

  /** The record and the images it speaks of. */
  datatype World = World(state: State, slots: Slots)

  datatype Event =
    | Staging(candidate: Byte)
    | Booting(maximumTrials: Byte)
    | Confirming(running: Byte)
    | Rewriting(slots: Slots)

  function Next(w: World, e: Event): World {
    match e
    case Staging(candidate) => w.(state := Stage(w.state, candidate, w.slots).0)
    case Booting(maximumTrials) => w.(state := Select(w.state, w.slots, maximumTrials).0)
    case Confirming(running) => w.(state := Confirm(w.state, running, w.slots).0)
    case Rewriting(slots) => w.(slots := slots)
  }

  /** Images may be rewritten at any time, but not the one in the confirmed slot. */
  predicate Intact(w: World, e: Event) {
    e.Rewriting? && SlotId(w.state.confirmed) ==> e.slots[w.state.confirmed] == w.slots[w.state.confirmed]
  }

  predicate Bootable(w: World) {
    Valid(w.state) && Eligible(w.state.minimumVersion, w.slots[w.state.confirmed])
  }

  ghost predicate Run(w: World, events: seq<Event>, end: World)
    decreases |events|
  {
    if |events| == 0 then end == w
    else Intact(w, events[0]) && Run(Next(w, events[0]), events[1..], end)
  }

  lemma StepKeeps(w: World, e: Event)
    requires Bootable(w) && Intact(w, e)
    ensures Bootable(Next(w, e))
    ensures Next(w, e).state.minimumVersion >= w.state.minimumVersion
  {
  }

  /** The record stays valid, the confirmed image stays bootable, and the version floor never falls. */
  lemma {:induction false} RunKeeps(w: World, events: seq<Event>, end: World)
    requires Bootable(w) && Run(w, events, end)
    ensures Bootable(end)
    ensures end.state.minimumVersion >= w.state.minimumVersion
    decreases |events|
  {
    if |events| > 0 {
      StepKeeps(w, events[0]);
      RunKeeps(Next(w, events[0]), events[1..], end);
    }
  }

  /** With a nonzero limit a boot after any run starts an image that meets the version floor, and
      never by way of recovery. */
  lemma BootAfterAnyRun(w: World, events: seq<Event>, end: World, maximumTrials: Byte)
    requires Bootable(w) && Run(w, events, end) && maximumTrials != 0
    ensures var d := Select(end.state, end.slots, maximumTrials).1;
      && SlotId(d.slot) && Eligible(w.state.minimumVersion, end.slots[d.slot])
      && Eligible(end.state.minimumVersion, end.slots[d.slot])
      && (if d.kind == Trial then d.slot == end.state.pending
          else d.kind in [Confirmed, Fallback] && d.slot == end.state.confirmed)
  {
    RunKeeps(w, events, end);
  }

  // ----- trials -----

  /** Boots in a row, each finding the images as they are then. */
  function Boots(s: State, images: seq<Slots>, maximumTrials: Byte): (r: (State, seq<Decision>))
    ensures |r.1| == |images|
    decreases |images|
  {
    if |images| == 0 then (s, [])
    else
      var (t, d) := Select(s, images[0], maximumTrials);
      var (end, rest) := Boots(t, images[1..], maximumTrials);
      (end, [d] + rest)
  }

  predicate ConfirmedIntact(s: State, images: seq<Slots>) {
    Valid(s) && forall i :: 0 <= i < |images| ==> Eligible(s.minimumVersion, images[i][s.confirmed])
  }

  lemma {:induction false} SettledBoots(s: State, images: seq<Slots>, maximumTrials: Byte)
    requires ConfirmedIntact(s, images) && s.pending == NO_SLOT && maximumTrials != 0
    ensures Boots(s, images, maximumTrials).0 == s
    ensures forall i :: 0 <= i < |images| ==>
      Boots(s, images, maximumTrials).1[i] == Decision(s.confirmed, Confirmed, false)
    decreases |images|
  {
    if |images| > 0 {
      SettledBoots(s, images[1..], maximumTrials);
    }
  }

  /** Trial boots first, then one boot that drops the trial, then confirmed boots only. */
  predicate TrialsFirst(s: State, ds: seq<Decision>, trials: nat) {
    && trials <= |ds|
    && (forall i :: 0 <= i < trials ==> ds[i] == Decision(s.pending, Trial, true))
    && (trials < |ds| ==>
          ds[trials] == Decision(s.confirmed, if s.pending == NO_SLOT then Confirmed else Fallback, s.pending != NO_SLOT))
    && (forall i :: trials < i < |ds| ==> ds[i] == Decision(s.confirmed, Confirmed, false))
  }

  lemma OneMoreTrial(s: State, t: State, later: seq<Decision>, trials: nat)
    requires TrialsFirst(t, later, trials)
    requires t.pending == s.pending && t.confirmed == s.confirmed
    ensures TrialsFirst(s, [Decision(s.pending, Trial, true)] + later, trials + 1)
  {
  }

  /** How many boots in a row are trials: as long as the pending image is eligible at each, up to the limit, and no
      fewer. */
  predicate LeadingTrials(s: State, images: seq<Slots>, maximumTrials: Byte, trials: nat) {
    && trials <= |images|
    && (trials > 0 ==> SlotId(s.pending) && trials + s.attempts <= maximumTrials)
    && (forall i :: 0 <= i < trials ==> Eligible(s.minimumVersion, images[i][s.pending]))
    && (trials < |images| && SlotId(s.pending) && trials + s.attempts < maximumTrials ==>
          !Eligible(s.minimumVersion, images[trials][s.pending]))
  }

  lemma OneMoreLeading(s: State, images: seq<Slots>, maximumTrials: Byte, trials: nat)
    requires |images| > 0 && SlotId(s.pending) && s.attempts < maximumTrials
    requires Eligible(s.minimumVersion, images[0][s.pending])
    requires LeadingTrials(s.(attempts := s.attempts + 1), images[1..], maximumTrials, trials)
    ensures LeadingTrials(s, images, maximumTrials, trials + 1)
  {
    forall i | 0 <= i < trials + 1 ensures Eligible(s.minimumVersion, images[i][s.pending]) {
      if i > 0 {
        assert images[i] == images[1..][i - 1];
      }
    }
    if trials + 1 < |images| {
      assert images[trials + 1] == images[1..][trials];
    }
  }

  /** Without a confirmation, boots try the pending image first: exactly as many in a row as find it eligible, capped
      by the trials left; then they fall back to the confirmed slot and stay there, whatever becomes of it. */
  lemma {:induction false} TrialsThenFallback(s: State, images: seq<Slots>, maximumTrials: Byte) returns (trials: nat)
    requires ConfirmedIntact(s, images) && maximumTrials != 0
    ensures LeadingTrials(s, images, maximumTrials, trials)
    ensures TrialsFirst(s, Boots(s, images, maximumTrials).1, trials)
    decreases |images|
  {
    trials := 0;
    if |images| > 0 {
      var (t, d) := Select(s, images[0], maximumTrials);
      var rest := images[1..];
      assert ConfirmedIntact(t, rest);
      if d.kind == Trial {
        var more := TrialsThenFallback(t, rest, maximumTrials);
        OneMoreTrial(s, t, Boots(t, rest, maximumTrials).1, more);
        OneMoreLeading(s, images, maximumTrials, more);
        trials := more + 1;
      } else {
        SettledBoots(t, rest, maximumTrials);
      }
    }
  }

  /** After staging, boots run the new image exactly maximumTrials times, or as often as there are boots, while it
      stays eligible. */
  lemma StagedImageIsTried(s: State, candidate: Byte, slots: Slots, images: seq<Slots>, maximumTrials: Byte)
    requires Stage(s, candidate, slots).1 && maximumTrials != 0
    requires ConfirmedIntact(Stage(s, candidate, slots).0, images)
    requires forall i :: 0 <= i < |images| ==> Eligible(s.minimumVersion, images[i][candidate])
    ensures var ds := Boots(Stage(s, candidate, slots).0, images, maximumTrials).1;
      forall i :: 0 <= i < |images| ==>
        ds[i] == if i < maximumTrials then Decision(candidate, Trial, true)
                 else Decision(s.confirmed, if i == maximumTrials then Fallback else Confirmed, i == maximumTrials)
  {
    var trials := TrialsThenFallback(Stage(s, candidate, slots).0, images, maximumTrials);
    assert trials == if |images| < maximumTrials then |images| else maximumTrials;
  }

  /** After staging, at most maximumTrials boots run the new image unless it is confirmed. */
  lemma StagedTrialsAreBounded(s: State, candidate: Byte, slots: Slots, images: seq<Slots>, maximumTrials: Byte)
    requires Stage(s, candidate, slots).1 && maximumTrials != 0
    requires ConfirmedIntact(Stage(s, candidate, slots).0, images)
    ensures var ds := Boots(Stage(s, candidate, slots).0, images, maximumTrials).1;
      && (forall i :: 0 <= i < |images| && ds[i].kind == Trial ==> i < maximumTrials && ds[i].slot == candidate)
      && (forall i :: maximumTrials <= i < |images| ==> ds[i].slot == s.confirmed)
      && (forall i :: maximumTrials < i < |images| ==> ds[i].kind == Confirmed)
  {
    var trials := TrialsThenFallback(Stage(s, candidate, slots).0, images, maximumTrials);
  }

  // ----- what each operation is for -----

  /** A boot starts an image whenever some slot holds one it may start, and only such an image: the pending one while
      it has trials left, else the confirmed one, else by way of recovery the other. */
  lemma BootsWheneverPossible(s: State, slots: Slots, maximumTrials: Byte)
    requires Valid(s) && maximumTrials != 0
    ensures var d := Select(s, slots, maximumTrials).1; var floor := s.minimumVersion;
      && (d.kind == Nothing <==> !Eligible(floor, slots[SLOT_A]) && !Eligible(floor, slots[SLOT_B]))
      && (d.kind != Nothing ==> SlotId(d.slot) && Eligible(floor, slots[d.slot]))
      && (d.kind == Recovery ==> d.slot != s.confirmed && !Eligible(floor, slots[s.confirmed]))
      && (d.kind in [Confirmed, Fallback] ==> d.slot == s.confirmed)
      && (d.kind == Trial ==> d.slot == s.pending)
  {
    assert s.confirmed == SLOT_A || s.confirmed == SLOT_B;
  }

  /** Confirming adopts the running image: from then on boots run it as the confirmed one, for as long as it is there,
      and nothing older is ever started. It is refused exactly for images that were not to be run. */
  lemma ConfirmedIsAdopted(s: State, running: Byte, slots: Slots, images: seq<Slots>, maximumTrials: Byte)
    requires maximumTrials != 0
    ensures var (t, ok) := Confirm(s, running, slots);
      && (ok <==> Valid(s) && running in [s.confirmed, s.pending] && SlotId(running)
                  && Eligible(s.minimumVersion, slots[running]))
      && (!ok ==> t == s)
      && (ok ==>
            && Valid(t) && t.confirmed == running && t.pending == NO_SLOT
            && slots[running].version <= t.minimumVersion && s.minimumVersion <= t.minimumVersion
            && t.minimumVersion in [s.minimumVersion, slots[running].version]
            && Eligible(t.minimumVersion, slots[running])
            && ((forall i :: 0 <= i < |images| ==> images[i][running] == slots[running]) ==>
                  forall i :: 0 <= i < |images| ==>
                    Boots(t, images, maximumTrials).1[i] == Decision(running, Confirmed, false)))
  {
    var (t, ok) := Confirm(s, running, slots);
    if ok && forall i :: 0 <= i < |images| ==> images[i][running] == slots[running] {
      SettledBoots(t, images, maximumTrials);
    }
  }

  /** Staging is refused exactly for the confirmed slot and for images that may not be run; otherwise it makes the
      image pending with all its trials to come, and changes nothing else. */
  lemma StagedExactly(s: State, candidate: Byte, slots: Slots)
    ensures var (t, ok) := Stage(s, candidate, slots);
      && (ok <==> Valid(s) && candidate in [SLOT_A, SLOT_B] && candidate != s.confirmed
                  && Eligible(s.minimumVersion, slots[candidate]))
      && (!ok ==> t == s)
      && (ok ==> Valid(t) && t.pending == candidate && t.attempts == 0
                 && t.confirmed == s.confirmed && t.minimumVersion == s.minimumVersion)
  {
  }

  // ----- the record in memory -----

  class BootRecord {
    var recordVersion: u32
    var minimumVersion: u32
    var confirmedSlot: Byte
    var pendingSlot: Byte
    var pendingAttempts: Byte

    function View(): State
      reads this
    {
      State(recordVersion, minimumVersion, confirmedSlot, pendingSlot, pendingAttempts)
    }

    constructor (s: State)
      ensures View() == s
    {
      recordVersion, minimumVersion := s.recordVersion, s.minimumVersion;
      confirmedSlot, pendingSlot, pendingAttempts := s.confirmed, s.pending, s.attempts;
    }

    method StageImage(candidate: Byte, slots: Slots) returns (ok: bool)
      modifies this
      ensures (View(), ok) == Stage(old(View()), candidate, slots)
    {
      if !Valid(View()) || !SlotId(candidate) || candidate == confirmedSlot {
        return false;
      }
      if !Eligible(minimumVersion, slots[candidate]) {
        return false;
      }
      pendingSlot, pendingAttempts := candidate, 0;
      return true;
    }

    method SelectImage(slots: Slots, maximumTrials: Byte) returns (decision: Decision)
      modifies this
      ensures (View(), decision) == Select(old(View()), slots, maximumTrials)
    {
      decision := Decision(NO_SLOT, Nothing, false);
      if !Valid(View()) || maximumTrials == 0 {
        return;
      }
      if SlotId(pendingSlot) && Eligible(minimumVersion, slots[pendingSlot]) && pendingAttempts < maximumTrials {
        pendingAttempts := pendingAttempts + 1;
        return Decision(pendingSlot, Trial, true);
      }
      if pendingSlot != NO_SLOT {
        pendingSlot, pendingAttempts := NO_SLOT, 0;
        decision := decision.(stateChanged := true);
      }
      if Eligible(minimumVersion, slots[confirmedSlot]) {
        return decision.(slot := confirmedSlot, kind := if decision.stateChanged then Fallback else Confirmed);
      }
      var other := 1 - confirmedSlot;
      if Eligible(minimumVersion, slots[other]) {
        decision := decision.(slot := other, kind := Recovery);
      }
    }

    method ConfirmImage(running: Byte, slots: Slots) returns (ok: bool)
      modifies this
      ensures (View(), ok) == Confirm(old(View()), running, slots)
    {
      if !Valid(View()) || !SlotId(running) {
        return false;
      }
      if !Eligible(minimumVersion, slots[running]) || (running != confirmedSlot && running != pendingSlot) {
        return false;
      }
      confirmedSlot, pendingSlot, pendingAttempts := running, NO_SLOT, 0;
      if slots[running].version > minimumVersion {
        minimumVersion := slots[running].version;
      }
      return true;
    }
  }
}
