/** Staging an update: the image is checked while it is written to the slot that is not confirmed, read
    back chunk by chunk, and made pending only when everything holds. Any failure latches. */
module UpdateStager {
  import opened Words
  import Boot = BootPolicy
  import V = UpdateVerifier

  type Bytes = seq<Byte>

  const MAX_CHUNK_BYTES: nat := 256

  type SlotIndex = n: nat | n < 2

  type Images = s: seq<Bytes> | |s| == 2 witness [[], []]

  datatype Stager = Stager(
    boot: Boot.State, slots: Boot.Slots, candidate: SlotIndex, verifier: V.Verifier,
    written: nat, active: bool, complete: bool, failed: bool)

  /** The stager, the contents of the two image slots, and the boot record last persisted. Accepted are
      the chunks taken since the session began; nothing the device does depends on them. */
  datatype Device = Device(s: Stager, images: Images, persisted: Option<Boot.State>, accepted: seq<Bytes>)

  datatype Config = Config(platform: V.Platform, crypto: V.Crypto)

  /** What the environment does during one call: hooks that succeed or not, what a write really stores,
      and what an erased or invalidated slot then holds. */
  datatype Env = Env(
    hash: bool, erase: bool, write: bool, stored: Bytes, read: bool,
    authentic: bool, persist: bool, leftBehind: Option<Boot.State>, wiped: Bytes)

  function Fresh(boot: Boot.State, slots: Boot.Slots): Stager {
    Stager(boot, slots, if boot.confirmed == 0 then 1 else 0, V.Idle, 0, false, false, false)
  }

  predicate CanInit(boot: Boot.State, slots: Boot.Slots) {
    Boot.Valid(boot) && slots[boot.confirmed].present && slots[boot.confirmed].authenticated
  }

  function Overlay(image: Bytes, offset: nat, data: Bytes): (r: Bytes)
    ensures |r| == |image|
  {
    if offset + |data| <= |image| then image[..offset] + data + image[offset + |data|..] else image
  }

  /** Failing latches, and invalidates the candidate slot. */
  function Fail(d: Device, env: Env): Device {
    d.(s := d.s.(active := false, failed := true), images := d.images[d.s.candidate := env.wiped])
  }

  function Begin(c: Config, d: Device, wire: Bytes, env: Env): (Device, bool)
    requires |wire| == V.MANIFEST_BYTES
  {
    if d.s.active || d.s.complete || d.s.failed then (d, false)
    else
      var (v, ok) := V.Begin(d.s.verifier, c.platform, c.crypto, wire, env.hash);
      var e := d.(s := d.s.(verifier := v));
      if !ok then (e, false)
      else
        var f := e.(images := e.images[e.s.candidate := env.wiped]);
        if !env.erase then (Fail(f, env), false)
        else (f.(s := f.s.(written := 0, active := true), accepted := []), true)
  }

  /** Store a chunk the hash has taken, and compare what reads back. */
  function StoreChunk(d: Device, data: Bytes, env: Env): (Device, bool) {
    var image := Overlay(d.images[d.s.candidate], d.s.written, env.stored);
    var e := d.(images := d.images[d.s.candidate := image]);
    var end := d.s.written + |data|;
    if !env.write || !env.read || end > |image| || image[d.s.written..end] != data then (Fail(e, env), false)
    else (e.(s := e.s.(written := end), accepted := e.accepted + [data]), true)
  }

  function Write(c: Config, d: Device, data: Bytes, env: Env): (Device, bool) {
    if !d.s.active || |data| == 0 || |data| > MAX_CHUNK_BYTES then (Fail(d, env), false)
    else
      var (v, ok) := V.Write(d.s.verifier, data, env.hash);
      var e := d.(s := d.s.(verifier := v));
      if !ok then (Fail(e, env), false) else StoreChunk(e, data, env)
  }

  function Staged(s: Stager, version: u32): (Boot.State, Boot.Slots, bool)
  {
    var slots := s.slots[s.candidate := Boot.Slot(true, true, version)];
    var (boot, ok) := Boot.Stage(s.boot, s.candidate, slots);
    (boot, slots, ok)
  }

  /** The last step: make the candidate pending, if its version may be staged and the record persists. */
  function MakePending(d: Device, version: u32, env: Env): (Device, bool) {
    var (boot, slots, staged) := Staged(d.s, version);
    if !staged then (Fail(d, env), false)
    else if !env.persist then (Fail(d.(persisted := env.leftBehind), env), false)
    else (d.(s := d.s.(boot := boot, slots := slots, active := false, complete := true), persisted := Some(boot)), true)
  }

  function Finish(c: Config, d: Device, env: Env): (Device, bool) {
    if !d.s.active then (Fail(d, env), false)
    else
      var (v, ok) := V.Finish(d.s.verifier, c.crypto, env.hash);
      var e := d.(s := d.s.(verifier := v));
      if !ok || !env.authentic || v.manifest.None? then (Fail(e, env), false)
      else MakePending(e, v.manifest.value.imageVersion, env)
  }

  // ----- what every call keeps -----

  /** While a session is on, the candidate slot begins with the accepted chunks, the hash has absorbed
      them, and every count is their length. */
  predicate Kept(c: Config, d: Device) {
    && Boot.Valid(d.s.boot) && d.s.candidate == 1 - d.s.boot.confirmed as nat
    && (d.s.active ==>
          && !d.s.complete && !d.s.failed && d.s.verifier.active && d.s.verifier.manifest.Some?
          && d.s.verifier.absorbed == V.Concat(d.accepted)
          && d.s.written == d.s.verifier.received == |V.Concat(d.accepted)| <= d.s.verifier.manifest.value.imageSize
          && d.s.written <= |d.images[d.s.candidate]|
          && d.images[d.s.candidate][..d.s.written] == V.Concat(d.accepted))
  }

  /** The confirmed slot and what the boot record says of it are as before. */
  predicate ConfirmedUntouched(before: Device, after: Device)
    requires Boot.Valid(before.s.boot)
  {
    && after.s.boot.confirmed == before.s.boot.confirmed && after.s.candidate == before.s.candidate
    && after.images[before.s.boot.confirmed] == before.images[before.s.boot.confirmed]
    && after.s.slots[before.s.boot.confirmed] == before.s.slots[before.s.boot.confirmed]
  }

  lemma BeginKeeps(c: Config, d: Device, wire: Bytes, env: Env)
    requires Kept(c, d) && |wire| == V.MANIFEST_BYTES
    ensures Kept(c, Begin(c, d, wire, env).0) && ConfirmedUntouched(d, Begin(c, d, wire, env).0)
  {
  }

  lemma ConcatMore(chunks: seq<Bytes>, chunk: Bytes)
    ensures V.Concat(chunks + [chunk]) == V.Concat(chunks) + chunk
  {
    assert (chunks + [chunk])[..|chunks|] == chunks;
  }

  lemma OverlayHolds(image: Bytes, offset: nat, stored: Bytes, data: Bytes)
    requires offset + |data| <= |image|
    requires Overlay(image, offset, stored)[offset..offset + |data|] == data
    ensures Overlay(image, offset, stored)[..offset] == image[..offset]
    ensures Overlay(image, offset, stored)[..offset + |data|] == image[..offset] + data
  {
    var r := Overlay(image, offset, stored);
    assert r[..offset + |data|] == r[..offset] + r[offset..offset + |data|];
  }

  lemma WriteKeeps(c: Config, d: Device, data: Bytes, env: Env)
    requires Kept(c, d)
    ensures Kept(c, Write(c, d, data, env).0) && ConfirmedUntouched(d, Write(c, d, data, env).0)
    ensures Write(c, d, data, env).1 ==> Write(c, d, data, env).0.accepted == d.accepted + [data]
  {
    if Write(c, d, data, env).1 {
      ConcatMore(d.accepted, data);
      OverlayHolds(d.images[d.s.candidate], d.s.written, env.stored, data);
    }
  }

  lemma FinishKeeps(c: Config, d: Device, env: Env)
    requires Kept(c, d)
    ensures Kept(c, Finish(c, d, env).0) && ConfirmedUntouched(d, Finish(c, d, env).0)
  {
  }

  /** Success means that the candidate slot holds exactly the accepted chunks, that they are the image
      the approved manifest describes, and that the persisted record has that slot pending, untried. */
  lemma FinishMeans(c: Config, d: Device, env: Env)
    requires Kept(c, d) && Finish(c, d, env).1
    ensures var (e, image, m) := (Finish(c, d, env).0, V.Concat(d.accepted), d.s.verifier.manifest);
      && m.Some? && |image| == m.value.imageSize <= |e.images[e.s.candidate]|
      && e.images[e.s.candidate][..m.value.imageSize] == image && c.crypto.digest(image) == m.value.digest
      && e.persisted == Some(d.s.boot.(pending := e.s.candidate, attempts := 0)) == Some(e.s.boot)
      && e.s.candidate == d.s.candidate && e.s.complete && !e.s.failed
  {
  }

  // ----- runs -----

  datatype Event = Beginning(wire: Bytes, env: Env) | Writing(data: Bytes, env: Env) | Finishing(env: Env)

  function Next(c: Config, d: Device, e: Event): (Device, bool)
  {
    match e
    case Beginning(wire, env) => if |wire| == V.MANIFEST_BYTES then Begin(c, d, wire, env) else (d, false)
    case Writing(data, env) => Write(c, d, data, env)
    case Finishing(env) => Finish(c, d, env)
  }

  ghost predicate Run(c: Config, d: Device, events: seq<Event>, end: Device)
    requires Kept(c, d)
    decreases |events|
  {
    if |events| == 0 then end == d
    else StepKeeps(c, d, events[0]); Run(c, Next(c, d, events[0]).0, events[1..], end)
  }

  lemma StepKeeps(c: Config, d: Device, e: Event)
    requires Kept(c, d)
    ensures Kept(c, Next(c, d, e).0) && ConfirmedUntouched(d, Next(c, d, e).0)
    ensures d.s.failed ==> Next(c, d, e).0.s.failed && !Next(c, d, e).1
  {
    match e {
      case Beginning(wire, env) => if |wire| == V.MANIFEST_BYTES { BeginKeeps(c, d, wire, env); }
      case Writing(data, env) => WriteKeeps(c, d, data, env);
      case Finishing(env) => FinishKeeps(c, d, env);
    }
  }

  /** Over any run of calls, whatever the environment does, the confirmed slot keeps its image, its
      description and its confirmation; and a latched failure is never undone. */
  lemma {:induction false} RunKeeps(c: Config, d: Device, events: seq<Event>, end: Device)
    requires Kept(c, d) && Run(c, d, events, end)
    ensures Kept(c, end) && ConfirmedUntouched(d, end)
    ensures d.s.failed ==> end.s.failed
    decreases |events|
  {
    if |events| > 0 {
      StepKeeps(c, d, events[0]);
      RunKeeps(c, Next(c, d, events[0]).0, events[1..], end);
    }
  }

  // ----- where the manifest comes from -----

  /** This call begins with a manifest that the device approves. */
  predicate Approving(c: Config, e: Event, m: V.Manifest) {
    && e.Beginning? && |e.wire| == V.MANIFEST_BYTES
    && V.Approves(c.platform, c.crypto, e.wire) && V.Fields(e.wire) == m
  }

  ghost predicate ApprovedIn(c: Config, events: seq<Event>, m: V.Manifest) {
    exists i :: 0 <= i < |events| && Approving(c, events[i], m)
  }

  lemma WriteKeepsManifest(c: Config, d: Device, data: Bytes, env: Env)
    ensures Write(c, d, data, env).0.s.verifier.manifest == d.s.verifier.manifest
  {
  }

  lemma FinishKeepsManifest(c: Config, d: Device, env: Env)
    ensures Finish(c, d, env).0.s.verifier.manifest == d.s.verifier.manifest
  {
  }

  lemma BeginTakesApproved(c: Config, d: Device, wire: Bytes, env: Env)
    requires |wire| == V.MANIFEST_BYTES
    ensures var m := Begin(c, d, wire, env).0.s.verifier.manifest;
      m == d.s.verifier.manifest || m == None || (V.Approves(c.platform, c.crypto, wire) && V.Fields(wire) == m.value)
  {
  }

  lemma ManifestStep(c: Config, d: Device, e: Event)
    ensures var m := Next(c, d, e).0.s.verifier.manifest;
      m == d.s.verifier.manifest || m == None || Approving(c, e, m.value)
  {
    match e {
      case Beginning(wire, env) => if |wire| == V.MANIFEST_BYTES { BeginTakesApproved(c, d, wire, env); }
      case Writing(data, env) => WriteKeepsManifest(c, d, data, env);
      case Finishing(env) => FinishKeepsManifest(c, d, env);
    }
  }

  lemma {:induction false} ManifestWasApproved(c: Config, d: Device, events: seq<Event>, end: Device)
    requires Kept(c, d) && Run(c, d, events, end)
    ensures var m := end.s.verifier.manifest;
      m == d.s.verifier.manifest || m == None || ApprovedIn(c, events, m.value)
    decreases |events|
  {
    if |events| > 0 {
      var next, m := Next(c, d, events[0]).0, end.s.verifier.manifest;
      StepKeeps(c, d, events[0]);
      ManifestStep(c, d, events[0]);
      ManifestWasApproved(c, next, events[1..], end);
      if m != None && m != next.s.verifier.manifest {
        var i :| 0 <= i < |events[1..]| && Approving(c, events[1..][i], m.value);
        assert events[1..][i] == events[i + 1];
      } else if m != None && m != d.s.verifier.manifest {
        assert Approving(c, events[0], m.value);
      }
    }
  }

  /** A finish that succeeds, after any run from initialisation: the promise of the whole module. */
  lemma StagedImageIsTheApprovedOne(c: Config, boot: Boot.State, slots: Boot.Slots, images: Images,
      persisted: Option<Boot.State>, events: seq<Event>, d: Device, env: Env)
    requires CanInit(boot, slots)
    requires Run(c, Device(Fresh(boot, slots), images, persisted, []), events, d)
    requires Finish(c, d, env).1
    ensures var (e, image, m) := (Finish(c, d, env).0, V.Concat(d.accepted), d.s.verifier.manifest);
      && m.Some? && ApprovedIn(c, events, m.value) && m.value.imageVersion > c.platform.confirmedImageVersion
      && V.Matches(c.crypto, m.value, image) && |image| <= |e.images[1 - boot.confirmed]|
      && e.images[1 - boot.confirmed][..|image|] == image
      && e.images[boot.confirmed] == images[boot.confirmed]
      && e.persisted == Some(e.s.boot) && e.s.boot.confirmed == boot.confirmed
      && e.s.boot.pending == 1 - boot.confirmed && e.s.boot.attempts == 0
  {
    RunKeeps(c, Device(Fresh(boot, slots), images, persisted, []), events, d);
    ManifestWasApproved(c, Device(Fresh(boot, slots), images, persisted, []), events, d);
    FinishMeans(c, d, env);
  }

  /** What that says of the bytes: some call began with a manifest for this target and hardware whose signature over
      its first 80 bytes verified under the key it names, and whose size and digest are those of the staged image. */
  lemma StagedImageIsSigned(c: Config, boot: Boot.State, slots: Boot.Slots, images: Images,
      persisted: Option<Boot.State>, events: seq<Event>, d: Device, env: Env) returns (wire: Bytes)
    requires CanInit(boot, slots)
    requires Run(c, Device(Fresh(boot, slots), images, persisted, []), events, d)
    requires Finish(c, d, env).1
    ensures |wire| == V.MANIFEST_BYTES && V.Addressed(c.platform, wire) && V.Signed(c.crypto, wire)
    ensures exists i :: 0 <= i < |events| && events[i].Beginning? && events[i].wire == wire
    ensures var image := V.Concat(d.accepted);
      && |image| == FromLE(wire[20..24]) && c.crypto.digest(image) == wire[24..56]
      && c.platform.confirmedImageVersion < FromLE(wire[12..16])
      && |image| <= |Finish(c, d, env).0.images[1 - boot.confirmed]|
      && Finish(c, d, env).0.images[1 - boot.confirmed][..|image|] == image
  {
    StagedImageIsTheApprovedOne(c, boot, slots, images, persisted, events, d, env);
    var m := d.s.verifier.manifest.value;
    var i :| 0 <= i < |events| && Approving(c, events[i], m);
    wire := events[i].wire;
    V.ApprovesExactly(c.platform, c.crypto, wire);
  }

  /** A session begins exactly when none is on, done or failed, the manifest is approved, and hash and erasing work. */
  lemma BeginsExactly(c: Config, d: Device, wire: Bytes, env: Env)
    requires |wire| == V.MANIFEST_BYTES
    ensures Begin(c, d, wire, env).1 <==>
      && !d.s.active && !d.s.complete && !d.s.failed && !d.s.verifier.active
      && V.Approves(c.platform, c.crypto, wire) && env.hash && env.erase
    ensures Begin(c, d, wire, env).1 ==>
      var e := Begin(c, d, wire, env).0;
      && e.s.active && e.s.written == 0 && e.accepted == [] && e.s.candidate == d.s.candidate
      && e.images == d.images[d.s.candidate := env.wiped]
  {
    V.BeginsExactly(d.s.verifier, c.platform, c.crypto, wire, env.hash);
  }

  // ----- the verdict does not depend on the chunks -----

  /** An environment in which every hook succeeds and writes store what they are given. */
  function Working(data: Bytes): Env { Env(true, true, true, data, true, true, true, None, []) }

  function Feed(c: Config, d: Device, chunks: seq<Bytes>): (r: Device)
    ensures r.s.candidate == d.s.candidate
  {
    if |chunks| == 0 then d
    else
      var e := Feed(c, d, chunks[..|chunks| - 1]);
      Write(c, e, chunks[|chunks| - 1], Working(chunks[|chunks| - 1])).0
  }

  predicate Sized(chunks: seq<Bytes>) {
    forall i :: 0 <= i < |chunks| ==> 0 < |chunks[i]| <= MAX_CHUNK_BYTES
  }

  /** A session just begun on a slot with room for the image. */
  predicate Begun(c: Config, d: Device) {
    Kept(c, d) && d.s.active && d.accepted == [] && |d.images[d.s.candidate]| >= d.s.verifier.manifest.value.imageSize
  }

  lemma WorkingWrite(c: Config, d: Device, data: Bytes)
    requires Kept(c, d) && (d.s.active ==> |d.images[d.s.candidate]| >= d.s.verifier.manifest.value.imageSize)
    ensures var (e, ok) := Write(c, d, data, Working(data));
      && (ok <==> d.s.active && 0 < |data| <= MAX_CHUNK_BYTES
                  && |V.Concat(d.accepted)| + |data| <= d.s.verifier.manifest.value.imageSize)
      && e.s.active == ok && Kept(c, e) && e.s.boot == d.s.boot && e.s.slots == d.s.slots
      && (ok ==> e.accepted == d.accepted + [data] && e.s.verifier.manifest == d.s.verifier.manifest
                 && |e.images[e.s.candidate]| == |d.images[d.s.candidate]|)
  {
    WriteKeeps(c, d, data, Working(data));
  }

  predicate Carries(c: Config, d: Device, e: Device, chunks: seq<Bytes>)
    requires d.s.verifier.manifest.Some?
  {
    && Kept(c, e) && e.s.boot == d.s.boot && e.s.slots == d.s.slots && e.s.candidate == d.s.candidate
    && (e.s.active <==> Sized(chunks) && |V.Concat(chunks)| <= d.s.verifier.manifest.value.imageSize)
    && (e.s.active ==>
          && e.accepted == chunks && e.s.verifier.manifest == d.s.verifier.manifest
          && |e.images[e.s.candidate]| >= d.s.verifier.manifest.value.imageSize)
  }

  lemma {:induction false} FeedCarries(c: Config, d: Device, chunks: seq<Bytes>)
    requires Begun(c, d)
    ensures Carries(c, d, Feed(c, d, chunks), chunks)
  {
    var n := |chunks|;
    if n > 0 {
      FeedCarries(c, d, chunks[..n - 1]);
      CarriesMore(c, d, Feed(c, d, chunks[..n - 1]), chunks[..n - 1], chunks[n - 1]);
      assert chunks == chunks[..n - 1] + [chunks[n - 1]];
    }
  }

  lemma SizedMore(chunks: seq<Bytes>, chunk: Bytes)
    ensures Sized(chunks + [chunk]) <==> Sized(chunks) && 0 < |chunk| <= MAX_CHUNK_BYTES
  {
    assert forall i :: 0 <= i < |chunks| ==> (chunks + [chunk])[i] == chunks[i];
    assert (chunks + [chunk])[|chunks|] == chunk;
  }

  lemma CarriesMore(c: Config, d: Device, e: Device, chunks: seq<Bytes>, chunk: Bytes)
    requires d.s.verifier.manifest.Some? && Carries(c, d, e, chunks)
    ensures Carries(c, d, Write(c, e, chunk, Working(chunk)).0, chunks + [chunk])
  {
    ConcatMore(chunks, chunk);
    SizedMore(chunks, chunk);
    WorkingWrite(c, e, chunk);
    WriteKeeps(c, e, chunk, Working(chunk));
  }

  lemma WorkingFinish(c: Config, d: Device)
    requires Kept(c, d)
    ensures Finish(c, d, Working([])).1 <==>
      && d.s.active && V.Matches(c.crypto, d.s.verifier.manifest.value, V.Concat(d.accepted))
      && d.s.verifier.manifest.value.imageVersion >= d.s.boot.minimumVersion
  {
  }

  /** On a working device a session succeeds exactly when the bytes are the approved image and its version
      may be staged; how they were cut into chunks of legal size makes no difference. */
  lemma VerdictIsOfTheImage(c: Config, d: Device, chunks: seq<Bytes>)
    requires Begun(c, d)
    ensures Finish(c, Feed(c, d, chunks), Working([])).1 <==>
      && Sized(chunks) && V.Matches(c.crypto, d.s.verifier.manifest.value, V.Concat(chunks))
      && d.s.verifier.manifest.value.imageVersion >= d.s.boot.minimumVersion
  {
    FeedCarries(c, d, chunks);
    WorkingFinish(c, Feed(c, d, chunks));
  }

  lemma ChunkingIsImmaterial(c: Config, d: Device, xs: seq<Bytes>, ys: seq<Bytes>)
    requires Begun(c, d) && Sized(xs) && Sized(ys) && V.Concat(xs) == V.Concat(ys)
    ensures Finish(c, Feed(c, d, xs), Working([])).1 == Finish(c, Feed(c, d, ys), Working([])).1
  {
    VerdictIsOfTheImage(c, d, xs);
    VerdictIsOfTheImage(c, d, ys);
  }

  // ----- calls after success -----

  /** A begin is refused and changes nothing; any other call latches a failure and wipes the very slot that
      was made pending, while the persisted record still has it pending. */
  lemma CallAfterSuccess(c: Config, d: Device, e: Event)
    requires d.s.complete && !d.s.active
    ensures Next(c, d, e) == (if e.Beginning? then d else Fail(d, e.env), false)
  {
  }

  datatype Call = BeginCall(wire: Bytes) | WriteCall(data: Bytes) | FinishCall

  function Under(call: Call, env: Env): Event {
    match call
    case BeginCall(wire) => Beginning(wire, env)
    case WriteCall(data) => Writing(data, env)
    case FinishCall => Finishing(env)
  }

  /** The device after these calls, each in its environment. */
  function After(c: Config, d: Device, calls: seq<Call>, envs: seq<Env>): Device
    requires |calls| == |envs|
    decreases |calls|
  {
    if |calls| == 0 then d else After(c, Next(c, d, Under(calls[0], envs[0])).0, calls[1..], envs[1..])
  }

  /** The candidate image is what it was, whatever the environment does. */
  ghost predicate Survives(c: Config, d: Device, calls: seq<Call>) {
    forall envs: seq<Env> :: |envs| == |calls| ==>
      After(c, d, calls, envs).images[d.s.candidate] == d.images[d.s.candidate]
  }

  predicate OnlyBegins(calls: seq<Call>) { forall i :: 0 <= i < |calls| ==> calls[i].BeginCall? }

  lemma {:induction false} BeginsChangeNothing(c: Config, d: Device, calls: seq<Call>, envs: seq<Env>)
    requires d.s.complete && !d.s.active && |calls| == |envs| && OnlyBegins(calls)
    ensures After(c, d, calls, envs) == d
    decreases |calls|
  {
    if |calls| > 0 {
      CallAfterSuccess(c, d, Under(calls[0], envs[0]));
      assert OnlyBegins(calls[1..]);
      BeginsChangeNothing(c, d, calls[1..], envs[1..]);
    }
  }

  /** An environment that leaves this in a wiped slot. */
  function Wiping(after: Bytes): Env { Env(true, true, true, [], true, true, true, None, after) }

  lemma {:induction false} OthersWipe(c: Config, d: Device, calls: seq<Call>, after: Bytes)
    requires d.s.complete && !d.s.active
    ensures var e := After(c, d, calls, seq(|calls|, _ => Wiping(after)));
      && e.s.candidate == d.s.candidate && e.persisted == d.persisted
      && (if OnlyBegins(calls) then e == d else e.s.failed && e.images[d.s.candidate] == after)
    decreases |calls|
  {
    var envs := seq(|calls|, _ => Wiping(after));
    if |calls| > 0 {
      var next := Next(c, d, Under(calls[0], envs[0])).0;
      CallAfterSuccess(c, d, Under(calls[0], envs[0]));
      assert envs[1..] == seq(|calls[1..]|, _ => Wiping(after));
      OthersWipe(c, next, calls[1..], after);
      assert OnlyBegins(calls) <==> calls[0].BeginCall? && OnlyBegins(calls[1..]) by {
        assert calls == [calls[0]] + calls[1..];
      }
    }
  }

  /** The image made pending survives every environment exactly when the calls after success are all begins. */
  lemma PendingImageSurvivesExactly(c: Config, d: Device, first: Env, calls: seq<Call>)
    requires Kept(c, d) && Finish(c, d, first).1
    ensures Survives(c, Finish(c, d, first).0, calls) <==> OnlyBegins(calls)
  {
    var e := Finish(c, d, first).0;
    FinishMeans(c, d, first);
    if OnlyBegins(calls) {
      forall envs: seq<Env> | |envs| == |calls|
        ensures After(c, e, calls, envs).images[e.s.candidate] == e.images[e.s.candidate] {
        BeginsChangeNothing(c, e, calls, envs);
      }
    } else {
      var other := e.images[e.s.candidate] + [0];
      OthersWipe(c, e, calls, other);
      assert |seq(|calls|, _ => Wiping(other))| == |calls|;
    }
  }

  /** A stray write after success, say. */
  lemma StrayCallSpoilsStagedImage(c: Config, d: Device, first: Env, data: Bytes, second: Env)
    requires Kept(c, d) && Finish(c, d, first).1
    ensures var e := Finish(c, d, first).0;
      var stray := Write(c, e, data, second);
      && !stray.1 && stray.0.s.failed && stray.0.s.complete
      && stray.0.images[d.s.candidate] == second.wiped
      && stray.0.persisted == e.persisted && e.persisted.Some? && e.persisted.value.pending as nat == d.s.candidate
  {
    FinishMeans(c, d, first);
    CallAfterSuccess(c, Finish(c, d, first).0, Writing(data, second));
  }
}
