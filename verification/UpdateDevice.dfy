/** The update path in memory: the streaming verifier and the stager as objects, over a storage backend
    whose every call names the slot it touches. */
module UpdateDevice {
  import opened Words
  import Boot = BootPolicy
  import V = UpdateVerifier
  import S = UpdateStager

  type Bytes = seq<Byte>

  method NonzeroBytes(bytes: Bytes) returns (nonzero: bool)
    ensures nonzero == V.Nonzero(bytes)
  {
    var i := 0;
    nonzero := false;
    while i < |bytes|
      invariant 0 <= i <= |bytes|
      invariant nonzero == exists k :: 0 <= k < i && bytes[k] != 0
    {
      nonzero := nonzero || bytes[i] != 0;
      i := i + 1;
    }
  }

  /** Compares every byte whatever it has found so far. */
  method EqualBytes(left: Bytes, right: Bytes) returns (equal: bool)
    requires |left| == |right|
    ensures equal == (left == right)
  {
    var i := 0;
    equal := true;
    while i < |left|
      invariant 0 <= i <= |left|
      invariant equal == (left[..i] == right[..i])
    {
      ghost var same := left[..i] == right[..i];
      assert left[..i + 1] == left[..i] + [left[i]] && right[..i + 1] == right[..i] + [right[i]];
      equal := equal && left[i] == right[i];
      i := i + 1;
    }
    assert left[..i] == left && right[..i] == right;
  }

  class ImageVerifier {
    const config: S.Config
    var manifest: Option<V.Manifest>
    var receivedBytes: nat
    var active: bool
    var verified: bool
    var absorbed: Bytes
    var rejectedManifests: nat
    var hashFailures: nat

    function View(): V.Verifier
      reads this
    {
      V.Verifier(manifest, receivedBytes, active, verified, absorbed)
    }

    constructor (c: S.Config)
      requires V.ValidPlatform(c.platform)
      ensures View() == V.Idle && config == c
    {
      config := c;
      manifest, receivedBytes, active, verified, absorbed := None, 0, false, false, [];
      rejectedManifests, hashFailures := 0, 0;
    }

    method CheckManifest(wire: Bytes) returns (m: V.Manifest, ok: bool)
      requires |wire| == V.MANIFEST_BYTES
      ensures m == V.Fields(wire) && ok == V.Approves(config.platform, config.crypto, wire)
    {
      m := V.Fields(wire);
      var p := config.platform;
      var digest := NonzeroBytes(m.digest);
      var release := NonzeroBytes(m.releaseId);
      var key := NonzeroBytes(m.keyId);
      ok := V.Magic(wire) && m.target == p.target && m.hardwareId == p.hardwareId
         && m.imageVersion >= p.antirollbackFloor && m.imageVersion > p.confirmedImageVersion
         && m.minimumBootloader <= p.bootloaderVersion && m.imageSize > 0 && m.imageSize <= p.maximumImageBytes
         && digest && release && key
         && config.crypto.verify(wire[..V.SIGNED_BYTES], m.keyId, wire[V.SIGNED_BYTES..]);
    }

    method Begin(wire: Bytes, hashBegun: bool) returns (ok: bool)
      requires |wire| == V.MANIFEST_BYTES
      modifies this
      ensures (View(), ok) == V.Begin(old(View()), config.platform, config.crypto, wire, hashBegun)
    {
      if active {
        rejectedManifests := rejectedManifests + 1;
        return false;
      }
      verified, receivedBytes, manifest := false, 0, None;
      var m, approved := CheckManifest(wire);
      if !approved || !hashBegun {
        rejectedManifests := rejectedManifests + 1;
        return false;
      }
      manifest, absorbed, active := Some(m), [], true;
      return true;
    }

    method Write(data: Bytes, hashed: bool) returns (ok: bool)
      modifies this
      ensures (View(), ok) == V.Write(old(View()), data, hashed)
    {
      if !active || manifest.None? || |data| == 0 || receivedBytes > manifest.value.imageSize
        || |data| > manifest.value.imageSize - receivedBytes || !hashed {
        active := false;
        hashFailures := hashFailures + 1;
        return false;
      }
      absorbed := absorbed + data;
      receivedBytes := receivedBytes + |data|;
      return true;
    }

    method Finish(hashFinished: bool) returns (ok: bool)
      modifies this
      ensures (View(), ok) == V.Finish(old(View()), config.crypto, hashFinished)
    {
      if !active || manifest.None? || receivedBytes != manifest.value.imageSize {
        active := false;
        hashFailures := hashFailures + 1;
        return false;
      }
      var digest := config.crypto.digest(absorbed);
      ok := hashFinished && |digest| == |manifest.value.digest|;
      if ok {
        ok := EqualBytes(digest, manifest.value.digest);
      }
      active := false;
      verified := ok;
      if !ok {
        hashFailures := hashFailures + 1;
      }
    }
  }

  /** Two image slots and the boot record. Touched are the slots ever erased, written or invalidated. */
  class SlotStorage {
    var images: S.Images
    var persisted: Option<Boot.State>
    ghost var touched: set<nat>

    constructor (contents: S.Images, record: Option<Boot.State>)
      ensures images == contents && persisted == record && touched == {}
    {
      images, persisted, touched := contents, record, {};
    }

    /** Erasing and invalidating leave whatever the part makes of them. */
    method Wipe(slot: S.SlotIndex, after: Bytes)
      modifies this
      ensures images == old(images)[slot := after] && persisted == old(persisted)
      ensures touched == old(touched) + {slot as nat}
    {
      images := images[slot := after];
      touched := touched + {slot as nat};
    }

    method WriteAt(slot: S.SlotIndex, offset: nat, stored: Bytes)
      modifies this
      ensures images == old(images)[slot := S.Overlay(old(images)[slot], offset, stored)] && persisted == old(persisted)
      ensures touched == old(touched) + {slot as nat}
    {
      images := images[slot := S.Overlay(images[slot], offset, stored)];
      touched := touched + {slot as nat};
    }

    method Persist(record: Option<Boot.State>)
      modifies this`persisted
      ensures persisted == record
    {
      persisted := record;
    }
  }

  class ImageStager {
    const config: S.Config
    const verifier: ImageVerifier
    const storage: SlotStorage
    const candidateSlot: S.SlotIndex
    var bootState: Boot.State
    var slots: Boot.Slots
    var writtenBytes: nat
    var active: bool
    var complete: bool
    var failedLatched: bool
    var failureCount: nat
    ghost var accepted: seq<Bytes>

    ghost function View(): S.Device
      reads this, verifier, storage
    {
      S.Device(
        S.Stager(bootState, slots, candidateSlot, verifier.View(), writtenBytes, active, complete, failedLatched),
        storage.images, storage.persisted, accepted)
    }

    /** Nothing but the slot that was not confirmed at the start is ever touched. */
    ghost predicate Valid()
      reads this, verifier, storage
    {
      && verifier.config == config && S.Kept(config, View())
      && storage.touched <= {candidateSlot as nat}
    }

    constructor (c: S.Config, backend: SlotStorage, boot: Boot.State, imageSlots: Boot.Slots)
      requires V.ValidPlatform(c.platform) && S.CanInit(boot, imageSlots) && backend.touched == {}
      ensures Valid() && fresh(verifier) && storage == backend && config == c
      ensures View() == S.Device(S.Fresh(boot, imageSlots), backend.images, backend.persisted, [])
    {
      config, storage := c, backend;
      verifier := new ImageVerifier(c);
      candidateSlot := if boot.confirmed == 0 then 1 else 0;
      bootState, slots := boot, imageSlots;
      writtenBytes, active, complete, failedLatched, failureCount, accepted := 0, false, false, false, 0, [];
    }

    method Fail(env: S.Env)
      requires storage.touched <= {candidateSlot as nat}
      modifies this, storage
      ensures View() == S.Fail(old(View()), env) && storage.touched <= {candidateSlot as nat}
    {
      failureCount := failureCount + 1;
      active, failedLatched := false, true;
      storage.Wipe(candidateSlot, env.wiped);
    }

    method Begin(wire: Bytes, env: S.Env) returns (ok: bool)
      requires Valid() && |wire| == V.MANIFEST_BYTES
      modifies this, verifier, storage
      ensures Valid() && (View(), ok) == S.Begin(config, old(View()), wire, env)
    {
      S.BeginKeeps(config, View(), wire, env);
      ok := Open(wire, env);
    }

    method Open(wire: Bytes, env: S.Env) returns (ok: bool)
      requires |wire| == V.MANIFEST_BYTES
      requires verifier.config == config && storage.touched <= {candidateSlot as nat}
      modifies this, verifier, storage
      ensures (View(), ok) == S.Begin(config, old(View()), wire, env)
      ensures storage.touched <= {candidateSlot as nat}
    {
      if active || complete || failedLatched {
        return false;
      }
      var begun := verifier.Begin(wire, env.hash);
      if !begun {
        return false;
      }
      storage.Wipe(candidateSlot, env.wiped);
      if !env.erase {
        Fail(env);
        return false;
      }
      writtenBytes, active, accepted := 0, true, [];
      return true;
    }

    method StoreChunk(data: Bytes, env: S.Env) returns (ok: bool)
      requires storage.touched <= {candidateSlot as nat}
      modifies this, storage
      ensures (View(), ok) == S.StoreChunk(old(View()), data, env) && storage.touched <= {candidateSlot as nat}
    {
      storage.WriteAt(candidateSlot, writtenBytes, env.stored);
      if !env.write || !env.read || writtenBytes + |data| > |storage.images[candidateSlot]| {
        Fail(env);
        return false;
      }
      var readback := storage.images[candidateSlot][writtenBytes..writtenBytes + |data|];
      var same := EqualBytes(data, readback);
      if !same {
        Fail(env);
        return false;
      }
      writtenBytes, accepted := writtenBytes + |data|, accepted + [data];
      return true;
    }

    method Write(data: Bytes, env: S.Env) returns (ok: bool)
      requires Valid()
      modifies this, verifier, storage
      ensures Valid() && (View(), ok) == S.Write(config, old(View()), data, env)
    {
      S.WriteKeeps(config, View(), data, env);
      ok := TakeChunk(data, env);
    }

    method TakeChunk(data: Bytes, env: S.Env) returns (ok: bool)
      requires verifier.config == config && storage.touched <= {candidateSlot as nat}
      modifies this, verifier, storage
      ensures (View(), ok) == S.Write(config, old(View()), data, env)
      ensures storage.touched <= {candidateSlot as nat}
    {
      if !active || |data| == 0 || |data| > S.MAX_CHUNK_BYTES {
        Fail(env);
        return false;
      }
      var hashed := verifier.Write(data, env.hash);
      if !hashed {
        Fail(env);
        return false;
      }
      ok := StoreChunk(data, env);
    }

    method Finish(env: S.Env) returns (ok: bool)
      requires Valid()
      modifies this, verifier, storage
      ensures Valid() && (View(), ok) == S.Finish(config, old(View()), env)
    {
      S.FinishKeeps(config, View(), env);
      ok := Conclude(env);
    }

    method Conclude(env: S.Env) returns (ok: bool)
      requires verifier.config == config && storage.touched <= {candidateSlot as nat}
      modifies this, verifier, storage
      ensures (View(), ok) == S.Finish(config, old(View()), env)
      ensures storage.touched <= {candidateSlot as nat}
    {
      if !active {
        Fail(env);
        return false;
      }
      var matched := verifier.Finish(env.hash);
      if !matched || !env.authentic || verifier.manifest.None? {
        Fail(env);
        return false;
      }
      ok := MakePending(verifier.manifest.value.imageVersion, env);
    }

    method MakePending(version: u32, env: S.Env) returns (ok: bool)
      requires storage.touched <= {candidateSlot as nat}
      modifies this, storage
      ensures (View(), ok) == S.MakePending(old(View()), version, env)
      ensures storage.touched <= {candidateSlot as nat}
    {
      var stagedSlots := slots[candidateSlot := Boot.Slot(true, true, version)];
      var (boot, staged) := Boot.Stage(bootState, candidateSlot, stagedSlots);
      if !staged {
        Fail(env);
        return false;
      }
      if !env.persist {
        storage.Persist(env.leftBehind);
        Fail(env);
        return false;
      }
      storage.Persist(Some(boot));
      bootState, slots, active, complete := boot, stagedSlots, false, true;
      return true;
    }
  }
}
