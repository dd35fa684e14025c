/** Update manifests and the streaming check of an image against one. Signature verification and the
    hash are parameters; a hash context is the bytes it has absorbed. */
module UpdateVerifier {
  import opened Words

  type Bytes = seq<Byte>

  const MANIFEST_BYTES: nat := 144
  const SIGNED_BYTES: nat := 80
  const TARGET_RADIO: Byte := 1
  const TARGET_AUDIO: Byte := 2

  datatype Crypto = Crypto(digest: Bytes -> Bytes, verify: (Bytes, Bytes, Bytes) -> bool)

  datatype Platform = Platform(
    target: Byte, hardwareId: u32, bootloaderVersion: u32, antirollbackFloor: u32,
    confirmedImageVersion: u32, maximumImageBytes: u32)

  datatype Manifest = Manifest(
    target: Byte, hardwareId: u32, imageVersion: u32, minimumBootloader: u32, imageSize: u32,
    digest: Bytes, releaseId: Bytes, keyId: Bytes)

  predicate ValidPlatform(p: Platform) {
    && (p.target == TARGET_RADIO || p.target == TARGET_AUDIO)
    && p.hardwareId != 0 && p.bootloaderVersion != 0 && p.maximumImageBytes != 0
  }

  predicate Magic(wire: Bytes)
    requires |wire| == MANIFEST_BYTES
  {
    && wire[0] == 0x4f && wire[1] == 0x52 && wire[2] == 0x55 && wire[3] == 0x50
    && wire[4] == 1 && wire[6] == 0 && wire[7] == 0
  }

  function Fields(wire: Bytes): Manifest
    requires |wire| == MANIFEST_BYTES
  {
    Manifest(wire[5], Word32(wire[8..12]), Word32(wire[12..16]), Word32(wire[16..20]), Word32(wire[20..24]),
             wire[24..56], wire[56..72], wire[72..80])
  }

  predicate Nonzero(bytes: Bytes) { exists i :: 0 <= i < |bytes| && bytes[i] != 0 }

  /** The manifest names this device, moves it forward, and fits. */
  predicate Suits(p: Platform, m: Manifest) {
    && m.target == p.target && m.hardwareId == p.hardwareId
    && m.imageVersion >= p.antirollbackFloor && m.imageVersion > p.confirmedImageVersion
    && m.minimumBootloader <= p.bootloaderVersion
    && 0 < m.imageSize <= p.maximumImageBytes
    && Nonzero(m.digest) && Nonzero(m.releaseId) && Nonzero(m.keyId)
  }

  predicate Approves(p: Platform, c: Crypto, wire: Bytes)
    requires |wire| == MANIFEST_BYTES
  {
    && Magic(wire) && Suits(p, Fields(wire))
    && c.verify(wire[..SIGNED_BYTES], Fields(wire).keyId, wire[SIGNED_BYTES..])
  }

  datatype Verifier = Verifier(
    manifest: Option<Manifest>, received: nat, active: bool, verified: bool, absorbed: Bytes)

  const Idle := Verifier(None, 0, false, false, [])

  /** hashBegun says whether the hash could be started. */
  function Begin(v: Verifier, p: Platform, c: Crypto, wire: Bytes, hashBegun: bool): (Verifier, bool)
    requires |wire| == MANIFEST_BYTES
  {
    if v.active then (v, false)
    else if Approves(p, c, wire) && hashBegun then (Verifier(Some(Fields(wire)), 0, true, false, []), true)
    else (Verifier(None, 0, false, false, v.absorbed), false)
  }

  predicate Takes(v: Verifier, length: nat) {
    && v.active && v.manifest.Some? && length != 0
    && v.received <= v.manifest.value.imageSize && length <= v.manifest.value.imageSize - v.received
  }

  function Write(v: Verifier, data: Bytes, hashed: bool): (Verifier, bool) {
    if Takes(v, |data|) && hashed then
      (v.(received := v.received + |data|, absorbed := v.absorbed + data), true)
    else (v.(active := false), false)
  }

  function Finish(v: Verifier, c: Crypto, hashFinished: bool): (Verifier, bool) {
    if !v.active || v.manifest.None? || v.received != v.manifest.value.imageSize then (v.(active := false), false)
    else
      var valid := hashFinished && c.digest(v.absorbed) == v.manifest.value.digest;
      (v.(active := false, verified := valid), valid)
  }

  // ----- what approval means -----

  /** The four letters of an update manifest in its first version, addressed to this target and hardware. */
  predicate Addressed(p: Platform, wire: Bytes)
    requires |wire| == MANIFEST_BYTES
  {
    wire[..8] == [0x4f, 0x52, 0x55, 0x50, 1, p.target, 0, 0] && FromLE(wire[8..12]) == p.hardwareId
  }

  /** The bytes 80 to 143 sign the first 80 under the key that bytes 72 to 79 name. */
  predicate Signed(c: Crypto, wire: Bytes)
    requires |wire| == MANIFEST_BYTES
  {
    c.verify(wire[..80], wire[72..80], wire[80..144])
  }

  /** A manifest is approved exactly if it is addressed to this device, moves it forward, asks for no newer boot loader,
      announces an image that fits, names a digest, a release and a key, and is signed under that key. */
  lemma ApprovesExactly(p: Platform, c: Crypto, wire: Bytes)
    requires |wire| == MANIFEST_BYTES
    ensures Approves(p, c, wire) <==>
      && Addressed(p, wire) && Signed(c, wire)
      && p.antirollbackFloor <= FromLE(wire[12..16]) && p.confirmedImageVersion < FromLE(wire[12..16])
      && FromLE(wire[16..20]) <= p.bootloaderVersion
      && 0 < FromLE(wire[20..24]) <= p.maximumImageBytes
      && Nonzero(wire[24..56]) && Nonzero(wire[56..72]) && Nonzero(wire[72..80])
  {
    assert wire[80..] == wire[80..144];
    assert wire[..8] == [wire[0], wire[1], wire[2], wire[3], wire[4], wire[5], wire[6], wire[7]];
  }

  /** A session begins exactly when none is on, the manifest is approved and the hash starts; it then has the manifest's
      image to check and has absorbed nothing. */
  lemma BeginsExactly(v: Verifier, p: Platform, c: Crypto, wire: Bytes, hashBegun: bool)
    requires |wire| == MANIFEST_BYTES
    ensures var (w, ok) := Begin(v, p, c, wire, hashBegun);
      && (ok <==> !v.active && Approves(p, c, wire) && hashBegun)
      && (ok ==> w == Verifier(w.manifest, 0, true, false, []) && w.manifest.Some?
                 && w.manifest.value.imageVersion == FromLE(wire[12..16])
                 && w.manifest.value.imageSize == FromLE(wire[20..24]) && w.manifest.value.digest == wire[24..56])
  {
  }

  // ----- a whole session -----

  function Concat(chunks: seq<Bytes>): Bytes {
    if |chunks| == 0 then [] else Concat(chunks[..|chunks| - 1]) + chunks[|chunks| - 1]
  }

  function Writes(v: Verifier, chunks: seq<Bytes>, hashed: seq<bool>): Verifier
    requires |chunks| == |hashed|
  {
    if |chunks| == 0 then v
    else Write(Writes(v, chunks[..|chunks| - 1], hashed[..|chunks| - 1]), chunks[|chunks| - 1], hashed[|chunks| - 1]).0
  }

  /** While it is active, a verifier has absorbed exactly what it was given and counted every byte. */
  lemma {:induction false} ActiveMeansAbsorbed(v: Verifier, chunks: seq<Bytes>, hashed: seq<bool>)
    requires v.active && v.manifest.Some? && v.received == 0 && v.absorbed == [] && |chunks| == |hashed|
    ensures var w := Writes(v, chunks, hashed);
      && w.manifest == v.manifest
      && (w.active ==> (
            && w.absorbed == Concat(chunks) && w.received == |Concat(chunks)| <= v.manifest.value.imageSize
            && forall i :: 0 <= i < |chunks| ==> chunks[i] != [] && hashed[i]))
  {
    var n := |chunks|;
    if n > 0 {
      ActiveMeansAbsorbed(v, chunks[..n - 1], hashed[..n - 1]);
    }
  }

  lemma {:induction false} FittingChunksAreAbsorbed(v: Verifier, chunks: seq<Bytes>, hashed: seq<bool>)
    requires v.active && v.manifest.Some? && v.received == 0 && v.absorbed == [] && |chunks| == |hashed|
    requires |Concat(chunks)| <= v.manifest.value.imageSize
    requires forall i :: 0 <= i < |chunks| ==> chunks[i] != [] && hashed[i]
    ensures Writes(v, chunks, hashed).active
  {
    var n := |chunks|;
    if n > 0 {
      FittingChunksAreAbsorbed(v, chunks[..n - 1], hashed[..n - 1]);
      ActiveMeansAbsorbed(v, chunks[..n - 1], hashed[..n - 1]);
    }
  }

  /** The verdict on an image: of its bytes and the manifest alone. */
  predicate Matches(c: Crypto, m: Manifest, image: Bytes) {
    |image| == m.imageSize && c.digest(image) == m.digest
  }

  /** With hashing that succeeds, a session ends in approval exactly when the bytes given, however they
      were cut into chunks, are the image the manifest describes. */
  lemma VerdictIsOfTheImage(v: Verifier, c: Crypto, chunks: seq<Bytes>)
    requires v.active && v.manifest.Some? && v.received == 0 && v.absorbed == []
    requires forall i :: 0 <= i < |chunks| ==> chunks[i] != []
    ensures Finish(Writes(v, chunks, seq(|chunks|, _ => true)), c, true).1
       <==> Matches(c, v.manifest.value, Concat(chunks))
  {
    var hashed := seq(|chunks|, _ => true);
    ActiveMeansAbsorbed(v, chunks, hashed);
    if |Concat(chunks)| <= v.manifest.value.imageSize {
      FittingChunksAreAbsorbed(v, chunks, hashed);
    }
  }
}
