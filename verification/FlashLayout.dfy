/** The flash layout checker: what it reports, and that it reports nothing exactly for layouts that tile
    the flash part and follow the role rules. */
module FlashLayout {
  import opened Words

  datatype Partition = Partition(name: string, start: int, length: int, slot: string, role: string, writable: bool) {
    function End(): int { start + length }

    predicate Contains(address: int) { start <= address < End() }
  }

  datatype Layout = Layout(base: int, size: int, erase: int, partitions: seq<Partition>, linked: string) {
    function End(): int { base + size }
  }

  datatype Error =
    | InvalidRange | Duplicate(name: string) | Unaligned(name: string) | Outside(name: string)
    | Overlap(left: string, right: string) | Gap(from: int, until: int) | NotCovered
    | SlotShape(slot: string) | ManifestLocked(slot: string) | ImageSizes | ConfigurationCount | BootStateCount
    | LinkedMissing | LinkedWritable

  const MANIFEST := "signed_manifest_commit"
  const IMAGE := "candidate_image"
  const CONFIGURATION := "configuration_record"
  const BOOT_STATE := "boot_state_record"

  function When(condition: bool, e: Error): seq<Error> { if condition then [e] else [] }

  // ----- sorting by place -----

  predicate NotAfterName(a: string, b: string) {
    |a| == 0 || (|b| > 0 && (a[0] < b[0] || (a[0] == b[0] && NotAfterName(a[1..], b[1..]))))
  }

  /** Tuples compare by start, then by end, then by name. */
  predicate NotAfter(a: Partition, b: Partition) {
    || a.start < b.start
    || (a.start == b.start && (a.End() < b.End() || (a.End() == b.End() && NotAfterName(a.name, b.name))))
  }

  /** Partitions that agree in all three cannot be put in order unless they are the same. */
  predicate Incomparable(a: Partition, b: Partition) {
    a != b && a.start == b.start && a.End() == b.End() && a.name == b.name
  }

  predicate Sortable(parts: seq<Partition>) {
    forall i, j :: 0 <= i < j < |parts| ==> !Incomparable(parts[i], parts[j])
  }

  function Insert(parts: seq<Partition>, p: Partition): seq<Partition> {
    if |parts| == 0 || !NotAfter(parts[0], p) then [p] + parts else [parts[0]] + Insert(parts[1..], p)
  }

  function Sort(parts: seq<Partition>): seq<Partition> {
    if |parts| == 0 then [] else Insert(Sort(parts[..|parts| - 1]), parts[|parts| - 1])
  }

  predicate Ordered(parts: seq<Partition>) {
    forall i, j :: 0 <= i < j < |parts| ==> parts[i].start <= parts[j].start
  }

  lemma {:induction false} InsertIsPermutation(parts: seq<Partition>, p: Partition)
    ensures multiset(Insert(parts, p)) == multiset(parts) + multiset{p}
  {
    if |parts| > 0 && NotAfter(parts[0], p) {
      InsertIsPermutation(parts[1..], p);
      assert parts == [parts[0]] + parts[1..];
    }
  }

  lemma OrderedFrom(first: Partition, rest: seq<Partition>)
    requires Ordered(rest) && forall x :: x in rest ==> first.start <= x.start
    ensures Ordered([first] + rest)
  {
  }

  lemma {:induction false} InsertOrders(parts: seq<Partition>, p: Partition)
    requires Ordered(parts)
    ensures Ordered(Insert(parts, p))
    ensures forall x :: x in Insert(parts, p) ==> x == p || x in parts
  {
    if |parts| > 0 {
      var first, rest := parts[0], parts[1..];
      if NotAfter(first, p) {
        InsertOrders(rest, p);
        OrderedFrom(first, Insert(rest, p));
      } else {
        OrderedFrom(p, parts);
      }
    }
  }

  lemma {:induction false} SortIsOrdered(parts: seq<Partition>)
    ensures Ordered(Sort(parts)) && multiset(Sort(parts)) == multiset(parts)
  {
    if |parts| > 0 {
      var front, last := parts[..|parts| - 1], parts[|parts| - 1];
      SortIsOrdered(front);
      InsertOrders(Sort(front), last);
      InsertIsPermutation(Sort(front), last);
      assert parts == front + [last];
    }
  }

  // ----- what is reported -----

  function Names(parts: seq<Partition>): set<string> { set i | 0 <= i < |parts| :: parts[i].name }

  predicate Divides(erase: int, x: int) { erase != 0 && x % erase == 0 }

  function PartitionErrors(l: Layout, p: Partition, seen: set<string>): seq<Error> {
    When(p.name in seen, Duplicate(p.name))
    + When(p.length <= 0 || !Divides(l.erase, p.start) || !Divides(l.erase, p.length), Unaligned(p.name))
    + When(p.start < l.base || p.start > l.End() || p.length > l.End() - p.start, Outside(p.name))
  }

  /** The errors of the first n checks, in order. */
  function Gather(check: nat -> seq<Error>, n: nat): seq<Error> {
    if n == 0 then [] else Gather(check, n - 1) + check(n - 1)
  }

  /** Each partition in the order given, with the names before it. */
  function PartitionAt(l: Layout): nat -> seq<Error> {
    (i: nat) => if i < |l.partitions| then PartitionErrors(l, l.partitions[i], Names(l.partitions[..i])) else []
  }

  function EachErrors(l: Layout, n: nat): seq<Error> { Gather(PartitionAt(l), n) }

  function JoinErrors(left: Partition, right: Partition): seq<Error> {
    When(left.End() > right.start, Overlap(left.name, right.name))
    + When(left.End() < right.start, Gap(left.End(), right.start))
  }

  /** Where each partition in place meets the next. */
  function JointAt(parts: seq<Partition>): nat -> seq<Error> {
    (i: nat) => if i + 1 < |parts| then JoinErrors(parts[i], parts[i + 1]) else []
  }

  function JointErrors(parts: seq<Partition>): seq<Error> { Gather(JointAt(parts), |parts|) }

  function Filter(parts: seq<Partition>, f: Partition -> bool): seq<Partition> {
    if |parts| == 0 then [] else (if f(parts[0]) then [parts[0]] else []) + Filter(parts[1..], f)
  }

  function WithRole(parts: seq<Partition>, role: string): seq<Partition> {
    Filter(parts, (p: Partition) => p.role == role)
  }

  function InSlot(parts: seq<Partition>, slot: string, role: string): seq<Partition> {
    Filter(parts, (p: Partition) => p.slot == slot && p.role == role)
  }

  function Named(parts: seq<Partition>, name: string): seq<Partition> {
    Filter(parts, (p: Partition) => p.name == name)
  }

  function SlotErrors(manifests: seq<Partition>, images: seq<Partition>, slot: string): seq<Error> {
    When(|manifests| != 1 || |images| != 1 || manifests[0].End() != images[0].start, SlotShape(slot))
    + When(|manifests| > 0 && !manifests[0].writable, ManifestLocked(slot))
  }

  function RoleErrors(l: Layout, parts: seq<Partition>): seq<Error> {
    var images := WithRole(parts, IMAGE);
    var linked := Named(parts, l.linked);
    SlotErrors(InSlot(parts, "A", MANIFEST), InSlot(parts, "A", IMAGE), "A")
    + SlotErrors(InSlot(parts, "B", MANIFEST), InSlot(parts, "B", IMAGE), "B")
    + When(|images| != 2 || images[0].length != images[1].length, ImageSizes)
    + When(|WithRole(parts, CONFIGURATION)| != 2, ConfigurationCount)
    + When(|WithRole(parts, BOOT_STATE)| != 2, BootStateCount)
    + (if |linked| == 0 then [LinkedMissing] else When(linked[0].writable, LinkedWritable))
  }

  function RangeErrors(l: Layout): seq<Error> {
    When(l.size <= 0 || l.erase <= 0 || l.base > 0xffff_ffff - l.size, InvalidRange)
  }

  function CoverErrors(l: Layout, parts: seq<Partition>): seq<Error> {
    When(|parts| > 0 && (parts[0].start != l.base || parts[|parts| - 1].End() != l.End()), NotCovered)
  }

  function Errors(l: Layout): seq<Error> {
    var parts := Sort(l.partitions);
    RangeErrors(l) + EachErrors(l, |l.partitions|) + JointErrors(parts) + CoverErrors(l, parts)
    + RoleErrors(l, parts)
  }

  // ----- what a good layout is -----

  predicate GoodRange(l: Layout) { l.size > 0 && l.erase > 0 && l.base + l.size <= 0xffff_ffff }

  predicate UniqueNames(parts: seq<Partition>) {
    forall i, j :: 0 <= i < j < |parts| ==> parts[i].name != parts[j].name
  }

  predicate GoodPartition(l: Layout, p: Partition) {
    p.length > 0 && Divides(l.erase, p.start) && Divides(l.erase, p.length) && l.base <= p.start && p.End() <= l.End()
  }

  function Holders(parts: seq<Partition>, address: int): seq<Partition> {
    Filter(parts, (p: Partition) => p.Contains(address))
  }

  /** Every flash address lies in exactly one partition. */
  ghost predicate Tiles(parts: seq<Partition>, from: int, until: int) {
    forall address: int :: from <= address < until ==> |Holders(parts, address)| == 1
  }

  /** Each slot has one manifest and one image right after it, and its manifest can be written. */
  predicate GoodSlot(parts: seq<Partition>, slot: string) {
    var manifests, images := InSlot(parts, slot, MANIFEST), InSlot(parts, slot, IMAGE);
    |manifests| == 1 && |images| == 1 && manifests[0].End() == images[0].start && manifests[0].writable
  }

  predicate GoodRoles(l: Layout, parts: seq<Partition>) {
    var images, linked := WithRole(parts, IMAGE), Named(parts, l.linked);
    && GoodSlot(parts, "A") && GoodSlot(parts, "B")
    && |images| == 2 && images[0].length == images[1].length
    && |WithRole(parts, CONFIGURATION)| == 2 && |WithRole(parts, BOOT_STATE)| == 2
    && |linked| > 0 && !linked[0].writable
  }

  ghost predicate Good(l: Layout) {
    && GoodRange(l) && UniqueNames(l.partitions)
    && AllGood(l, l.partitions)
    && Tiles(l.partitions, l.base, l.End()) && GoodRoles(l, l.partitions)
  }

  // ----- order does not matter to the rules -----

  lemma {:induction false} FilterMultiset(parts: seq<Partition>, f: Partition -> bool, x: Partition)
    ensures multiset(Filter(parts, f))[x] == if f(x) then multiset(parts)[x] else 0
  {
    if |parts| > 0 {
      FilterMultiset(parts[1..], f, x);
      assert parts == [parts[0]] + parts[1..];
    }
  }

  lemma FilterPermutes(a: seq<Partition>, b: seq<Partition>, f: Partition -> bool)
    requires multiset(a) == multiset(b)
    ensures multiset(Filter(a, f)) == multiset(Filter(b, f))
    ensures |Filter(a, f)| == |Filter(b, f)|
  {
    forall x ensures multiset(Filter(a, f))[x] == multiset(Filter(b, f))[x] {
      FilterMultiset(a, f, x);
      FilterMultiset(b, f, x);
    }
    assert |multiset(Filter(a, f))| == |Filter(a, f)| && |multiset(Filter(b, f))| == |Filter(b, f)|;
  }

  lemma SameOne(a: seq<Partition>, b: seq<Partition>)
    requires multiset(a) == multiset(b) && |a| == 1
    ensures a == b
  {
    assert |multiset(a)| == |multiset(b)| == |b|;
    assert a[0] in multiset(a) && a[0] in multiset(b);
  }

  lemma SameTwo(a: seq<Partition>, b: seq<Partition>)
    requires multiset(a) == multiset(b) && |a| == 2
    ensures |b| == 2 && (a[0].length == a[1].length <==> b[0].length == b[1].length)
  {
    assert |multiset(a)| == |multiset(b)| == |b|;
    assert b == [b[0], b[1]] && a == [a[0], a[1]];
    assert b[0] in multiset(a) && b[1] in multiset(a);
    assert multiset{a[0], a[1]} == multiset{b[0], b[1]};
  }

  lemma SlotPermutes(a: seq<Partition>, b: seq<Partition>, slot: string)
    requires multiset(a) == multiset(b)
    ensures GoodSlot(a, slot) <==> GoodSlot(b, slot)
  {
    FilterPermutes(a, b, (p: Partition) => p.slot == slot && p.role == MANIFEST);
    FilterPermutes(a, b, (p: Partition) => p.slot == slot && p.role == IMAGE);
    if |InSlot(a, slot, MANIFEST)| == 1 && |InSlot(a, slot, IMAGE)| == 1 {
      SameOne(InSlot(a, slot, MANIFEST), InSlot(b, slot, MANIFEST));
      SameOne(InSlot(a, slot, IMAGE), InSlot(b, slot, IMAGE));
    }
  }

  lemma SlotErrorsMean(parts: seq<Partition>, slot: string)
    ensures SlotErrors(InSlot(parts, slot, MANIFEST), InSlot(parts, slot, IMAGE), slot) == [] <==> GoodSlot(parts, slot)
  {
  }

  lemma RoleErrorsMean(l: Layout, parts: seq<Partition>)
    ensures RoleErrors(l, parts) == [] <==> GoodRoles(l, parts)
  {
    SlotErrorsMean(parts, "A");
    SlotErrorsMean(parts, "B");
  }

  lemma {:induction false} NoneNamed(parts: seq<Partition>, name: string)
    requires forall i :: 0 <= i < |parts| ==> parts[i].name != name
    ensures Named(parts, name) == []
  {
    if |parts| > 0 {
      NoneNamed(parts[1..], name);
    }
  }

  lemma {:induction false} NamedOnce(parts: seq<Partition>, name: string)
    requires UniqueNames(parts)
    ensures |Named(parts, name)| <= 1
  {
    if |parts| > 0 {
      if parts[0].name == name {
        NoneNamed(parts[1..], name);
      }
      NamedOnce(parts[1..], name);
    }
  }

  lemma RolesPermute(l: Layout, a: seq<Partition>, b: seq<Partition>)
    requires multiset(a) == multiset(b) && UniqueNames(a)
    ensures GoodRoles(l, a) <==> GoodRoles(l, b)
  {
    SlotPermutes(a, b, "A");
    SlotPermutes(a, b, "B");
    FilterPermutes(a, b, (p: Partition) => p.role == IMAGE);
    FilterPermutes(a, b, (p: Partition) => p.role == CONFIGURATION);
    FilterPermutes(a, b, (p: Partition) => p.role == BOOT_STATE);
    FilterPermutes(a, b, (p: Partition) => p.name == l.linked);
    NamedOnce(a, l.linked);
    if |WithRole(a, IMAGE)| == 2 {
      SameTwo(WithRole(a, IMAGE), WithRole(b, IMAGE));
    }
    if |Named(a, l.linked)| == 1 {
      SameOne(Named(a, l.linked), Named(b, l.linked));
    }
  }

  // ----- single partitions -----

  lemma PartitionErrorsMean(l: Layout, p: Partition, seen: set<string>)
    ensures PartitionErrors(l, p, seen) == [] <==> p.name !in seen && GoodPartition(l, p)
  {
  }

  lemma {:induction false} GatherEmpty(check: nat -> seq<Error>, n: nat)
    ensures Gather(check, n) == [] <==> forall i: nat :: i < n ==> check(i) == []
  {
    if n > 0 {
      GatherEmpty(check, n - 1);
    }
  }

  lemma NamesBefore(parts: seq<Partition>, i: nat)
    requires i < |parts|
    ensures parts[i].name in Names(parts[..i]) <==> exists k :: 0 <= k < i && parts[k].name == parts[i].name
  {
    var front := parts[..i];
    if k :| 0 <= k < i && parts[k].name == parts[i].name {
      assert front[k].name == parts[i].name;
    }
  }

  lemma UniqueMeans(parts: seq<Partition>)
    ensures UniqueNames(parts) <==> forall i: nat :: i < |parts| ==> parts[i].name !in Names(parts[..i])
  {
    forall i: nat | i < |parts|
      ensures parts[i].name in Names(parts[..i]) <==> exists k :: 0 <= k < i && parts[k].name == parts[i].name {
      NamesBefore(parts, i);
    }
  }

  predicate AllGood(l: Layout, parts: seq<Partition>) {
    forall i :: 0 <= i < |parts| ==> GoodPartition(l, parts[i])
  }

  predicate SoundAt(l: Layout, i: nat) {
    i < |l.partitions| ==> l.partitions[i].name !in Names(l.partitions[..i]) && GoodPartition(l, l.partitions[i])
  }

  lemma SingleMeans(l: Layout, i: nat)
    ensures PartitionAt(l)(i) == [] <==> SoundAt(l, i)
  {
    if i < |l.partitions| {
      PartitionErrorsMean(l, l.partitions[i], Names(l.partitions[..i]));
    }
  }

  lemma GatherMeans(check: nat -> seq<Error>, sound: nat -> bool, n: nat)
    requires forall i: nat :: check(i) == [] <==> sound(i)
    ensures Gather(check, n) == [] <==> forall i: nat :: i < n ==> sound(i)
  {
    GatherEmpty(check, n);
  }

  lemma SoundMeans(l: Layout)
    ensures (forall i: nat :: i < |l.partitions| ==> SoundAt(l, i)) <==>
      UniqueNames(l.partitions) && AllGood(l, l.partitions)
  {
    UniqueMeans(l.partitions);
    if forall i: nat :: i < |l.partitions| ==> SoundAt(l, i) {
      forall i: nat | i < |l.partitions|
        ensures l.partitions[i].name !in Names(l.partitions[..i]) && GoodPartition(l, l.partitions[i]) {
        assert SoundAt(l, i);
      }
    }
  }

  lemma SinglesMean(l: Layout)
    ensures EachErrors(l, |l.partitions|) == [] <==> UniqueNames(l.partitions) && AllGood(l, l.partitions)
  {
    forall i: nat ensures PartitionAt(l)(i) == [] <==> SoundAt(l, i) {
      SingleMeans(l, i);
    }
    GatherMeans(PartitionAt(l), (i: nat) => SoundAt(l, i), |l.partitions|);
    SoundMeans(l);
  }

  // ----- tiling -----

  /** Partitions that follow each other without gap or overlap. */
  predicate Chain(parts: seq<Partition>) {
    forall i :: 0 <= i < |parts| - 1 ==> parts[i].End() == parts[i + 1].start
  }

  lemma JoinErrorsMean(left: Partition, right: Partition)
    ensures JoinErrors(left, right) == [] <==> left.End() == right.start
  {
  }

  predicate JoinedAt(parts: seq<Partition>, i: nat) {
    i + 1 < |parts| ==> parts[i].End() == parts[i + 1].start
  }

  lemma JointMeans(parts: seq<Partition>, i: nat)
    ensures JointAt(parts)(i) == [] <==> JoinedAt(parts, i)
  {
    if i + 1 < |parts| {
      JoinErrorsMean(parts[i], parts[i + 1]);
    }
  }

  lemma JoinedMeans(parts: seq<Partition>)
    ensures (forall i: nat :: i < |parts| ==> JoinedAt(parts, i)) <==> Chain(parts)
  {
    if forall i: nat :: i < |parts| ==> JoinedAt(parts, i) {
      forall i: nat | i < |parts| - 1 ensures parts[i].End() == parts[i + 1].start {
        assert JoinedAt(parts, i);
      }
    }
  }

  lemma JointErrorsMean(parts: seq<Partition>)
    ensures JointErrors(parts) == [] <==> Chain(parts)
  {
    forall i: nat ensures JointAt(parts)(i) == [] <==> JoinedAt(parts, i) {
      JointMeans(parts, i);
    }
    GatherMeans(JointAt(parts), (i: nat) => JoinedAt(parts, i), |parts|);
    JoinedMeans(parts);
  }

  predicate Within(parts: seq<Partition>, from: int, until: int) {
    forall i :: 0 <= i < |parts| ==> parts[i].length > 0 && from <= parts[i].start && parts[i].End() <= until
  }

  /** In a chain an address has one holder inside and none outside. */
  lemma {:induction false} ChainHolders(parts: seq<Partition>, address: int)
    requires |parts| > 0 && Chain(parts) && forall i :: 0 <= i < |parts| ==> parts[i].length > 0
    ensures parts[0].start < parts[|parts| - 1].End()
    ensures |Holders(parts, address)| == if parts[0].start <= address < parts[|parts| - 1].End() then 1 else 0
  {
    if |parts| > 1 {
      ChainHolders(parts[1..], address);
    } else {
      assert Holders(parts[1..], address) == [];
    }
  }

  lemma {:induction false} HolderExists(parts: seq<Partition>, address: int) returns (i: nat)
    requires |Holders(parts, address)| > 0
    ensures i < |parts| && parts[i].Contains(address)
  {
    if parts[0].Contains(address) {
      i := 0;
    } else {
      i := HolderExists(parts[1..], address);
      i := i + 1;
    }
  }

  lemma {:induction false} HolderCounts(parts: seq<Partition>, address: int, i: nat)
    requires i < |parts| && parts[i].Contains(address)
    ensures |Holders(parts, address)| > 0
  {
    if i > 0 {
      HolderCounts(parts[1..], address, i - 1);
    }
  }

  lemma TwoHolders(parts: seq<Partition>, address: int, j: nat)
    requires 0 < j < |parts| && parts[0].Contains(address) && parts[j].Contains(address)
    ensures |Holders(parts, address)| >= 2
  {
    HolderCounts(parts[1..], address, j - 1);
  }

  lemma HeadIsFirst(parts: seq<Partition>, from: int, until: int)
    requires Ordered(parts) && Within(parts, from, until) && Tiles(parts, from, until) && from < until
    ensures |parts| > 0 && parts[0].start == from
  {
    assert |Holders(parts, from)| == 1;
    var i := HolderExists(parts, from);
  }

  lemma TailTiles(parts: seq<Partition>, from: int, until: int)
    requires Ordered(parts) && Within(parts, from, until) && Tiles(parts, from, until) && from < until
    ensures |parts| > 0 && parts[0].End() <= until
    ensures Ordered(parts[1..]) && Within(parts[1..], parts[0].End(), until) && Tiles(parts[1..], parts[0].End(), until)
  {
    HeadIsFirst(parts, from, until);
    var rest := parts[1..];
    forall j | 0 <= j < |rest| ensures parts[0].End() <= rest[j].start {
      if rest[j].start < parts[0].End() {
        TwoHolders(parts, rest[j].start, j + 1);
      }
    }
    forall address: int | parts[0].End() <= address < until ensures |Holders(rest, address)| == 1 {
      assert |Holders(parts, address)| == 1;
    }
  }

  lemma {:induction false} TilesChain(parts: seq<Partition>, from: int, until: int)
    requires Ordered(parts) && Within(parts, from, until) && Tiles(parts, from, until) && from < until
    ensures |parts| > 0 && Chain(parts) && parts[0].start == from && parts[|parts| - 1].End() == until
    decreases |parts|
  {
    HeadIsFirst(parts, from, until);
    TailTiles(parts, from, until);
    if parts[0].End() < until {
      TilesChain(parts[1..], parts[0].End(), until);
    }
  }

  /** For partitions in place inside the flash, tiling it is the same as chaining from end to end. */
  lemma TilesExactly(parts: seq<Partition>, from: int, until: int)
    requires Ordered(parts) && Within(parts, from, until) && |parts| > 0 && from < until
    ensures Tiles(parts, from, until) <==>
      Chain(parts) && parts[0].start == from && parts[|parts| - 1].End() == until
  {
    if Tiles(parts, from, until) {
      TilesChain(parts, from, until);
    }
    if Chain(parts) && parts[0].start == from && parts[|parts| - 1].End() == until {
      forall address: int | from <= address < until ensures |Holders(parts, address)| == 1 {
        ChainHolders(parts, address);
      }
    }
  }

  lemma TilesPermute(a: seq<Partition>, b: seq<Partition>, from: int, until: int)
    requires multiset(a) == multiset(b)
    ensures Tiles(a, from, until) <==> Tiles(b, from, until)
  {
    forall address: int ensures |Holders(a, address)| == |Holders(b, address)| {
      FilterPermutes(a, b, (p: Partition) => p.Contains(address));
    }
  }

  // ----- exactness -----

  lemma SortedWithin(l: Layout)
    requires AllGood(l, l.partitions)
    ensures Within(Sort(l.partitions), l.base, l.End())
  {
    var s := Sort(l.partitions);
    SortIsOrdered(l.partitions);
    forall i | 0 <= i < |s| ensures GoodPartition(l, s[i]) {
      assert s[i] in multiset(s) && s[i] in multiset(l.partitions);
    }
  }

  lemma NoSlots(parts: seq<Partition>)
    requires |parts| == 0
    ensures !GoodSlot(parts, "A")
  {
  }

  lemma RolesNeedPartitions(l: Layout)
    requires GoodRoles(l, Sort(l.partitions))
    ensures |Sort(l.partitions)| > 0
  {
    if |Sort(l.partitions)| == 0 {
      NoSlots(Sort(l.partitions));
    }
  }

  /** Given sound single partitions, joints and ends are free of errors exactly when the flash is tiled. */
  lemma CoverMeans(l: Layout)
    requires GoodRange(l) && AllGood(l, l.partitions)
    ensures var s := Sort(l.partitions);
      |s| > 0 && JointErrors(s) == [] && CoverErrors(l, s) == [] <==> Tiles(l.partitions, l.base, l.End())
  {
    var s := Sort(l.partitions);
    SortIsOrdered(l.partitions);
    SortedWithin(l);
    TilesPermute(l.partitions, s, l.base, l.End());
    JointErrorsMean(s);
    if |s| > 0 {
      TilesExactly(s, l.base, l.End());
    } else {
      assert |Holders(s, l.base)| == 0;
    }
  }

  lemma RolesMean(l: Layout)
    requires UniqueNames(l.partitions)
    ensures RoleErrors(l, Sort(l.partitions)) == [] <==> GoodRoles(l, l.partitions)
    ensures GoodRoles(l, l.partitions) ==> |Sort(l.partitions)| > 0
  {
    SortIsOrdered(l.partitions);
    RoleErrorsMean(l, Sort(l.partitions));
    RolesPermute(l, l.partitions, Sort(l.partitions));
    if GoodRoles(l, l.partitions) {
      RolesNeedPartitions(l);
    }
  }

  lemma RangeMeans(l: Layout)
    ensures RangeErrors(l) == [] <==> GoodRange(l)
  {
  }

  lemma EmptyAll(a: seq<Error>, b: seq<Error>, c: seq<Error>, d: seq<Error>, e: seq<Error>)
    ensures a + b + c + d + e == [] <==> a == [] && b == [] && c == [] && d == [] && e == []
  {
  }

  lemma WholeMeans(l: Layout)
    requires GoodRange(l) && UniqueNames(l.partitions) && AllGood(l, l.partitions)
    ensures var s := Sort(l.partitions);
      JointErrors(s) == [] && CoverErrors(l, s) == [] && RoleErrors(l, s) == [] <==>
      Tiles(l.partitions, l.base, l.End()) && GoodRoles(l, l.partitions)
  {
    CoverMeans(l);
    RolesMean(l);
  }

  /** No errors are reported exactly for the layouts that tile the flash and follow the rules. */
  lemma CheckerIsExact(l: Layout)
    ensures Errors(l) == [] <==> Good(l)
  {
    var s := Sort(l.partitions);
    EmptyAll(RangeErrors(l), EachErrors(l, |l.partitions|), JointErrors(s), CoverErrors(l, s), RoleErrors(l, s));
    RangeMeans(l);
    SinglesMean(l);
    if GoodRange(l) && UniqueNames(l.partitions) && AllGood(l, l.partitions) {
      WholeMeans(l);
    }
  }

  // ----- the loops -----

  method CheckPartition(l: Layout, p: Partition, names: set<string>) returns (errors: seq<Error>)
    ensures errors == PartitionErrors(l, p, names)
  {
    errors := [];
    if p.name in names {
      errors := errors + [Duplicate(p.name)];
    }
    if p.length <= 0 || !Divides(l.erase, p.start) || !Divides(l.erase, p.length) {
      errors := errors + [Unaligned(p.name)];
    }
    if p.start < l.base || p.start > l.End() || p.length > l.End() - p.start {
      errors := errors + [Outside(p.name)];
    }
  }

  /** Reducing a start or length modulo a zero erase size raises. */
  predicate RaisesAt(l: Layout, i: nat) { i < |l.partitions| && l.erase == 0 && l.partitions[i].length > 0 }

  predicate Raises(l: Layout) { exists i :: 0 <= i < |l.partitions| && RaisesAt(l, i) }

  /** Everything the loop knows after the first n partitions. */
  ghost predicate Checked(l: Layout, n: nat, errors: seq<Error>, parts: seq<Partition>, names: set<string>)
    requires n <= |l.partitions|
  {
    && errors == EachErrors(l, n) && parts == l.partitions[..n] && names == Names(l.partitions[..n])
    && forall k :: 0 <= k < n ==> !RaisesAt(l, k)
  }

  method CheckNext(l: Layout, i: nat, errors: seq<Error>, parts: seq<Partition>, names: set<string>)
    returns (moreErrors: seq<Error>, moreParts: seq<Partition>, moreNames: set<string>)
    requires i < |l.partitions| && Checked(l, i, errors, parts, names) && !RaisesAt(l, i)
    ensures Checked(l, i + 1, moreErrors, moreParts, moreNames)
  {
    var p := l.partitions[i];
    var more := CheckPartition(l, p, names);
    moreErrors, moreNames, moreParts := errors + more, names + {p.name}, parts + [p];
    NamesGrow(l.partitions, i);
  }

  method CheckPartitions(l: Layout) returns (raised: bool, errors: seq<Error>, parts: seq<Partition>)
    ensures raised == Raises(l)
    ensures !raised ==> errors == EachErrors(l, |l.partitions|) && parts == l.partitions
  {
    errors, parts := [], [];
    var names: set<string> := {};
    for i := 0 to |l.partitions|
      invariant Checked(l, i, errors, parts, names)
    {
      if l.partitions[i].length > 0 && l.erase == 0 {
        assert RaisesAt(l, i);
        return true, [], [];
      }
      errors, parts, names := CheckNext(l, i, errors, parts, names);
    }
    assert l.partitions[..|l.partitions|] == l.partitions;
    return false, errors, parts;
  }

  lemma NamesGrow(parts: seq<Partition>, i: nat)
    requires i < |parts|
    ensures parts[..i + 1] == parts[..i] + [parts[i]]
    ensures Names(parts[..i + 1]) == Names(parts[..i]) + {parts[i].name}
  {
    var front, more := parts[..i], parts[..i + 1];
    assert more == front + [parts[i]];
    forall n | n in Names(front) ensures n in Names(more) {
      var k :| 0 <= k < |front| && front[k].name == n;
      assert more[k].name == n;
    }
    assert more[i].name in Names(more);
  }

  /** list.sort, as an insertion sort. */
  method SortParts(parts: seq<Partition>) returns (sorted: seq<Partition>)
    ensures sorted == Sort(parts)
  {
    sorted := [];
    for i := 0 to |parts|
      invariant sorted == Sort(parts[..i])
    {
      assert parts[..i + 1][..i] == parts[..i];
      sorted := Insert(sorted, parts[i]);
    }
    assert parts[..|parts|] == parts;
  }

  method CheckJoint(parts: seq<Partition>, i: nat) returns (errors: seq<Error>)
    ensures errors == JointAt(parts)(i)
  {
    errors := [];
    if i + 1 < |parts| {
      var left, right := parts[i], parts[i + 1];
      if left.End() > right.start {
        errors := errors + [Overlap(left.name, right.name)];
      }
      if left.End() < right.start {
        errors := errors + [Gap(left.End(), right.start)];
      }
    }
  }

  method CheckJoints(parts: seq<Partition>) returns (errors: seq<Error>)
    ensures errors == JointErrors(parts)
  {
    errors := [];
    for i := 0 to |parts|
      invariant errors == Gather(JointAt(parts), i)
    {
      var more := CheckJoint(parts, i);
      errors := errors + more;
    }
  }

  /** What the script returns, or nothing if it raises. */
  method ValidateLayout(l: Layout) returns (result: Option<(seq<Error>, seq<Partition>)>)
    ensures result == if Raises(l) || !Sortable(l.partitions) then None else Some((Errors(l), Sort(l.partitions)))
    ensures result.Some? && result.value.0 == [] <==> Good(l)
  {
    CheckerIsExact(l);
    var errors := RangeErrors(l);
    var raised, each, listed := CheckPartitions(l);
    if raised {
      return None;
    }
    if !Sortable(listed) {
      return None;
    }
    var parts := SortParts(listed);
    var joints := CheckJoints(parts);
    errors := errors + each + joints + CoverErrors(l, parts) + RoleErrors(l, parts);
    return Some((errors, parts));
  }
}
