/** The promotion benchmark: every even block queues one packet per remote source, every block
    renders, and each decoder that must conceal in the measured interval is counted. */
module AudioBenchmark {
  import opened Words
  import opened AudioPlayout
  import opened AudioPipeline
  import opened BenchmarkCount
  import opened BenchmarkCapture
  import opened BenchmarkResult
  import AudioCapture
  import AudioMixer
  import L = AudioLink

  const BOTH_HALVES: Byte := 3
  const FIRST_HALF: Byte := 1

  function FlagsOf(sourceId: nat, number: u16, period: nat): Byte
    requires period > 0
  {
    if sourceId == NODES && SecondHalfDropped(number, period) then FIRST_HALF else BOTH_HALVES
  }

  /** A source between blocks: nothing queued; before an even block the clock stands at the next
      packet, before an odd block that packet is loaded and its second half is due. */
  predicate Between(s: Playout, block: nat, p: Packet) {
    && WellFormed(s) && s.queue == []
    && (block > 0 ==> s.started && s.expected == PacketNumber(block))
    && (block == 0 ==> !s.started)
    && s.half == block % 2
    && (s.half == 1 ==> s.current == Some(p))
  }

  /** A source whose packet for an even block has just been queued. */
  predicate Queued(s: Playout, block: nat, p: Packet) {
    && WellFormed(s) && block % 2 == 0 && s.half == 0
    && (s.started ==> s.expected == PacketNumber(block))
    && s.queue == [p] && p.sequence == PacketNumber(block)
  }

  predicate Ready(s: Playout, block: nat, p: Packet) {
    if block % 2 == 0 then Queued(s, block, p) else Between(s, block, p)
  }

  lemma QueueingIsAccepted(s: Playout, block: nat, p: Packet, any: Packet)
    requires block % 2 == 0 && Between(s, block, any) && p.sequence == PacketNumber(block)
    ensures AudioPlayout.Push(s, p).1 && Queued(AudioPlayout.Push(s, p).0, block, p)
  {
  }

  lemma NextPacketNumber(block: nat)
    ensures block % 2 == 0 ==> PacketNumber(block + 1) == PacketNumber(block)
    ensures block % 2 == 1 ==> PacketNumber(block + 1) == Wrap16(PacketNumber(block) + 1)
  {
    HalfOfNext(block);
    WrapSum16(block / 2, 1);
  }

  lemma OneDuePacket(queue: seq<Packet>, expected: u16)
    requires |queue| == 1 && queue[0].sequence == expected
    ensures TakeDue(queue, expected) == (Some(queue[0]), [])
  {
    FrontIsDue(queue);
  }

  lemma StartsAtItsPacket(s: Playout, block: nat, p: Packet)
    requires Queued(s, block, p)
    ensures Start(s).expected == PacketNumber(block) == p.sequence
  {
  }

  lemma EvenCall(s: Playout, block: nat, p: Packet)
    requires block % 2 == 0 && Queued(s, block, p)
    ensures Between(AudioPlayout.Next(s).0, block + 1, p)
    ensures AudioPlayout.Next(s).1 == Emit(Some(p), 0)
  {
    StartsAtItsPacket(s, block, p);
    OneDuePacket(s.queue, PacketNumber(block));
    FirstHalfCall(s);
    LoadedIsBetween(AudioPlayout.Next(s).0, block, p);
  }

  lemma LoadedIsBetween(t: Playout, block: nat, p: Packet)
    requires WellFormed(t) && t.started && t.half == 1 && t.expected == PacketNumber(block) && block % 2 == 0
    requires t.current == Some(p) && t.queue == []
    ensures Between(t, block + 1, p)
  {
    NextPacketNumber(block);
    HalfOfNext(block);
  }

  lemma OddCall(s: Playout, block: nat, p: Packet, any: Packet)
    requires block % 2 == 1 && Between(s, block, p)
    ensures Between(AudioPlayout.Next(s).0, block + 1, any)
    ensures AudioPlayout.Next(s).1 == Emit(Some(p), 1)
  {
    NextPacketNumber(block);
    HalfOfNext(block);
    SecondHalfCall(s);
  }

  /** One call plays one block: the half of its packet that is due. Over an even block the packet stays the same. */
  lemma CallAdvances(s: Playout, block: nat, p: Packet, later: Packet)
    requires Ready(s, block, p) && (block % 2 == 0 ==> later == p)
    ensures Between(AudioPlayout.Next(s).0, block + 1, later)
    ensures AudioPlayout.Next(s).1 == Emit(Some(p), block % 2)
  {
    if block % 2 == 0 {
      EvenCall(s, block, p);
    } else {
      OddCall(s, block, p, later);
    }
  }

  // ----- all sources of the benchmark -----

  predicate AllBetween(views: seq<Playout>, block: nat, packets: seq<Packet>)
    requires WellFormedViews(views) && |packets| == NODES
  {
    forall i :: 1 <= i < NODES ==> Between(views[i], block, packets[i])
  }

  lemma AllInitial(views: seq<Playout>, packets: seq<Packet>)
    requires WellFormedViews(views) && |packets| == NODES && forall i :: 0 <= i < NODES ==> views[i] == Initial
    ensures AllBetween(views, 0, packets)
  {
  }

  predicate AllReady(views: seq<Playout>, block: nat, packets: seq<Packet>)
    requires WellFormedViews(views) && |packets| == NODES
  {
    forall i :: 1 <= i < NODES ==> Ready(views[i], block, packets[i])
  }

  /** Midway through queueing, the remote sources below n have their packet. */
  predicate QueuedBelow(views: seq<Playout>, block: nat, packets: seq<Packet>, n: nat)
    requires WellFormedViews(views) && |packets| == NODES
  {
    && (forall i :: 1 <= i < NODES && i < n ==> Queued(views[i], block, packets[i]))
    && (forall i :: 1 <= i < NODES && i >= n ==> Between(views[i], block, packets[i]))
  }

  lemma QueuedOneMore(before: seq<Playout>, after: seq<Playout>, block: nat, packets: seq<Packet>, n: nat)
    requires WellFormedViews(before) && WellFormedViews(after) && |packets| == NODES
    requires 1 <= n < NODES && QueuedBelow(before, block, packets, n)
    requires after == before[n := after[n]] && Queued(after[n], block, packets[n])
    ensures QueuedBelow(after, block, packets, n + 1)
  {
  }

  /** What the five decoders are handed for a block: the due half of the packet of their source. */
  function Handed(block: nat, packets: seq<Packet>): (outputs: seq<Output>)
    requires |packets| == NODES
    ensures |outputs| == NODES - 1
  {
    seq(NODES - 1, d requires 0 <= d < NODES - 1 => Emit(Some(packets[d + 1]), block % 2))
  }

  lemma RenderAdvances(views: seq<Playout>, block: nat, packets: seq<Packet>, later: seq<Packet>)
    requires WellFormedViews(views) && |packets| == |later| == NODES && AllReady(views, block, packets)
    requires block % 2 == 0 ==> later == packets
    ensures var (called, outputs) := RenderCalls(views, LOCAL);
      && WellFormedViews(called) && AllBetween(called, block + 1, later) && outputs == Handed(block, packets)
  {
    var (called, outputs) := RenderCalls(views, LOCAL);
    DecoderIsHanded(views, LOCAL, 0);
    forall i | 1 <= i < NODES ensures WellFormed(called[i]) && Between(called[i], block + 1, later[i]) {
      DecoderIsHanded(views, LOCAL, i);
      CallAdvances(views[i], block, packets[i], later[i]);
    }
    forall d | 0 <= d < NODES - 1 ensures outputs[d] == Handed(block, packets)[d] {
      DecoderIsHanded(views, LOCAL, d + 1);
      CallAdvances(views[d + 1], block, packets[d + 1], later[d + 1]);
    }
  }

  // ----- the packets of a run -----

  /** The codec frame kept from the blocks recorded so far. */
  function LatestCodec(seed: AudioCapture.HalfFrame, blocks: seq<AudioCapture.Block>): AudioCapture.HalfFrame {
    if |blocks| == 0 then seed
    else
      var last := blocks[|blocks| - 1];
      if last.codecFrame.Some? then last.codecFrame.value else LatestCodec(seed, blocks[..|blocks| - 1])
  }

  /** The packets that cover a block, per source: made before the even block of the pair, with the codec frame of
      that moment in both halves. */
  function PacketsOf(seed: AudioCapture.HalfFrame, blocks: seq<AudioCapture.Block>, block: nat, period: nat)
    : (packets: seq<Packet>)
    requires period > 0 && block <= |blocks|
    ensures |packets| == NODES
  {
    var frame := LatestCodec(seed, blocks[..block - block % 2]);
    var number := PacketNumber(block);
    seq(NODES, i requires 0 <= i < NODES => Packet(number, FlagsOf(i + 1, number, period), frame + frame))
  }

  /** What the decoders are handed for a block of a run, given what was recorded before it. */
  function HandedAt(seed: AudioCapture.HalfFrame, blocks: seq<AudioCapture.Block>, block: nat, period: nat)
    : (outputs: seq<Output>)
    requires period > 0 && block <= |blocks|
    ensures |outputs| == NODES - 1
  {
    Handed(block, PacketsOf(seed, blocks, block, period))
  }

  lemma PacketMadeNow(seed: AudioCapture.HalfFrame, blocks: seq<AudioCapture.Block>, period: nat, sourceId: nat)
    requires period > 0 && |blocks| % 2 == 0 && 1 <= sourceId <= NODES
    ensures var number, frame := PacketNumber(|blocks|), LatestCodec(seed, blocks);
      PacketsOf(seed, blocks, |blocks|, period)[sourceId - 1] ==
        Packet(number, FlagsOf(sourceId, number, period), frame + frame)
  {
    assert blocks[..|blocks|] == blocks;
  }

  lemma SamePackets(seed: AudioCapture.HalfFrame, blocks: seq<AudioCapture.Block>, b: AudioCapture.Block,
                    block: nat, period: nat)
    requires period > 0 && block <= |blocks|
    ensures PacketsOf(seed, blocks + [b], block, period) == PacketsOf(seed, blocks, block, period)
  {
    var made := block - block % 2;
    assert (blocks + [b])[..made] == blocks[..made];
  }

  lemma EvenKeepsPackets(seed: AudioCapture.HalfFrame, blocks: seq<AudioCapture.Block>, b: AudioCapture.Block,
                         period: nat)
    requires period > 0 && |blocks| % 2 == 0
    ensures PacketsOf(seed, blocks + [b], |blocks| + 1, period) == PacketsOf(seed, blocks, |blocks|, period)
  {
    var n := |blocks|;
    NextPacketNumber(n);
    HalfOfNext(n);
    assert (blocks + [b])[..n] == blocks[..n];
  }

  // ----- counting concealments -----

  /** How many decoders must conceal. */
  function Concealments(outputs: seq<Output>): nat {
    if |outputs| == 0 then 0
    else Concealments(outputs[..|outputs| - 1]) + (if outputs[|outputs| - 1].Conceal? then 1 else 0)
  }

  lemma {:induction false} NoConcealments(outputs: seq<Output>)
    requires forall d :: 0 <= d < |outputs| ==> !outputs[d].Conceal?
    ensures Concealments(outputs) == 0
  {
    if |outputs| > 0 {
      NoConcealments(outputs[..|outputs| - 1]);
    }
  }

  /** In one block at most the last decoder conceals: the second half of a dropped packet. */
  lemma BlockConceals(seed: AudioCapture.HalfFrame, blocks: seq<AudioCapture.Block>, block: nat, period: nat)
    requires period > 0 && block <= |blocks|
    ensures Concealments(HandedAt(seed, blocks, block, period)) == if Concealed(block, period) then 1 else 0
  {
    var outputs := HandedAt(seed, blocks, block, period);
    NoConcealments(outputs[..NODES - 2]);
  }

  // ----- the benchmark in memory -----

  /** The frames of a whole run: one for every two blocks, none of them marked as following an interruption, and
      the newest still queued. */
  predicate AllUninterrupted(recorded: seq<AudioCapture.Block>, queued: seq<L.Frame>) {
    var frames := Captured(recorded).1;
    && |frames| == |recorded| / 2 && queued == Latest(frames)
    && forall k :: 0 <= k < |frames| ==> Uninterrupted(frames[k], k)
  }

  /** What the hooks do during one block: the codec frame encoding yields if it succeeds, what the decoders make
      of what they are handed, and what the clock reads before, after encoding and at the end. */
  datatype Hooks = Hooks(
    encoded: Option<AudioCapture.HalfFrame>, decode: Decoder, started: u32, encodedAt: u32, finished: u32)

  function PassOf(h: Hooks, failures: nat): Pass {
    Pass(h.encoded.Some?, failures, h.started, h.encodedAt, h.finished)
  }

  /** How many decoders fail on what they are handed. */
  function FailuresOn(decode: Decoder, outputs: seq<Output>): nat { Failures(Succeeded(decode, outputs)) }

  /** The record of a block: what its hooks did, the decoders with what a run hands them for that block. */
  function RecordOf(h: Hooks, seed: AudioCapture.HalfFrame, blocks: seq<AudioCapture.Block>, block: nat, period: nat)
    : Pass
    requires period > 0 && block <= |blocks|
  {
    PassOf(h, FailuresOn(h.decode, HandedAt(seed, blocks, block, period)))
  }

  /** Block number `block` of a run was captured and recorded as these hooks had it. */
  predicate Kept(seed: AudioCapture.HalfFrame, period: nat, blocks: seq<AudioCapture.Block>, passes: seq<Pass>,
                 block: nat, h: Hooks)
    requires period > 0 && block < |blocks| == |passes|
  {
    blocks[block] == OnTime(h.encoded, block) && passes[block] == RecordOf(h, seed, blocks, block, period)
  }

  /** The blocks captured and the records kept of the first n blocks after some. */
  predicate Tracks(seed: AudioCapture.HalfFrame, period: nat, blocks: seq<AudioCapture.Block>, passes: seq<Pass>,
                   before: nat, hooks: seq<Hooks>, n: nat)
    requires period > 0 && n <= |hooks|
  {
    && |blocks| == |passes| == before + n
    && forall k :: 0 <= k < n ==> Kept(seed, period, blocks, passes, before + k, hooks[k])
  }

  lemma RecordStays(h: Hooks, seed: AudioCapture.HalfFrame, blocks: seq<AudioCapture.Block>, b: AudioCapture.Block,
                    block: nat, period: nat)
    requires period > 0 && block <= |blocks|
    ensures RecordOf(h, seed, blocks + [b], block, period) == RecordOf(h, seed, blocks, block, period)
  {
    SamePackets(seed, blocks, b, block, period);
  }

  lemma NewIsKept(seed: AudioCapture.HalfFrame, period: nat, blocks: seq<AudioCapture.Block>, passes: seq<Pass>, h: Hooks)
    requires period > 0 && |blocks| == |passes|
    ensures var b, p := OnTime(h.encoded, |blocks|), RecordOf(h, seed, blocks, |blocks|, period);
      Kept(seed, period, blocks + [b], passes + [p], |blocks|, h)
  {
    RecordStays(h, seed, blocks, OnTime(h.encoded, |blocks|), |blocks|, period);
  }

  lemma KeptStays(seed: AudioCapture.HalfFrame, period: nat, blocks: seq<AudioCapture.Block>, passes: seq<Pass>,
                  block: nat, h: Hooks, b: AudioCapture.Block, p: Pass)
    requires period > 0 && block < |blocks| == |passes| && Kept(seed, period, blocks, passes, block, h)
    ensures Kept(seed, period, blocks + [b], passes + [p], block, h)
  {
    RecordStays(h, seed, blocks, b, block, period);
  }

  lemma TracksGrow(seed: AudioCapture.HalfFrame, period: nat, blocks: seq<AudioCapture.Block>, passes: seq<Pass>,
                   before: nat, hooks: seq<Hooks>, n: nat)
    requires period > 0 && n < |hooks| && Tracks(seed, period, blocks, passes, before, hooks, n)
    ensures var b, p := OnTime(hooks[n].encoded, before + n), RecordOf(hooks[n], seed, blocks, before + n, period);
      Tracks(seed, period, blocks + [b], passes + [p], before, hooks, n + 1)
  {
    var b, p := OnTime(hooks[n].encoded, before + n), RecordOf(hooks[n], seed, blocks, before + n, period);
    forall k | 0 <= k < n ensures Kept(seed, period, blocks + [b], passes + [p], before + k, hooks[k]) {
      KeptStays(seed, period, blocks, passes, before + k, hooks[k], b, p);
    }
    NewIsKept(seed, period, blocks, passes, hooks[n]);
  }

  // ----- when a run passes -----

  function BlocksOf(hooks: seq<Hooks>): (blocks: seq<AudioCapture.Block>)
    ensures |blocks| == |hooks|
  {
    seq(|hooks|, i requires 0 <= i < |hooks| => OnTime(hooks[i].encoded, i))
  }

  predicate AllDecoded(decode: Decoder, outputs: seq<Output>) {
    forall d :: 0 <= d < |outputs| ==> decode(d, outputs[d]).Some?
  }

  /** Every block was encoded and decoded, and every measured one kept to its budget. */
  predicate CleanRun(hooks: seq<Hooks>, seed: AudioCapture.HalfFrame, warmup: nat, period: nat)
    requires period > 0
  {
    && (forall k :: 0 <= k < |hooks| ==>
          hooks[k].encoded.Some? && AllDecoded(hooks[k].decode, HandedAt(seed, BlocksOf(hooks), k, period)))
    && (forall k :: warmup <= k < |hooks| ==> Wrap32(hooks[k].finished - hooks[k].started) <= BUDGET_US)
  }

  lemma {:induction false} NoFailedDecoder(mask: seq<bool>)
    ensures Failures(mask) == 0 <==> forall d :: 0 <= d < |mask| ==> mask[d]
  {
    if |mask| > 0 {
      var n := |mask| - 1;
      NoFailedDecoder(mask[..n]);
      assert forall d :: 0 <= d < n ==> mask[..n][d] == mask[d];
    }
  }

  lemma AllDecodedExactly(decode: Decoder, outputs: seq<Output>)
    ensures FailuresOn(decode, outputs) == 0 <==> AllDecoded(decode, outputs)
  {
    NoFailedDecoder(Succeeded(decode, outputs));
    assert forall d :: 0 <= d < |outputs| ==> Succeeded(decode, outputs)[d] == decode(d, outputs[d]).Some?;
  }

  /** The records of a whole run are clean exactly if the run was, hook by hook. */
  lemma CleanRunExactly(hooks: seq<Hooks>, seed: AudioCapture.HalfFrame, warmup: nat, period: nat,
                        blocks: seq<AudioCapture.Block>, passes: seq<Pass>)
    requires period > 0 && warmup <= |hooks| && Tracks(seed, period, blocks, passes, 0, hooks, |hooks|)
    ensures Clean(passes, passes[warmup..]) <==> CleanRun(hooks, seed, warmup, period)
  {
    assert forall k :: 0 <= k < |hooks| ==> Kept(seed, period, blocks, passes, 0 + k, hooks[k]);
    assert blocks == BlocksOf(hooks);
    forall k | 0 <= k < |hooks|
      ensures passes[k].encoded == hooks[k].encoded.Some? && TotalTime(passes[k]) == Wrap32(hooks[k].finished - hooks[k].started)
      ensures passes[k].failures == 0 <==> AllDecoded(hooks[k].decode, HandedAt(seed, blocks, k, period)) {
      AllDecodedExactly(hooks[k].decode, HandedAt(seed, blocks, k, period));
    }
    CleanHookByHook(hooks, seed, warmup, period, passes);
  }

  lemma CleanHookByHook(hooks: seq<Hooks>, seed: AudioCapture.HalfFrame, warmup: nat, period: nat, passes: seq<Pass>)
    requires period > 0 && warmup <= |hooks| == |passes|
    requires forall k :: 0 <= k < |hooks| ==> passes[k].encoded == hooks[k].encoded.Some?
    requires forall k :: 0 <= k < |hooks| ==>
      TotalTime(passes[k]) == Wrap32(hooks[k].finished - hooks[k].started)
    requires forall k :: 0 <= k < |hooks| ==>
      (passes[k].failures == 0 <==> AllDecoded(hooks[k].decode, HandedAt(seed, BlocksOf(hooks), k, period)))
    ensures Clean(passes, passes[warmup..]) <==> CleanRun(hooks, seed, warmup, period)
  {
    var timed := passes[warmup..];
    assert forall k :: warmup <= k < |passes| ==> timed[k - warmup] == passes[k];
  }

  function Measured(passes: seq<Pass>, warmup: nat): seq<Pass> {
    if |passes| <= warmup then [] else passes[warmup..]
  }

  lemma MeasuredGrows(passes: seq<Pass>, p: Pass, warmup: nat)
    ensures Measured(passes + [p], warmup) ==
      if |passes| >= warmup then Measured(passes, warmup) + [p] else Measured(passes, warmup)
  {
  }

  /** The audio runtime under test with the benchmark's packet source. */
  class Rig {
    const pipeline: Pipeline
    const capture: AudioCapture.CaptureUnit
    const period: u16
    const headphone: array<AudioMixer.Sample>
    var latestCodecFrame: AudioCapture.HalfFrame
    var previousTimestamp: Option<u32>
    var encodeFailures: nat
    ghost const footprint: set<object>
    ghost const seed: AudioCapture.HalfFrame
    ghost var recorded: seq<AudioCapture.Block>

    ghost predicate Valid()
      reads footprint
    {
      && footprint == Parts() && pipeline.Valid() && pipeline.localSourceId == LOCAL && period > 0
      && headphone.Length == AudioMixer.SAMPLES && capture.Valid() && capture.source == LOCAL
      && this !in pipeline.playout.Parts() && headphone !in pipeline.playout.Parts()
      && capture.footprint !! RenderParts()
    }

    ghost function Views(): (views: seq<Playout>)
      requires Valid()
      reads footprint
      ensures WellFormedViews(views)
    {
      pipeline.playout.Views()
    }

    /** The packets that cover a block, as far as that is settled by what was recorded before it. */
    ghost function Packets(block: nat): (packets: seq<Packet>)
      requires period > 0 && block <= |recorded|
      reads this
      ensures |packets| == NODES
    {
      PacketsOf(seed, recorded, block, period)
    }

    ghost function RenderParts(): set<object> {
      {this, pipeline, pipeline.mixer, pipeline.mixer.sourceGain, headphone} + pipeline.playout.Parts()
    }

    ghost function Parts(): set<object> { capture.footprint + RenderParts() }

    constructor (plcPeriod: u16, seedFrame: AudioCapture.HalfFrame)
      requires plcPeriod != 0
      ensures At(0) && period == plcPeriod && seed == seedFrame && fresh(footprint) && recorded == []
    {
      var unit, output, renderer := NewParts();
      headphone, pipeline, capture := output, renderer, unit;
      period, latestCodecFrame, previousTimestamp, encodeFailures := plcPeriod, seedFrame, None, 0;
      seed, recorded := seedFrame, [];
      footprint := unit.footprint + {this, renderer, renderer.mixer, renderer.mixer.sourceGain, output} +
        renderer.playout.Parts();
      new;
      StartsAtBlockZero();
    }

    static method NewParts()
      returns (unit: AudioCapture.CaptureUnit, output: array<AudioMixer.Sample>, renderer: Pipeline)
      ensures unit.Valid() && unit.source == LOCAL && fresh(unit.footprint)
      ensures unit.View() == AudioCapture.Fresh(LOCAL, 0) && unit.output.frames == []
      ensures renderer.Valid() && renderer.localSourceId == LOCAL && fresh(renderer) && fresh(renderer.mixer)
      ensures fresh(renderer.mixer.sourceGain) && fresh(renderer.playout.Parts())
      ensures forall i :: 0 <= i < NODES ==> renderer.playout.Views()[i] == Initial
      ensures fresh(output) && output.Length == AudioMixer.SAMPLES && output !in renderer.playout.Parts()
      ensures unit.footprint !! {renderer, renderer.mixer, renderer.mixer.sourceGain, output} + renderer.playout.Parts()
    {
      unit := new AudioCapture.CaptureUnit(LOCAL, 0);
      ghost var held := unit.footprint;
      output := new AudioMixer.Sample[AudioMixer.SAMPLES](_ => 0);
      renderer := new Pipeline(LOCAL);
      assert output !in renderer.playout.Parts() && held !! renderer.playout.Parts();
    }

    lemma StartsAtBlockZero()
      requires Valid() && recorded == [] && previousTimestamp == None && latestCodecFrame == seed
      requires forall i :: 0 <= i < NODES ==> Views()[i] == Initial
      requires capture.View() == AudioCapture.Fresh(LOCAL, 0) && capture.output.frames == []
      ensures At(0)
    {
      AllInitial(Views(), Packets(0));
      NothingIsHeld();
    }

    method MakePacket(sourceId: nat, block: nat, number: u16) returns (packet: Packet)
      requires Valid() && 2 <= sourceId <= NODES && Recorded(block)
      requires block % 2 == 0 && number == PacketNumber(block)
      ensures packet == Packets(block)[sourceId - 1]
    {
      var flags: Byte := BOTH_HALVES;
      if sourceId == 6 && period != 0 && number != 0 && number % period == 0 {
        flags := FIRST_HALF;
      }
      packet := Packet(number, flags, latestCodecFrame + latestCodecFrame);
      PacketMadeNow(seed, recorded, period, sourceId);
    }

    method QueuePacket(sourceId: nat, block: nat, number: u16) returns (ok: bool)
      requires Valid() && 2 <= sourceId <= NODES && Recorded(block)
      requires block % 2 == 0 && number == PacketNumber(block)
      requires Between(Views()[sourceId - 1], block, Packets(block)[sourceId - 1])
      modifies pipeline.playout.Parts()
      ensures Valid() && ok && Recorded(block)
      ensures Views() == old(Views())[sourceId - 1 := Views()[sourceId - 1]]
      ensures Queued(Views()[sourceId - 1], block, Packets(block)[sourceId - 1])
    {
      var packet := MakePacket(sourceId, block, number);
      QueueingIsAccepted(Views()[sourceId - 1], block, packet, packet);
      ok := pipeline.IngestRemote(Frame(REMOTE_AUDIO, sourceId, packet));
    }

    ghost predicate PartlyQueued(block: nat, n: nat)
      reads footprint
    {
      Valid() && Recorded(block) && QueuedBelow(Views(), block, Packets(block), n)
    }

    method QueueOne(sourceId: nat, block: nat, number: u16) returns (ok: bool)
      requires 2 <= sourceId <= NODES && PartlyQueued(block, sourceId - 1)
      requires block % 2 == 0 && number == PacketNumber(block)
      modifies pipeline.playout.Parts()
      ensures ok && PartlyQueued(block, sourceId)
    {
      ghost var before := Views();
      ok := QueuePacket(sourceId, block, number);
      QueuedOneMore(before, Views(), block, Packets(block), sourceId - 1);
    }

    /** On even blocks, one packet per remote source, numbered by the block count. */
    method QueueRemotePackets(block: nat) returns (ok: bool)
      requires At(block)
      modifies pipeline.playout.Parts()
      ensures Valid() && Recorded(block) && ok && AllReady(Views(), block, Packets(block))
    {
      if block % 2 != 0 {
        return true;
      }
      var number := PacketNumber(block);
      var sourceId := 2;
      while sourceId <= NODES
        invariant 2 <= sourceId <= NODES + 1 && PartlyQueued(block, sourceId - 1)
      {
        ok := QueueOne(sourceId, block, number);
        assert ok;  // so the loop never stops early
        sourceId := sourceId + 1;
      }
      return true;
    }

    /** Takes the time of a block and what encoding it yields; the time says whether blocks were missed. */
    method TakeBlock(encoded: Option<AudioCapture.HalfFrame>, block: nat) returns (taken: AudioCapture.Block)
      requires Valid()
      modifies this
      ensures Valid() && Views() == old(Views()) && recorded == old(recorded) + [taken]
      ensures taken == Taken(encoded, old(previousTimestamp), block)
      ensures previousTimestamp == Some(TimeOf(block))
      ensures latestCodecFrame == if encoded.Some? then encoded.value else old(latestCodecFrame)
      ensures capture.View() == old(capture.View()) && capture.output.frames == old(capture.output.frames)
    {
      var timestamp := Wrap32(block * BLOCK_INTERVAL_US);
      var discontinuity :=
        previousTimestamp.Some? && Wrap32(timestamp - previousTimestamp.value) != BLOCK_INTERVAL_US;
      previousTimestamp := Some(timestamp);
      if encoded.Some? {
        latestCodecFrame := encoded.value;
      } else {
        encodeFailures := encodeFailures + 1;
      }
      taken := AudioCapture.Block(encoded, discontinuity, timestamp);
      recorded := recorded + [taken];
    }

    /** Encodes the microphone block and hands it to capture with its time, marked if it does not follow the block
        before it by one interval. */
    method Record(encoded: Option<AudioCapture.HalfFrame>, block: nat) returns (submitted: bool)
      requires Valid()
      modifies this, capture.footprint
      ensures Valid() && submitted && Views() == old(Views())
      ensures previousTimestamp == Some(TimeOf(block))
      ensures latestCodecFrame == if encoded.Some? then encoded.value else old(latestCodecFrame)
      ensures
        var taken := Taken(encoded, old(previousTimestamp), block);
        var (c, frame) := AudioCapture.Submitted(old(capture.View()), taken, |old(capture.output.frames)|);
        && recorded == old(recorded) + [taken] && capture.View() == c
        && capture.output.frames == QueuedAfter(old(capture.output.frames), frame)
    {
      var taken := TakeBlock(encoded, block);
      submitted := capture.Submit(taken);
    }

    /** So far one block was recorded per interval, capture holds what they make, and the last frame encoded is kept. */
    ghost predicate Recorded(block: nat)
      reads this, capture.footprint
      requires capture.Valid()
    {
      && |recorded| == block && latestCodecFrame == LatestCodec(seed, recorded)
      && Follows(recorded, previousTimestamp, capture.View(), capture.output.frames)
    }

    method RecordNext(encoded: Option<AudioCapture.HalfFrame>, block: nat) returns (submitted: bool)
      requires Valid() && Recorded(block)
      modifies this, capture.footprint
      ensures Valid() && submitted && Views() == old(Views())
      ensures Recorded(block + 1) && recorded == old(recorded) + [OnTime(encoded, block)]
    {
      FollowsOn(recorded, previousTimestamp, capture.View(), capture.output.frames, encoded);
      submitted := Record(encoded, block);
    }

    /** The packets of an even block are those of the next, too. */
    method RecordInPair(encoded: Option<AudioCapture.HalfFrame>, block: nat) returns (submitted: bool)
      requires Valid() && Recorded(block)
      modifies this, capture.footprint
      ensures Valid() && submitted && Views() == old(Views())
      ensures Recorded(block + 1) && recorded == old(recorded) + [OnTime(encoded, block)]
      ensures block % 2 == 0 ==> Packets(block + 1) == old(Packets(block))
    {
      if block % 2 == 0 {
        EvenKeepsPackets(seed, recorded, OnTime(encoded, block), period);
      }
      submitted := RecordNext(encoded, block);
    }

    /** One pass of the runtime: record a block, render a block. Only a refused submission would fail it. */
    method Process(h: Hooks, block: nat) returns (processed: bool, outputs: seq<Output>)
      requires Valid() && Recorded(block) && AllReady(Views(), block, Packets(block))
      modifies footprint
      ensures processed && At(block + 1) && recorded == old(recorded) + [OnTime(h.encoded, block)]
      ensures outputs == HandedAt(seed, old(recorded), block, period)
    {
      ghost var packets := Packets(block);
      processed := RecordInPair(h.encoded, block);
      if !processed {
        return false, [];
      }
      outputs := RenderBlock(h, block, packets, Packets(block + 1));
    }

    method RenderBlock(h: Hooks, block: nat, ghost packets: seq<Packet>, ghost later: seq<Packet>)
      returns (outputs: seq<Output>)
      requires Valid() && |packets| == |later| == NODES && AllReady(Views(), block, packets)
      requires block % 2 == 0 ==> later == packets
      modifies RenderParts() - {this}
      ensures Valid() && AllBetween(Views(), block + 1, later) && outputs == Handed(block, packets)
    {
      RenderAdvances(Views(), block, packets, later);
      outputs := pipeline.Render(h.decode, headphone);
    }

    /** Queues and renders one block. */
    method PlayBlock(block: nat, h: Hooks) returns (queued: bool, processed: bool, outputs: seq<Output>)
      requires At(block)
      modifies footprint
      ensures At(block + 1) && queued && processed
      ensures recorded == old(recorded) + [OnTime(h.encoded, block)]
      ensures outputs == HandedAt(seed, old(recorded), block, period)
    {
      processed, outputs := false, [];
      queued := QueueRemotePackets(block);
      if queued {
        processed, outputs := Process(h, block);
      }
    }

    ghost predicate At(block: nat)
      reads footprint
    {
      Valid() && Recorded(block) && AllBetween(Views(), block, Packets(block))
    }
  }

  lemma OneMoreTally(decode: Decoder, outputs: seq<Output>, d: nat)
    requires d < |outputs|
    ensures Failures(Succeeded(decode, outputs[..d + 1])) ==
      Failures(Succeeded(decode, outputs[..d])) + if decode(d, outputs[d]).Some? then 0 else 1
  {
    assert outputs[..d + 1] == outputs[..d] + [outputs[d]];
    OneMoreDecoder(decode, outputs[..d], outputs[d]);
    OneMoreFailure(Succeeded(decode, outputs[..d]), decode(d, outputs[d]).Some?);
  }

  /** The counters of a run over one rig. */
  class Benchmark {
    const rig: Rig
    const statistics: Statistics
    const warmupBlocks: u32
    const measuredBlocks: u32
    var totalBlocks: u32
    var plcCalls: u32
    var completedBlocks: u32
    var complete: bool
    var passed: bool
    var finished: bool

    ghost predicate CountsSoFar()
      reads this
    {
      && rig.period > 0 && measuredBlocks > 0 && warmupBlocks + measuredBlocks <= MAX_U32
      && totalBlocks <= warmupBlocks + measuredBlocks
      && completedBlocks == (if totalBlocks <= warmupBlocks then 0 else totalBlocks - warmupBlocks)
      && plcCalls == PlcBlocks(warmupBlocks, totalBlocks, rig.period)
    }

    ghost predicate Counts()
      reads this
    {
      CountsSoFar() && finished == (completedBlocks == measuredBlocks) && complete == finished
    }

    /** The figures are those of the blocks so far. */
    ghost predicate TalliedSoFar()
      reads this, statistics
    {
      && statistics.Valid() && |statistics.passes| == totalBlocks
      && statistics.timed == Measured(statistics.passes, warmupBlocks)
    }

    /** A finished run passed exactly if it concealed something and was clean. */
    ghost predicate Tallied()
      reads this, statistics
    {
      TalliedSoFar() && (finished ==> passed == (plcCalls != 0 && Clean(statistics.passes, statistics.timed)))
    }

    ghost predicate Valid()
      reads this, statistics, rig.footprint
    {
      this !in rig.footprint && statistics !in rig.footprint && Counts() && Tallied() && rig.At(totalBlocks)
    }

    constructor (warmup: u32, measured: u32, plcPeriod: u16, seedFrame: AudioCapture.HalfFrame)
      requires measured != 0 && plcPeriod != 0 && warmup <= MAX_U32 - measured
      ensures Valid() && totalBlocks == 0 && fresh(rig.footprint) && fresh(statistics)
      ensures warmupBlocks == warmup && measuredBlocks == measured && rig.period == plcPeriod && rig.seed == seedFrame
    {
      statistics := new Statistics();
      rig := new Rig(plcPeriod, seedFrame);
      warmupBlocks, measuredBlocks := warmup, measured;
      totalBlocks, plcCalls, completedBlocks := 0, 0, 0;
      complete, passed, finished := false, false, false;
    }

    /** The decode hook's tally: concealed frames count only in the measured interval, and the count saturates. */
    method TallyConcealed(outputs: seq<Output>)
      modifies this`plcCalls
      ensures var counted := old(plcCalls) + if totalBlocks >= warmupBlocks then Concealments(outputs) else 0;
        plcCalls == if counted < MAX_U32 then counted else MAX_U32
    {
      var d := 0;
      while d < |outputs|
        invariant 0 <= d <= |outputs|
        invariant var counted := old(plcCalls) + if totalBlocks >= warmupBlocks then Concealments(outputs[..d]) else 0;
          plcCalls == if counted < MAX_U32 then counted else MAX_U32
      {
        assert outputs[..d + 1][..d] == outputs[..d];
        if outputs[d].Conceal? && totalBlocks >= warmupBlocks {
          if plcCalls != MAX_U32 {
            plcCalls := plcCalls + 1;
          }
        }
        d := d + 1;
      }
      assert outputs[..d] == outputs;
    }

    /** The decode hook's other tally: how many decoders failed in this block. */
    method CountDecodeFailures(decode: Decoder, outputs: seq<Output>) returns (failures: nat)
      ensures failures == Failures(Succeeded(decode, outputs))
    {
      failures := 0;
      for d := 0 to |outputs|
        invariant failures == Failures(Succeeded(decode, outputs[..d]))
      {
        OneMoreTally(decode, outputs, d);
        if decode(d, outputs[d]).None? {
          failures := failures + 1;
        }
      }
      assert outputs[..|outputs|] == outputs;
    }

    /** The averages and the verdict. */
    method Finalize()
      requires statistics.Valid() && completedBlocks == |statistics.timed|
      modifies this`complete, this`passed, this`finished, statistics
      ensures statistics.Valid() && statistics.passes == old(statistics.passes) && statistics.timed == old(statistics.timed)
      ensures finished && complete == (completedBlocks == measuredBlocks)
      ensures passed == (complete && plcCalls != 0 && Clean(statistics.passes, statistics.timed))
    {
      if completedBlocks != 0 {
        statistics.SetAverages(completedBlocks);
      }
      var clean := statistics.IsClean();
      complete := completedBlocks == measuredBlocks;
      passed := complete && plcCalls != 0 && clean;
      finished := true;
    }

    /** Counts one block's failures, and in the measured interval its times. */
    method TallyPass(p: Pass)
      requires Tallied() && totalBlocks < MAX_U32
      modifies statistics
      ensures statistics.Valid() && statistics.passes == old(statistics.passes) + [p]
      ensures statistics.timed == Measured(statistics.passes, warmupBlocks)
    {
      MeasuredGrows(statistics.passes, p, warmupBlocks);
      statistics.CountFailures(p);
      if totalBlocks >= warmupBlocks {
        statistics.CountTimes(p);
      }
    }

    method Advance(outputs: seq<Output>)
      requires Counts() && !finished
      requires Concealments(outputs) == if Concealed(totalBlocks, rig.period) then 1 else 0
      modifies this`plcCalls, this`completedBlocks, this`totalBlocks
      ensures CountsSoFar() && totalBlocks == old(totalBlocks) + 1
    {
      TallyConcealed(outputs);
      if totalBlocks >= warmupBlocks {
        completedBlocks := completedBlocks + 1;
      }
      totalBlocks := totalBlocks + 1;
    }

    method FinishIfComplete()
      requires CountsSoFar() && TalliedSoFar() && !finished && !complete
      modifies this`complete, this`passed, this`finished, statistics
      ensures Counts() && Tallied() && statistics.passes == old(statistics.passes)
    {
      if completedBlocks == measuredBlocks {
        Finalize();
      }
    }

    method CountBlock(p: Pass, outputs: seq<Output>)
      requires Counts() && Tallied() && !finished
      requires Concealments(outputs) == if Concealed(totalBlocks, rig.period) then 1 else 0
      modifies this, statistics
      ensures Counts() && Tallied() && totalBlocks == old(totalBlocks) + 1
      ensures statistics.passes == old(statistics.passes) + [p]
    {
      TallyPass(p);
      Advance(outputs);
      FinishIfComplete();
    }

    method CountPlayed(p: Pass, outputs: seq<Output>)
      requires Counts() && Tallied() && !finished
      requires Concealments(outputs) == if Concealed(totalBlocks, rig.period) then 1 else 0
      requires this !in rig.footprint && statistics !in rig.footprint && rig.At(totalBlocks + 1)
      modifies this, statistics
      ensures Valid() && totalBlocks == old(totalBlocks) + 1 && rig.recorded == old(rig.recorded)
      ensures statistics.passes == old(statistics.passes) + [p]
    {
      CountBlock(p, outputs);
    }

    /** What the hooks did during a block that was handed these outputs. */
    method Observe(h: Hooks, outputs: seq<Output>) returns (p: Pass)
      ensures p == PassOf(h, FailuresOn(h.decode, outputs))
    {
      var failures := CountDecodeFailures(h.decode, outputs);
      p := PassOf(h, failures);
    }

    method PlayNext(h: Hooks) returns (queued: bool, processed: bool, outputs: seq<Output>)
      requires this !in rig.footprint && statistics !in rig.footprint && Counts() && Tallied() && rig.At(totalBlocks)
      modifies rig.footprint
      ensures queued && processed && Counts() && Tallied() && rig.At(totalBlocks + 1)
      ensures Concealments(outputs) == if Concealed(totalBlocks, rig.period) then 1 else 0
      ensures rig.recorded == old(rig.recorded) + [OnTime(h.encoded, totalBlocks)]
      ensures outputs == HandedAt(rig.seed, old(rig.recorded), totalBlocks, rig.period)
    {
      BlockConceals(rig.seed, rig.recorded, totalBlocks, rig.period);
      queued, processed, outputs := rig.PlayBlock(totalBlocks, h);
    }

    /** One block; what it adds to the figures is told by its hooks and what the run handed them. */
    method Step(h: Hooks) returns (ok: bool)
      requires Valid()
      modifies this, statistics, rig.footprint
      ensures Valid() && ok == !old(finished)
      ensures totalBlocks == old(totalBlocks) + if ok then 1 else 0
      ensures rig.recorded == old(rig.recorded) + if ok then [OnTime(h.encoded, old(totalBlocks))] else []
      ensures statistics.passes == old(statistics.passes) +
        if ok then [RecordOf(h, rig.seed, old(rig.recorded), old(totalBlocks), rig.period)] else []
    {
      if finished {
        return false;
      }
      Play(h);
      return true;
    }

    method Play(h: Hooks)
      requires Valid() && !finished
      modifies this, statistics, rig.footprint
      ensures Valid() && totalBlocks == old(totalBlocks) + 1
      ensures rig.recorded == old(rig.recorded) + [OnTime(h.encoded, old(totalBlocks))]
      ensures statistics.passes == old(statistics.passes) +
        [RecordOf(h, rig.seed, old(rig.recorded), old(totalBlocks), rig.period)]
    {
      var queued, processed, outputs := PlayNext(h);
      assert queued && processed;  // so neither exit that counts a process failure is ever taken
      var observed := Observe(h, outputs);
      CountPlayed(observed, outputs);
    }

    /** Steps to completion: the reported count is the number of concealed blocks of the measured interval, and it
        is the validator's closed form exactly when the form drifts equally at both ends of the interval. The run
        passes exactly if something was concealed, nothing failed at any time and every measured block kept to its
        budget. No frame captured on the way is marked as following an interruption. */
    method Run(hooks: seq<Hooks>)
      requires Valid() && |hooks| == warmupBlocks + measuredBlocks - totalBlocks
      modifies this, statistics, rig.footprint
      ensures finished && complete
      ensures plcCalls == PlcBlocks(warmupBlocks, warmupBlocks + measuredBlocks, rig.period)
      ensures plcCalls == ExpectedPlcCalls(warmupBlocks, measuredBlocks, rig.period) <==>
        Drift(warmupBlocks + measuredBlocks, rig.period) == Drift(warmupBlocks, rig.period)
      ensures (warmupBlocks, measuredBlocks, rig.period) == (1000, 180000, 97) ==>
        plcCalls == ExpectedPlcCalls(warmupBlocks, measuredBlocks, rig.period) == 927
      ensures old(rig.recorded) <= rig.recorded && old(statistics.passes) <= statistics.passes
      ensures |statistics.passes| == warmupBlocks + measuredBlocks
      ensures Tracks(rig.seed, rig.period, rig.recorded, statistics.passes, old(totalBlocks), hooks, |hooks|)
      ensures passed <==> plcCalls != 0 && Clean(statistics.passes, statistics.passes[warmupBlocks..])
      ensures old(totalBlocks) == 0 ==>
        (passed <==> plcCalls != 0 && CleanRun(hooks, rig.seed, warmupBlocks, rig.period))
      ensures AllUninterrupted(rig.recorded, rig.capture.output.frames)
    {
      StepToCompletion(hooks);
      ReportsItsCount();
      if old(totalBlocks) == 0 {
        CleanRunExactly(hooks, rig.seed, warmupBlocks, rig.period, rig.recorded, statistics.passes);
      }
      NoFrameIsInterrupted(rig.recorded);
    }

    lemma ReportsItsCount()
      requires Counts() && totalBlocks == warmupBlocks + measuredBlocks
      ensures finished && complete && plcCalls == PlcBlocks(warmupBlocks, warmupBlocks + measuredBlocks, rig.period)
      ensures plcCalls == ExpectedPlcCalls(warmupBlocks, measuredBlocks, rig.period) <==>
        Drift(warmupBlocks + measuredBlocks, rig.period) == Drift(warmupBlocks, rig.period)
      ensures (warmupBlocks, measuredBlocks, rig.period) == (1000, 180000, 97) ==>
        plcCalls == ExpectedPlcCalls(warmupBlocks, measuredBlocks, rig.period) == 927
    {
      ClosedFormExactly(warmupBlocks, measuredBlocks, rig.period);
      CanonicalRun();
    }

    method StepToCompletion(hooks: seq<Hooks>)
      requires Valid() && |hooks| == warmupBlocks + measuredBlocks - totalBlocks
      modifies this, statistics, rig.footprint
      ensures Valid() && finished && totalBlocks == warmupBlocks + measuredBlocks
      ensures old(rig.recorded) <= rig.recorded && old(statistics.passes) <= statistics.passes
      ensures Tracks(rig.seed, rig.period, rig.recorded, statistics.passes, old(totalBlocks), hooks, |hooks|)
    {
      var i := 0;
      ghost var blocks, passes, first := rig.recorded, statistics.passes, totalBlocks;
      while !finished
        invariant Valid() && i <= |hooks| && totalBlocks == first + i
        invariant blocks <= rig.recorded && passes <= statistics.passes
        invariant Tracks(rig.seed, rig.period, rig.recorded, statistics.passes, first, hooks, i)
        decreases |hooks| - i
      {
        FinishesAtTheEnd();
        StepOn(hooks, first, i);
        i := i + 1;
      }
      FinishesAtTheEnd();
    }

    method StepOn(hooks: seq<Hooks>, ghost first: nat, i: nat)
      requires Valid() && !finished && i < |hooks| && totalBlocks == first + i
      requires Tracks(rig.seed, rig.period, rig.recorded, statistics.passes, first, hooks, i)
      modifies this, statistics, rig.footprint
      ensures Valid() && totalBlocks == first + i + 1
      ensures old(rig.recorded) <= rig.recorded && old(statistics.passes) <= statistics.passes
      ensures Tracks(rig.seed, rig.period, rig.recorded, statistics.passes, first, hooks, i + 1)
    {
      ghost var blocks, passes := rig.recorded, statistics.passes;
      TracksGrow(rig.seed, rig.period, blocks, passes, first, hooks, i);
      var stepped := Step(hooks[i]);
    }

    lemma FinishesAtTheEnd()
      requires Counts()
      ensures finished <==> totalBlocks == warmupBlocks + measuredBlocks
    {
    }
  }
}
