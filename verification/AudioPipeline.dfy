/** Six jitter buffers, one per source, and the render step that feeds them to the decoders and
    the mixer. */
module AudioPipeline {
  import opened Words
  import opened AudioPlayout
  import opened AudioPlayoutRing
  import AudioMixer

  const NODES: nat := 6
  const REMOTE_AUDIO: Byte := 2

  datatype Frame = Frame(kind: Byte, sourceId: Byte, packet: Packet) {
    predicate IsRemoteAudio() { kind == REMOTE_AUDIO && 1 <= sourceId <= NODES }
  }

  predicate WellFormedViews(views: seq<Playout>) {
    |views| == NODES && forall i :: 0 <= i < NODES ==> WellFormed(views[i])
  }

  class PlayoutBank {
    const sources: seq<Source>
    ghost const footprint: set<object>

    ghost predicate Apart() {
      && |sources| == NODES
      && (forall i :: 0 <= i < NODES ==>
            sources[i] in footprint && sources[i].ring in footprint && sources[i].ring.entries in footprint)
      && (forall i, j :: 0 <= i < j < NODES ==>
            && sources[i] != sources[j] && sources[i].ring != sources[j].ring
            && sources[i].ring.entries != sources[j].ring.entries)
    }

    ghost function Parts(): set<object> { footprint }

    ghost predicate Valid()
      reads Parts()
    {
      Apart() && forall i :: 0 <= i < NODES ==> sources[i].Valid()
    }

    /** The abstract value: one playout per source, source 1 first. */
    ghost function Views(): (views: seq<Playout>)
      requires Valid()
      reads Parts()
      ensures WellFormedViews(views)
    {
      seq(NODES, i requires 0 <= i < NODES && Valid() reads Parts() => sources[i].View())
    }

    constructor ()
      ensures Valid() && fresh(Parts())
      ensures forall i :: 0 <= i < NODES ==> Views()[i] == Initial
    {
      var list: seq<Source> := [];
      ghost var all: set<object> := {};
      while |list| < NODES
        invariant |list| <= NODES && fresh(all)
        invariant forall i :: 0 <= i < |list| ==>
          && list[i] in all && list[i].ring in all && list[i].ring.entries in all
          && list[i].Valid() && list[i].View() == Initial
        invariant forall i, j :: 0 <= i < j < |list| ==>
          && list[i] != list[j] && list[i].ring != list[j].ring
          && list[i].ring.entries != list[j].ring.entries
      {
        var source := new Source();
        list := list + [source];
        all := all + {source, source.ring, source.ring.entries};
      }
      sources := list;
      footprint := all;
    }

    method Push(frame: Frame) returns (ok: bool)
      requires Valid()
      modifies Parts()
      ensures Valid()
      ensures !frame.IsRemoteAudio() ==> !ok && Views() == old(Views())
      ensures frame.IsRemoteAudio() ==>
        && Views() == old(Views())[frame.sourceId - 1 := Views()[frame.sourceId - 1]]
        && AudioPlayout.Push(old(Views())[frame.sourceId - 1], frame.packet) == (Views()[frame.sourceId - 1], ok)
    {
      if frame.kind != REMOTE_AUDIO || frame.sourceId < 1 || frame.sourceId > NODES {
        return false;
      }
      ghost var was := Views();
      ok := PushAt(frame.sourceId - 1, frame.packet);
      assert forall i :: 0 <= i < NODES && i != frame.sourceId - 1 ==> Views()[i] == was[i];
      assert Views() == was[frame.sourceId - 1 := Views()[frame.sourceId - 1]];
    }

    /** Pushes to one source and leaves the others alone. */
    method PushAt(k: nat, p: Packet) returns (ok: bool)
      requires Valid() && k < NODES
      modifies Parts()
      ensures Valid()
      ensures forall i :: 0 <= i < NODES && i != k ==> sources[i].View() == old(sources[i].View())
      ensures AudioPlayout.Push(old(sources[k].View()), p) == (sources[k].View(), ok)
    {
      var source := sources[k];
      ok := source.Push(p);
      assert forall i :: 0 <= i < NODES && i != k ==>
        sources[i].Valid() && sources[i].View() == old(sources[i].View());
      assert source.Valid();
    }

    method Next(sourceId: nat) returns (codecFrame: seq<Byte>, usePlc: bool)
      requires Valid() && 1 <= sourceId <= NODES
      modifies Parts()
      ensures Valid()
      ensures Views() == old(Views())[sourceId - 1 := Views()[sourceId - 1]]
      ensures AudioPlayout.Next(old(Views())[sourceId - 1]) ==
        (Views()[sourceId - 1], if usePlc then Conceal else Deliver(codecFrame))
    {
      ghost var was := Views();
      codecFrame, usePlc := CallAt(sourceId - 1);
      assert forall i :: 0 <= i < NODES && i != sourceId - 1 ==> Views()[i] == was[i];
      assert Views() == was[sourceId - 1 := Views()[sourceId - 1]];
    }

    /** Calls one source and leaves the others alone. */
    method CallAt(k: nat) returns (codecFrame: seq<Byte>, usePlc: bool)
      requires Valid() && k < NODES
      modifies Parts()
      ensures Valid()
      ensures forall i :: 0 <= i < NODES && i != k ==> sources[i].View() == old(sources[i].View())
      ensures AudioPlayout.Next(old(sources[k].View())) ==
        (sources[k].View(), if usePlc then Conceal else Deliver(codecFrame))
    {
      var source := sources[k];
      codecFrame, usePlc := source.Next();
      assert forall i :: 0 <= i < NODES && i != k ==>
        sources[i].Valid() && sources[i].View() == old(sources[i].View());
      assert source.Valid();
    }
  }

  /** One call on one source: its next state, and what its decoder is handed. */
  function CallSource(s: Playout): (r: (Playout, Output))
    ensures WellFormed(s) ==> WellFormed(r.0)
  {
    if WellFormed(s) then AudioPlayout.Next(s) else (s, Conceal)
  }

  /** The abstract render step: sources 1 to n except the local one are each called, in that order; the
      outputs are what the decoders are handed, decoder 0 first. */
  function CallAll<S, T>(call: S -> (S, T), sources: seq<S>, localId: nat, n: nat): (r: (seq<S>, seq<T>))
    requires n <= |sources|
    ensures |r.0| == |sources|
    ensures |r.1| == if 1 <= localId <= n then n - 1 else n
  {
    if n == 0 then (sources, [])
    else
      var (called, outputs) := CallAll(call, sources, localId, n - 1);
      if n == localId then (called, outputs)
      else (called[n - 1 := call(called[n - 1]).0], outputs + [call(called[n - 1]).1])
  }

  lemma LocalIsPassedOver<S, T>(call: S -> (S, T), sources: seq<S>, localId: nat)
    requires 1 <= localId <= |sources|
    ensures CallAll(call, sources, localId, localId) == CallAll(call, sources, localId, localId - 1)
  {
  }

  /** The decoder of source i + 1 when source localId is passed over. */
  function DecoderOf(i: nat, localId: nat): int { if i + 1 < localId then i else i - 1 }

  lemma {:induction false} CallAllAt<S, T>(call: S -> (S, T), sources: seq<S>, localId: nat, n: nat, i: nat)
    requires n <= |sources| && i < |sources| && 1 <= localId
    ensures var (called, outputs) := CallAll(call, sources, localId, n);
      && (i + 1 == localId || i >= n ==> called[i] == sources[i])
      && (i + 1 != localId && i < n ==>
            && 0 <= DecoderOf(i, localId) < |outputs|
            && (called[i], outputs[DecoderOf(i, localId)]) == call(sources[i]))
  {
    if n > 0 {
      CallAllAt(call, sources, localId, n - 1, i);
      CallAllAt(call, sources, localId, n - 1, n - 1);
    }
  }

  function RenderCalls(views: seq<Playout>, localId: nat): (seq<Playout>, seq<Output>) {
    CallAll(CallSource, views, localId, |views|)
  }

  /** A render step calls every remote source once, and its decoder is handed what that call prescribes; the
      local source is left alone. */
  lemma DecoderIsHanded(views: seq<Playout>, localId: nat, i: nat)
    requires WellFormedViews(views) && 1 <= localId <= NODES && i < NODES
    ensures var (called, outputs) := RenderCalls(views, localId);
      && |called| == NODES && |outputs| == NODES - 1
      && (i + 1 == localId ==> called[i] == views[i])
      && (i + 1 != localId ==>
            && 0 <= DecoderOf(i, localId) < NODES - 1
            && (called[i], outputs[DecoderOf(i, localId)]) == AudioPlayout.Next(views[i]))
  {
    CallAllAt(CallSource, views, localId, NODES, i);
  }

  // ----- decoding -----

  type Block = b: seq<AudioMixer.Sample> | |b| == AudioMixer.SAMPLES witness seq(AudioMixer.SAMPLES, _ => 0)

  /** What each decoder makes, during one render, of what playout hands it: a block, if it succeeds. */
  type Decoder = (nat, Output) -> Option<Block>

  function BlockOf(decoded: Option<Block>): Block {
    match decoded
    case Some(block) => block
    case None => seq(AudioMixer.SAMPLES, _ => 0)
  }

  /** What the decoders hand the mixer: their blocks where they succeed, else silence. */
  function Heard(decode: Decoder, outputs: seq<Output>): (blocks: seq<Block>)
    ensures |blocks| == |outputs|
  {
    seq<Block>(|outputs|, d requires 0 <= d < |outputs| => BlockOf(decode(d, outputs[d])))
  }

  function Succeeded(decode: Decoder, outputs: seq<Output>): (mask: seq<bool>)
    ensures |mask| == |outputs|
  {
    seq(|outputs|, d requires 0 <= d < |outputs| => decode(d, outputs[d]).Some?)
  }

  function Failures(mask: seq<bool>): nat {
    if |mask| == 0 then 0 else Failures(mask[..|mask| - 1]) + (if mask[|mask| - 1] then 0 else 1)
  }

  lemma OneMoreDecoder(decode: Decoder, outputs: seq<Output>, output: Output)
    ensures var d := |outputs|;
      && Heard(decode, outputs + [output]) == Heard(decode, outputs) + [BlockOf(decode(d, output))]
      && Succeeded(decode, outputs + [output]) == Succeeded(decode, outputs) + [decode(d, output).Some?]
  {
  }

  lemma OneMoreFailure(mask: seq<bool>, ok: bool)
    ensures Failures(mask + [ok]) == Failures(mask) + if ok then 0 else 1
  {
    assert (mask + [ok])[..|mask|] == mask;
  }

  class Pipeline {
    const localSourceId: nat
    const playout: PlayoutBank
    const mixer: AudioMixer.Mixer
    var renderBlocks: nat
    var decodeFailures: nat

    ghost predicate Valid()
      reads this, playout.Parts(), mixer, mixer.sourceGain
    {
      && 1 <= localSourceId <= NODES && playout.Valid() && mixer.Valid()
      && this !in playout.Parts() && mixer !in playout.Parts() && mixer.sourceGain !in playout.Parts()
    }

    constructor (localId: nat)
      requires 1 <= localId <= NODES
      ensures Valid() && localSourceId == localId
      ensures fresh(playout.Parts()) && fresh(mixer) && fresh(mixer.sourceGain)
      ensures forall i :: 0 <= i < NODES ==> playout.Views()[i] == Initial
    {
      localSourceId := localId;
      mixer := new AudioMixer.Mixer();
      playout := new PlayoutBank();
      renderBlocks, decodeFailures := 0, 0;
    }

    method IngestRemote(frame: Frame) returns (ok: bool)
      requires Valid()
      modifies playout.Parts()
      ensures Valid()
      ensures !frame.IsRemoteAudio() || frame.sourceId == localSourceId ==>
        !ok && playout.Views() == old(playout.Views())
      ensures frame.IsRemoteAudio() && frame.sourceId != localSourceId ==>
        var views, i := playout.Views(), frame.sourceId - 1;
        && views == old(playout.Views())[i := views[i]]
        && AudioPlayout.Push(old(playout.Views())[i], frame.packet) == (views[i], ok)
    {
      if frame.sourceId == localSourceId {
        return false;
      }
      ok := playout.Push(frame);
    }

    method Fetch(sourceId: nat, outputs: seq<Output>, ghost before: seq<Playout>) returns (more: seq<Output>)
      requires playout.Valid() && 1 <= sourceId <= NODES && sourceId != localSourceId
      requires WellFormedViews(before)
      requires (playout.Views(), outputs) == CallAll(CallSource, before, localSourceId, sourceId - 1)
      modifies playout.Parts()
      ensures playout.Valid() && |more| == |outputs| + 1 && more[..|outputs|] == outputs
      ensures (playout.Views(), more) == CallAll(CallSource, before, localSourceId, sourceId)
    {
      var codecFrame, usePlc := playout.Next(sourceId);
      more := outputs + [if usePlc then Conceal else Deliver(codecFrame)];
    }

    /** Decoding is a parameter; a decoder that fails is heard as silence and masked out. */
    method Decode(decode: Decoder, output: Output, blocks: seq<Block>, mask: seq<bool>, ghost outputs: seq<Output>)
      returns (moreBlocks: seq<Block>, moreMask: seq<bool>)
      requires blocks == Heard(decode, outputs) && mask == Succeeded(decode, outputs)
      modifies this`decodeFailures
      ensures moreBlocks == Heard(decode, outputs + [output]) && moreMask == Succeeded(decode, outputs + [output])
      ensures decodeFailures - Failures(moreMask) == old(decodeFailures) - Failures(mask)
    {
      OneMoreDecoder(decode, outputs, output);
      var decoded := decode(|blocks|, output);
      OneMoreFailure(mask, decoded.Some?);
      match decoded
      case Some(block) =>
        moreBlocks, moreMask := blocks + [block], mask + [true];
      case None =>
        moreBlocks, moreMask := blocks + [seq(AudioMixer.SAMPLES, _ => 0)], mask + [false];
        decodeFailures := decodeFailures + 1;
    }

    /** One turn of the loop: the next remote source is asked for its codec frame, and its decoder is handed it. */
    method RenderSource(sourceId: nat, decode: Decoder, outputs: seq<Output>, blocks: seq<Block>, mask: seq<bool>,
                        ghost before: seq<Playout>)
      returns (more: seq<Output>, moreBlocks: seq<Block>, moreMask: seq<bool>)
      requires playout.Valid() && this !in playout.Parts() && 1 <= sourceId <= NODES && sourceId != localSourceId
      requires WellFormedViews(before)
      requires (playout.Views(), outputs) == CallAll(CallSource, before, localSourceId, sourceId - 1)
      requires blocks == Heard(decode, outputs) && mask == Succeeded(decode, outputs)
      modifies this`decodeFailures, playout.Parts()
      ensures playout.Valid() && (playout.Views(), more) == CallAll(CallSource, before, localSourceId, sourceId)
      ensures moreBlocks == Heard(decode, more) && moreMask == Succeeded(decode, more)
      ensures decodeFailures - Failures(moreMask) == old(decodeFailures) - Failures(mask)
    {
      more := Fetch(sourceId, outputs, before);
      ghost var views := playout.Views();
      moreBlocks, moreMask := Decode(decode, more[|outputs|], blocks, mask, outputs);
      assert outputs + [more[|outputs|]] == more;
      assert playout.Valid() && playout.Views() == views;
    }

    /** Every source but the local one, in order: decoder d is handed what playout prescribes for the d-th. */
    method RenderSources(decode: Decoder) returns (outputs: seq<Output>, blocks: seq<Block>, mask: seq<bool>)
      requires playout.Valid() && this !in playout.Parts() && 1 <= localSourceId <= NODES
      modifies this`decodeFailures, playout.Parts()
      ensures playout.Valid() && (playout.Views(), outputs) == RenderCalls(old(playout.Views()), localSourceId)
      ensures blocks == Heard(decode, outputs) && mask == Succeeded(decode, outputs)
      ensures decodeFailures == old(decodeFailures) + Failures(mask)
    {
      ghost var before := playout.Views();
      outputs, blocks, mask := [], [], [];
      var sourceId := 1;
      while sourceId <= NODES
        invariant 1 <= sourceId <= NODES + 1 && playout.Valid()
        invariant (playout.Views(), outputs) == CallAll(CallSource, before, localSourceId, sourceId - 1)
        invariant blocks == Heard(decode, outputs) && mask == Succeeded(decode, outputs)
        invariant decodeFailures == old(decodeFailures) + Failures(mask)
      {
        if sourceId == localSourceId {
          LocalIsPassedOver(CallSource, before, localSourceId);
        } else {
          outputs, blocks, mask := RenderSource(sourceId, decode, outputs, blocks, mask, before);
        }
        sourceId := sourceId + 1;
      }
    }

    method Render(decode: Decoder, headphone: array<AudioMixer.Sample>) returns (outputs: seq<Output>)
      requires Valid() && headphone.Length == AudioMixer.SAMPLES && headphone !in playout.Parts()
      modifies this`decodeFailures, this`renderBlocks, playout.Parts(), mixer, headphone
      ensures Valid() && renderBlocks == old(renderBlocks) + 1
      ensures (playout.Views(), outputs) == RenderCalls(old(playout.Views()), localSourceId)
      ensures |outputs| == AudioMixer.SOURCES
      ensures (headphone[..], mixer.limiterGain) ==
        AudioMixer.Played(Heard(decode, outputs), Succeeded(decode, outputs), old(mixer.Gains()), old(mixer.limiterGain))
      ensures decodeFailures == old(decodeFailures) + Failures(Succeeded(decode, outputs))
    {
      var blocks, mask;
      outputs, blocks, mask := RenderSources(decode);
      ghost var views := playout.Views();
      mixer.Play(blocks, mask, headphone);
      renderBlocks := renderBlocks + 1;
      assert playout.Valid() && playout.Views() == views;
    }
  }
}
