/** What a benchmark run captures: its blocks come every 10000 microseconds, so no frame it makes carries a
    discontinuity, and the four newest frames stay queued because nothing takes them away. */
module BenchmarkCapture {
  import opened Words
  import opened AudioCapture
  import L = AudioLink

  const LOCAL: nat := 1
  const BLOCK_INTERVAL_US: nat := 10000

  function TimeOf(block: nat): u32 { Wrap32(block * BLOCK_INTERVAL_US) }

  /** Whether capture was interrupted before a block, judged by the times of this block and the one before. */
  predicate Interrupted(previous: Option<u32>, timestamp: u32) {
    previous.Some? && Wrap32(timestamp - previous.value) != BLOCK_INTERVAL_US
  }

  /** The block as the runtime hands it to capture. */
  function Taken(encoded: Option<HalfFrame>, previous: Option<u32>, block: nat): Block {
    Block(encoded, Interrupted(previous, TimeOf(block)), TimeOf(block))
  }

  function PreviousTime(block: nat): Option<u32> { if block == 0 then None else Some(TimeOf(block - 1)) }

  function OnTime(encoded: Option<HalfFrame>, block: nat): Block { Block(encoded, false, TimeOf(block)) }

  predicate AllOnTime(blocks: seq<Block>) {
    forall i :: 0 <= i < |blocks| ==> blocks[i] == OnTime(blocks[i].codecFrame, i)
  }

  lemma OneIntervalApart(x: int)
    ensures Wrap32(Wrap32(x + BLOCK_INTERVAL_US) - Wrap32(x)) == BLOCK_INTERVAL_US
  {
    var y := Wrap32(x);
    assert Wrap32(x + BLOCK_INTERVAL_US) == Wrap32(y + BLOCK_INTERVAL_US);
  }

  lemma NextTime(block: nat)
    ensures TimeOf(block + 1) == Wrap32(block * BLOCK_INTERVAL_US + BLOCK_INTERVAL_US)
  {
  }

  /** Consecutive blocks are one interval apart, also across the wrap of the 32-bit clock. */
  lemma NeverInterrupted(block: nat)
    ensures !Interrupted(PreviousTime(block), TimeOf(block))
  {
    if block > 0 {
      NextTime(block - 1);
      OneIntervalApart((block - 1) * BLOCK_INTERVAL_US);
    }
  }

  // ----- the frames of a run -----

  /** How many frames are queued before block i. */
  function Depth(i: nat): Byte { if i / 2 < L.QUEUE_CAPACITY then i / 2 else L.QUEUE_CAPACITY }

  function Depths(n: nat): (depths: seq<Byte>)
    ensures |depths| == n
  {
    seq(n, i requires 0 <= i => Depth(i))
  }

  function Captured(blocks: seq<Block>): (Capture, seq<L.Frame>) { After(LOCAL, 0, blocks, Depths(|blocks|)) }

  /** The frames still queued. */
  function Latest(frames: seq<L.Frame>): seq<L.Frame> {
    if |frames| <= L.QUEUE_CAPACITY then frames else frames[|frames| - L.QUEUE_CAPACITY..]
  }

  /** The capture unit's state and queue after some blocks. */
  predicate Holding(blocks: seq<Block>, c: Capture, queued: seq<L.Frame>) {
    c == Captured(blocks).0 && queued == Latest(Captured(blocks).1)
  }

  function QueuedAfter(queued: seq<L.Frame>, frame: Option<L.Frame>): seq<L.Frame> {
    if frame.None? then queued else Queued(queued, frame.value)
  }

  lemma CapturedGrows(blocks: seq<Block>, b: Block)
    ensures Captured(blocks + [b]) ==
      Joined(Captured(blocks).1, Submitted(Captured(blocks).0, b, Depth(|blocks|)))
  {
    var n := |blocks|;
    assert (blocks + [b])[..n] == blocks && Depths(n + 1)[..n] == Depths(n);
  }

  lemma LatestGrows(frames: seq<L.Frame>, f: L.Frame)
    ensures Latest(frames + [f]) == Queued(Latest(frames), f)
  {
  }

  lemma NothingIsHeld()
    ensures Holding([], Fresh(LOCAL, 0), [])
  {
  }

  /** Submitting one more block leaves the state and the queue of the longer run. */
  lemma HoldingGrows(blocks: seq<Block>, b: Block, c: Capture, queued: seq<L.Frame>)
    requires Holding(blocks, c, queued)
    ensures |queued| == Depth(|blocks|)
    ensures var (d, frame) := Submitted(c, b, |queued|);
      Holding(blocks + [b], d, QueuedAfter(queued, frame))
  {
    FramesCarryPairs(LOCAL, 0, blocks, Depths(|blocks|));
    CapturedGrows(blocks, b);
    var frame := Submitted(c, b, |queued|).1;
    if frame.Some? {
      LatestGrows(Captured(blocks).1, frame.value);
    }
  }

  /** The runtime after the blocks of a run: the time of the last, and what capture holds of them. */
  predicate Follows(blocks: seq<Block>, previous: Option<u32>, c: Capture, queued: seq<L.Frame>) {
    AllOnTime(blocks) && previous == PreviousTime(|blocks|) && Holding(blocks, c, queued)
  }

  lemma FollowsOn(blocks: seq<Block>, previous: Option<u32>, c: Capture, queued: seq<L.Frame>,
                  encoded: Option<HalfFrame>)
    requires Follows(blocks, previous, c, queued)
    ensures var block := |blocks|; var taken := Taken(encoded, previous, block);
      var (d, frame) := Submitted(c, taken, |queued|);
      && |queued| == Depth(block) && taken == OnTime(encoded, block)
      && Follows(blocks + [taken], Some(TimeOf(block)), d, QueuedAfter(queued, frame))
  {
    NeverInterrupted(|blocks|);
    HoldingGrows(blocks, OnTime(encoded, |blocks|), c, queued);
  }

  /** Frame k of a run: numbered and timed by its first block, and not marked as following an interruption. */
  predicate Uninterrupted(f: L.Frame, k: nat) {
    && f.kind == L.LOCAL_AUDIO && f.sourceId == LOCAL && f.flags / 4 == 0
    && f.sequence == Wrap16(k) && f.timestamp == TimeOf(2 * k)
  }

  /** A run makes one frame for every two blocks, and no frame of it carries a discontinuity. */
  lemma NoFrameIsInterrupted(blocks: seq<Block>)
    requires AllOnTime(blocks)
    ensures var frames := Captured(blocks).1;
      |frames| == |blocks| / 2 && forall k :: 0 <= k < |frames| ==> Uninterrupted(frames[k], k)
  {
    var depths := Depths(|blocks|);
    FramesCarryPairs(LOCAL, 0, blocks, depths);
    var frames := Captured(blocks).1;
    forall k | 0 <= k < |frames| ensures Uninterrupted(frames[k], k) {
      assert Carries(LOCAL, 0, blocks, depths, frames[k], k);
      assert blocks[2 * k] == OnTime(blocks[2 * k].codecFrame, 2 * k);
      assert blocks[2 * k + 1] == OnTime(blocks[2 * k + 1].codecFrame, 2 * k + 1);
    }
  }
}
