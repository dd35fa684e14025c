/** Where every voice frame goes: what a node has generated is what it has transmitted, what it has dropped from a full
    queue, and what still waits. */
module VoiceAccounting {
  import opened Words
  import opened VoiceSimulation
  import opened VoiceScenario
  import M = SharedMedium

  /** Transmissions of a node's voice, or, for no node, of other traffic. */
  function Sent(txs: seq<M.Tx>, who: Option<nat>): nat {
    if |txs| == 0 then 0 else Sent(txs[..|txs| - 1], who) + if txs[|txs| - 1].voice == who then 1 else 0
  }

  // ----- what the next event will do -----

  predicate IsNext(s: Sim, action: Action) { |s.events| > 0 && s.events[0].action == action }

  predicate Generates(s: Sim, node: nat) { IsNext(s, Generate(node)) && node < |s.nodes| && s.nodes[node].enabled }

  predicate Drops(s: Sim, node: nat, maxQueue: int) { Generates(s, node) && |s.nodes[node].queue| >= maxQueue }

  predicate Sends(s: Sim, node: nat) {
    IsNext(s, Slot(node)) && node < |s.nodes| && s.nodes[node].enabled && |s.nodes[node].queue| > 0
  }

  predicate Beacons(s: Sim) { |s.events| > 0 && s.events[0].action.Beacon? && s.events[0].action.airtime > 0 }

  function One(b: bool): nat { if b then 1 else 0 }

  lemma {:induction false} SentBefore(txs: seq<M.Tx>, us: seq<M.Tx>, who: Option<nat>)
    requires |us| == |txs| && forall i :: 0 <= i < |txs| ==> us[i].voice == txs[i].voice
    ensures Sent(us, who) == Sent(txs, who)
  {
    if |txs| > 0 {
      SentBefore(txs[..|txs| - 1], us[..|txs| - 1], who);
    }
  }

  lemma SentOneMore(m: M.Medium, now: int, airtime: int, voice: Option<nat>, who: Option<nat>)
    ensures Sent(M.Transmit(m, now, airtime, voice).txs, who) == Sent(m.txs, who) + One(voice == who)
  {
    var after := M.Transmit(m, now, airtime, voice).txs;
    assert after[..|m.txs|] == M.Spoil(m, now);
    SentBefore(m.txs, M.Spoil(m, now), who);
  }

  lemma CompletingSendsNothing(m: M.Medium, i: nat, who: Option<nat>)
    requires i < |m.txs|
    ensures Sent(M.Complete(m, i).txs, who) == Sent(m.txs, who)
  {
    SentBefore(m.txs, M.Complete(m, i).txs, who);
  }

  lemma AgainSame(c: Config, s: Sim, action: Action)
    ensures Again(c, s, action).medium == s.medium
  {
  }

  lemma SlotSends(c: Config, s: Sim, n: nat, who: Option<nat>)
    requires n < |s.nodes|
    ensures Sent(Perform(c, s, Slot(n)).medium.txs, who) ==
      Sent(s.medium.txs, who) + One(s.nodes[n].enabled && |s.nodes[n].queue| > 0 && who == Some(n))
  {
    var v := s.nodes[n];
    if v.enabled && |v.queue| > 0 {
      var u := s.(nodes := s.nodes[n := v.(queue := v.queue[1..])]);
      SentOneMore(s.medium, s.now, c.airtime, Some(n), who);
      AgainSame(c, Transmit(u, c.airtime, Some(n)), Slot(n));
    }
  }

  lemma GenerateSends(c: Config, s: Sim, n: nat)
    ensures Perform(c, s, Generate(n)).medium == s.medium
  {
  }

  lemma BeaconSends(c: Config, s: Sim, airtime: int, who: Option<nat>)
    ensures Sent(Perform(c, s, Beacon(airtime)).medium.txs, who) ==
      Sent(s.medium.txs, who) + One(airtime > 0 && who == None)
  {
    if airtime > 0 {
      SentOneMore(s.medium, s.now, airtime, None, who);
    }
  }

  /** Transmissions start exactly at a slot with a frame to send, and for other traffic. */
  lemma StepSends(c: Config, s: Sim, who: Option<nat>)
    requires |s.events| > 0
    ensures Sent(Step(c, s).medium.txs, who) ==
      Sent(s.medium.txs, who) + One(if who.Some? then Sends(s, who.value) else Beacons(s))
  {
    match s.events[0].action {
      case Slot(n) => if n < |s.nodes| { SlotSends(c, Popped(s), n, who); }
      case Beacon(airtime) => BeaconSends(c, Popped(s), airtime, who);
      case Finish(tx) => if tx < |s.medium.txs| { CompletingSendsNothing(s.medium, tx, who); }
      case Generate(n) => GenerateSends(c, Popped(s), n);
      case Enable(n, on) =>
    }
  }

  /** Frames enter a queue when they are generated and leave it to be sent or dropped; faults turn nodes off and on. */
  lemma StepQueues(c: Config, s: Sim, node: nat)
    requires |s.events| > 0 && node < |s.nodes|
    ensures var t := Step(c, s); var v, u := s.nodes[node], t.nodes[node];
      && |t.nodes| == |s.nodes|
      && u.sequence == v.sequence + One(Generates(s, node))
      && |u.queue| == |v.queue| + One(Generates(s, node)) - One(Drops(s, node, c.maxQueue)) - One(Sends(s, node))
      && u.enabled == (if IsNext(s, Enable(node, true)) then true
                       else if IsNext(s, Enable(node, false)) then false else v.enabled)
  {
  }

  // ----- over runs -----

  /** How many of the first n events are of a kind. */
  function Count(c: Config, s: Sim, n: nat, kind: Sim -> bool): nat {
    if n == 0 then 0 else Count(c, s, n - 1, kind) + One(kind(Steps(c, s, n - 1)))
  }

  function Generated(c: Config, s: Sim, n: nat, node: nat): nat { Count(c, s, n, (t: Sim) => Generates(t, node)) }
  function Dropped(c: Config, s: Sim, n: nat, node: nat): nat { Count(c, s, n, (t: Sim) => Drops(t, node, c.maxQueue)) }
  function Used(c: Config, s: Sim, n: nat, node: nat): nat { Count(c, s, n, (t: Sim) => Sends(t, node)) }

  predicate Balanced(c: Config, s: Sim, n: nat, node: nat) {
    var t := Steps(c, s, n);
    && node < |t.nodes|
    && t.nodes[node].sequence == Generated(c, s, n, node)
    && Sent(t.medium.txs, Some(node)) == Used(c, s, n, node)
    && Generated(c, s, n, node) ==
         Sent(t.medium.txs, Some(node)) + Dropped(c, s, n, node) + |t.nodes[node].queue|
  }

  lemma {:induction false} StaysBalanced(c: Config, s: Sim, n: nat, node: nat)
    requires node < |s.nodes| && s.nodes[node] == Voice(true, [], 0, 0) && s.medium == M.Silent
    ensures Balanced(c, s, n, node)
  {
    if n > 0 {
      StaysBalanced(c, s, n - 1, node);
      var t := Steps(c, s, n - 1);
      if |t.events| > 0 {
        StepQueues(c, t, node);
        StepSends(c, t, Some(node));
      }
    }
  }

  lemma {:induction false} WiredStarts(c: Config, count: nat)
    ensures var s := Wired(c, count);
      s.medium == M.Silent && s.nodes == seq(count, _ => Voice(true, [], 0, 0)) && !s.raised
  {
    if count > 0 {
      WiredStarts(c, count - 1);
    }
  }

  lemma {:induction false} ScheduledStarts(s: Sim, extras: seq<Extra>)
    ensures var t := Scheduled(s, extras);
      t.medium == s.medium && t.nodes == s.nodes && t.now == s.now && t.raised == s.raised
  {
    if |extras| > 0 {
      ScheduledStarts(s, extras[..|extras| - 1]);
    }
  }

  lemma ScenarioStarts(c: Config, count: nat, extras: seq<Extra>)
    ensures var s := Scenario(c, count, extras);
      && s.medium == M.Silent && s.now == 0 && !s.raised
      && s.nodes == seq(count, _ => Voice(true, [], 0, 0))
  {
    WiredStarts(c, count);
    ScheduledStarts(Wired(c, count), extras);
  }

  /** At any point of any run of any scenario, whatever traffic and faults there are: the frames a node has generated
      are the voice transmissions it has started, the frames dropped at a full queue, and the frames queued; and it has
      started one for every slot at which it was on and had a frame. */
  lemma FramesAreConserved(c: Config, count: nat, extras: seq<Extra>, n: nat, node: nat)
    requires node < count
    ensures Balanced(c, Scenario(c, count, extras), n, node)
  {
    ScenarioStarts(c, count, extras);
    StaysBalanced(c, Scenario(c, count, extras), n, node);
  }

  // ----- which frames -----

  /** When a node has generated its frames. */
  function Times(c: Config, s: Sim, n: nat, node: nat): seq<int> {
    if n == 0 then []
    else
      var t := Steps(c, s, n - 1);
      Times(c, s, n - 1, node) + if Generates(t, node) then [t.events[0].time] else []
  }

  predicate IsSuffix(queue: seq<int>, times: seq<int>) {
    |queue| <= |times| && queue == times[|times| - |queue|..]
  }

  lemma SuffixGrows(queue: seq<int>, times: seq<int>, x: int)
    requires IsSuffix(queue, times)
    ensures IsSuffix(queue + [x], times + [x]) && (|queue| > 0 ==> IsSuffix(queue[1..] + [x], times + [x]))
  {
  }

  lemma SuffixShrinks(queue: seq<int>, times: seq<int>)
    requires IsSuffix(queue, times) && |queue| > 0
    ensures IsSuffix(queue[1..], times)
  {
  }

  lemma StepKeepsLatest(c: Config, s: Sim, node: nat, times: seq<int>)
    requires |s.events| > 0 && node < |s.nodes| && IsSuffix(s.nodes[node].queue, times)
    ensures var more := if Generates(s, node) then [s.events[0].time] else [];
      IsSuffix(Step(c, s).nodes[node].queue, times + more)
  {
    var queue := s.nodes[node].queue;
    if Generates(s, node) {
      SuffixGrows(queue, times, s.events[0].time);
    } else {
      assert times + [] == times;
      if Sends(s, node) {
        SuffixShrinks(queue, times);
      }
    }
  }

  /** A queue holds the frames its node generated last, oldest first: it is the oldest that is sent or dropped. */
  lemma {:induction false} QueueIsLatest(c: Config, s: Sim, n: nat, node: nat)
    requires node < |s.nodes| && s.nodes[node].queue == []
    ensures node < |Steps(c, s, n).nodes| && IsSuffix(Steps(c, s, n).nodes[node].queue, Times(c, s, n, node))
  {
    if n > 0 {
      QueueIsLatest(c, s, n - 1, node);
      var t := Steps(c, s, n - 1);
      if |t.events| > 0 {
        StepQueues(c, t, node);
        StepKeepsLatest(c, t, node, Times(c, s, n - 1, node));
      }
    }
  }

  /** Other traffic is transmitted once for every event that asks for it. */
  lemma {:induction false} OtherTrafficIsSent(c: Config, s: Sim, n: nat)
    requires s.medium == M.Silent
    ensures Sent(Steps(c, s, n).medium.txs, None) == Count(c, s, n, Beacons)
  {
    if n > 0 {
      OtherTrafficIsSent(c, s, n - 1);
      if |Steps(c, s, n - 1).events| > 0 {
        StepSends(c, Steps(c, s, n - 1), None);
      }
    }
  }
}
