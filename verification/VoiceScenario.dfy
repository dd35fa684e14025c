/** Whole runs of a scenario: nodes wired one slot apart, any other traffic and faults, and the two
    promises about the channel. */
module VoiceScenario {
  import opened Words
  import opened VoiceSimulation
  import opened VoiceChannel
  import opened VoiceSlots
  import opened Multiples
  import M = SharedMedium

  const Empty := Sim(0, [], 0, M.Silent, [], false)

  /** Nodes are created in order, each offset one slot from the one before, and start generating and
      sending at their offset. */
  function Wired(c: Config, count: nat): (s: Sim)
    ensures |s.nodes| == count && s.now == 0
  {
    if count == 0 then Empty
    else
      var s := Wired(c, count - 1);
      var t := s.(nodes := s.nodes + [Voice(true, [], 0, 0)]);
      var offset := (count - 1) * c.spacing;
      Schedule(Schedule(t, offset, Generate(count - 1)), offset, Slot(count - 1))
  }

  datatype Extra = Extra(time: nat, action: Action)

  /** Other traffic and faults, scheduled before the run. */
  predicate Foreign(extras: seq<Extra>) {
    forall i :: 0 <= i < |extras| ==> extras[i].action.Beacon? || extras[i].action.Enable?
  }

  function Scheduled(s: Sim, extras: seq<Extra>): Sim {
    if |extras| == 0 then s
    else
      var last := extras[|extras| - 1];
      Schedule(Scheduled(s, extras[..|extras| - 1]), last.time, last.action)
  }

  function Scenario(c: Config, count: nat, extras: seq<Extra>): Sim { Scheduled(Wired(c, count), extras) }

  function Steps(c: Config, s: Sim, n: nat): Sim {
    if n == 0 then s
    else
      var t := Steps(c, s, n - 1);
      if |t.events| == 0 then t else Step(c, t)
  }

  // ----- collisions, for every configuration -----

  lemma {:induction false} WiredIsConsistent(c: Config, count: nat)
    ensures Consistent(Wired(c, count))
  {
    if count > 0 {
      WiredIsConsistent(c, count - 1);
      var s := Wired(c, count - 1);
      var t := s.(nodes := s.nodes + [Voice(true, [], 0, 0)]);
      var offset := (count - 1) * c.spacing;
      NodesDoNotMatter(s, t.nodes);
      AddPlain(t, offset, Generate(count - 1));
      AddPlain(Schedule(t, offset, Generate(count - 1)), offset, Slot(count - 1));
    }
  }

  lemma {:induction false} ScheduledIsConsistent(s: Sim, extras: seq<Extra>)
    requires Consistent(s) && Foreign(extras)
    ensures Consistent(Scheduled(s, extras))
  {
    if |extras| > 0 {
      var front, last := extras[..|extras| - 1], extras[|extras| - 1];
      ScheduledIsConsistent(s, front);
      AddPlain(Scheduled(s, front), last.time, last.action);
    }
  }

  lemma {:induction false} StepsAreConsistent(c: Config, s: Sim, n: nat)
    requires Consistent(s) && c.airtime > 0
    ensures Consistent(Steps(c, s, n))
  {
    if n > 0 {
      StepsAreConsistent(c, s, n - 1);
      if |Steps(c, s, n - 1).events| > 0 {
        StepIsConsistent(c, Steps(c, s, n - 1));
      }
    }
  }

  /** At any point of any run, however the slots lie: a transmission that has completed was reported as
      collided exactly when it meets another one, of any kind, sent before or after it. */
  lemma CollisionsAreExact(c: Config, count: nat, extras: seq<Extra>, n: nat, i: nat)
    requires c.airtime > 0 && Foreign(extras)
    requires i < |Steps(c, Scenario(c, count, extras), n).medium.txs|
    ensures var txs := Steps(c, Scenario(c, count, extras), n).medium.txs;
      && txs[i].start < txs[i].end
      && (txs[i].outcome.Some? ==> (txs[i].outcome.value <==> M.MeetsAnother(txs, i)))
  {
    WiredIsConsistent(c, count);
    ScheduledIsConsistent(Wired(c, count), extras);
    StepsAreConsistent(c, Scenario(c, count, extras), n);
  }

  // ----- voice never overlaps voice -----

  lemma OneMoreNode(c: Config, s: Sim)
    requires Kept(c, s) && s.now == 0 && s.medium == M.Silent && ValidConfig(c, |s.nodes| + 1)
    ensures var n := |s.nodes|;
      var t := s.(nodes := s.nodes + [Voice(true, [], 0, 0)]);
      var u := Schedule(Schedule(t, n * c.spacing, Generate(n)), n * c.spacing, Slot(n));
      OnSchedule(c, u) && u.medium == M.Silent
  {
    var n := |s.nodes|;
    var t := s.(nodes := s.nodes + [Voice(true, [], 0, 0)]);
    var offset := n * c.spacing;
    ScheduleKeepsQueue(t, offset, Generate(n));
    ScheduleKeepsQueue(Schedule(t, offset, Generate(n)), offset, Slot(n));
    assert offset == SlotTime(c, n, 0);
  }

  lemma FewerNodes(c: Config, count: nat)
    requires count > 0 && ValidConfig(c, count)
    ensures ValidConfig(c, count - 1)
  {
    assert (count - 1) * c.spacing == (count - 2) * c.spacing + c.spacing;
  }

  lemma {:induction false} WiredIsKept(c: Config, count: nat)
    requires ValidConfig(c, count)
    ensures Kept(c, Wired(c, count)) && Wired(c, count).medium == M.Silent
  {
    WiredIsConsistent(c, count);
    if count > 0 {
      FewerNodes(c, count);
      WiredIsKept(c, count - 1);
      OneMoreNode(c, Wired(c, count - 1));
    }
  }

  lemma {:induction false} ScheduledIsKept(c: Config, s: Sim, extras: seq<Extra>)
    requires Kept(c, s) && s.now == 0 && Foreign(extras)
    ensures Kept(c, Scheduled(s, extras)) && Scheduled(s, extras).now == 0
  {
    ScheduledIsConsistent(s, extras);
    if |extras| > 0 {
      var front, last := extras[..|extras| - 1], extras[|extras| - 1];
      ScheduledIsKept(c, s, front);
      AddOffSchedule(c, Scheduled(s, front), last.time, last.action);
    }
  }

  lemma {:induction false} StepsAreKept(c: Config, s: Sim, n: nat)
    requires Kept(c, s)
    ensures Kept(c, Steps(c, s, n))
  {
    if n > 0 {
      StepsAreKept(c, s, n - 1);
      if |Steps(c, s, n - 1).events| > 0 {
        StepKeeps(c, Steps(c, s, n - 1));
      }
    }
  }

  lemma SlotsAreApart(c: Config, count: nat, a: nat, b: nat, j: nat, k: nat)
    requires ValidConfig(c, count) && a < count && b < count && a != b && j >= k
    ensures var x, y := SlotTime(c, a, j), SlotTime(c, b, k);
      x - y >= c.airtime || y - x >= c.airtime
  {
    if j > k {
      Spread(j, k, c.interval);
      Rises(b, count - 1, c.spacing);
      assert a * c.spacing >= 0;
    } else if a > b {
      Spread(a, b, c.spacing);
    } else {
      Spread(b, a, c.spacing);
    }
  }

  lemma OneNodeFits(c: Config, count: nat)
    requires ValidConfig(c, count) && count > 0
    ensures c.airtime <= c.interval
  {
    assert (count - 1) * c.spacing >= 0;
  }

  lemma GridApart(c: Config, count: nat, a: nat, b: nat, x: int, y: int)
    requires ValidConfig(c, count) && a < count && b < count && a != b && OnGrid(c, a, x) && OnGrid(c, b, y)
    ensures x - y >= c.airtime || y - x >= c.airtime
  {
    var i: nat :| x == SlotTime(c, a, i);
    var j: nat :| y == SlotTime(c, b, j);
    if i >= j {
      SlotsAreApart(c, count, a, b, i, j);
    } else {
      SlotsAreApart(c, count, b, a, j, i);
    }
  }

  lemma VoiceApart(c: Config, s: Sim, k: nat, l: nat)
    requires Kept(c, s) && k < l < |s.medium.txs|
    requires s.medium.txs[k].voice.Some? && s.medium.txs[l].voice.Some?
    ensures !M.Meets(s.medium.txs[k], s.medium.txs[l])
  {
    var x, y := s.medium.txs[k], s.medium.txs[l];
    if x.voice == y.voice {
      OneNodeFits(c, |s.nodes|);
    } else {
      GridApart(c, |s.nodes|, x.voice.value, y.voice.value, x.start, y.start);
    }
  }

  /** With no negative slot guard and the schedule span within the interval, no two voice frames ever
      overlap, for any number of nodes and however long the run. */
  lemma VoiceNeverOverlaps(c: Config, count: nat, extras: seq<Extra>, n: nat, k: nat, l: nat)
    requires ValidConfig(c, count) && Foreign(extras)
    requires k < l < |Steps(c, Scenario(c, count, extras), n).medium.txs|
    ensures var txs := Steps(c, Scenario(c, count, extras), n).medium.txs;
      txs[k].voice.Some? && txs[l].voice.Some? ==> !M.Meets(txs[k], txs[l])
  {
    WiredIsKept(c, count);
    ScheduledIsKept(c, Wired(c, count), extras);
    StepsAreKept(c, Scenario(c, count, extras), n);
    var s := Steps(c, Scenario(c, count, extras), n);
    if s.medium.txs[k].voice.Some? && s.medium.txs[l].voice.Some? {
      VoiceApart(c, s, k, l);
    }
  }

  /** So a voice frame collides only with other traffic. */
  lemma VoiceCollidesOnlyWithOthers(c: Config, count: nat, extras: seq<Extra>, n: nat, i: nat)
    requires ValidConfig(c, count) && Foreign(extras)
    requires i < |Steps(c, Scenario(c, count, extras), n).medium.txs|
    ensures var txs := Steps(c, Scenario(c, count, extras), n).medium.txs;
      txs[i].voice.Some? && txs[i].outcome == Some(true) ==>
        exists j :: 0 <= j < |txs| && txs[j].voice == None && M.Meets(txs[i], txs[j])
  {
    var txs := Steps(c, Scenario(c, count, extras), n).medium.txs;
    CollisionsAreExact(c, count, extras, n, i);
    if txs[i].voice.Some? && txs[i].outcome == Some(true) {
      var j :| 0 <= j < |txs| && j != i && M.Meets(txs[i], txs[j]);
      if i < j {
        VoiceNeverOverlaps(c, count, extras, n, i, j);
      } else {
        VoiceNeverOverlaps(c, count, extras, n, j, i);
      }
    }
  }
}
