/** The simulator's single channel: transmissions that overlap spoil each other. */
module SharedMedium {
  import opened Words

  /** Voice names the node whose voice frame this is, if it is one. The outcome is what was reported on
      completion: whether the transmission collided. */
  datatype Tx = Tx(start: int, end: int, voice: Option<nat>, collided: bool, outcome: Option<bool>)

  datatype Medium = Medium(txs: seq<Tx>, active: seq<nat>)

  const Silent := Medium([], [])

  /** Half-open intervals meet. */
  predicate Meets(a: Tx, b: Tx) { a.start < b.end && b.start < a.end }

  predicate Audible(m: Medium, i: nat, now: int) { i in m.active && i < |m.txs| && m.txs[i].end > now }

  function Spoil(m: Medium, now: int): (txs: seq<Tx>)
    ensures |txs| == |m.txs|
  {
    seq(|m.txs|, i requires 0 <= i < |m.txs| =>
      if Audible(m, i, now) then m.txs[i].(collided := true) else m.txs[i])
  }

  predicate AnyAudible(m: Medium, now: int) { exists i :: 0 <= i < |m.txs| && Audible(m, i, now) }

  function Transmit(m: Medium, now: int, airtime: int, voice: Option<nat>): Medium {
    Medium(Spoil(m, now) + [Tx(now, now + airtime, voice, AnyAudible(m, now), None)], m.active + [|m.txs|])
  }

  /** list.remove: the first occurrence. */
  function Without(active: seq<nat>, i: nat): seq<nat> {
    if |active| == 0 then [] else if active[0] == i then active[1..] else [active[0]] + Without(active[1..], i)
  }

  function Complete(m: Medium, i: nat): Medium
    requires i < |m.txs|
  {
    Medium(m.txs[i := m.txs[i].(outcome := Some(m.txs[i].collided))], Without(m.active, i))
  }

  // ----- exactness -----

  ghost predicate MeetsAnother(txs: seq<Tx>, i: nat)
    requires i < |txs|
  {
    exists j :: 0 <= j < |txs| && j != i && Meets(txs[i], txs[j])
  }

  predicate Distinct(active: seq<nat>) {
    forall j, k :: 0 <= j < k < |active| ==> active[j] != active[k]
  }

  /** At a time now by which everything that has ended has completed. */
  ghost predicate Exact(m: Medium, now: int) {
    && (forall i :: 0 <= i < |m.txs| ==>
          var t := m.txs[i];
          && t.start < t.end && t.start <= now
          && (i in m.active <==> t.outcome == None)
          && (t.outcome == None ==> now <= t.end) && (t.outcome != None ==> t.end <= now)
          && (t.outcome != None ==> t.outcome == Some(t.collided))
          && (t.collided <==> MeetsAnother(m.txs, i)))
    && (forall i :: i in m.active ==> i < |m.txs|)
    && Distinct(m.active)
  }

  /** The new transmission meets exactly the ones it hears. */
  lemma NewcomerMeets(m: Medium, now: int, airtime: int, voice: Option<nat>, i: nat)
    requires Exact(m, now) && airtime > 0 && i < |m.txs|
    ensures Meets(m.txs[i], Tx(now, now + airtime, voice, AnyAudible(m, now), None)) <==> Audible(m, i, now)
  {
  }

  lemma MeetsIgnoresFlags(txs: seq<Tx>, us: seq<Tx>, i: nat)
    requires |us| == |txs| && i < |txs|
    requires forall j :: 0 <= j < |txs| ==> us[j].start == txs[j].start && us[j].end == txs[j].end
    ensures MeetsAnother(us, i) <==> MeetsAnother(txs, i)
  {
    if MeetsAnother(us, i) {
      var j :| 0 <= j < |us| && j != i && Meets(us[i], us[j]);
      assert Meets(txs[i], txs[j]);
    }
    if MeetsAnother(txs, i) {
      var j :| 0 <= j < |txs| && j != i && Meets(txs[i], txs[j]);
      assert Meets(us[i], us[j]);
    }
  }

  lemma OneMore(txs: seq<Tx>, t: Tx, i: nat)
    requires i < |txs|
    ensures MeetsAnother(txs + [t], i) <==> MeetsAnother(txs, i) || Meets(txs[i], t)
  {
    var us := txs + [t];
    if MeetsAnother(us, i) {
      var j :| 0 <= j < |us| && j != i && Meets(us[i], us[j]);
      if j < |txs| {
        assert Meets(txs[i], txs[j]);
      }
    }
    if MeetsAnother(txs, i) {
      var j :| 0 <= j < |txs| && j != i && Meets(txs[i], txs[j]);
      assert Meets(us[i], us[j]);
    }
    if Meets(txs[i], t) {
      assert Meets(us[i], us[|txs|]);
    }
  }

  lemma Last(txs: seq<Tx>, t: Tx)
    ensures MeetsAnother(txs + [t], |txs|) <==> exists j :: 0 <= j < |txs| && Meets(txs[j], t)
  {
    var us := txs + [t];
    if MeetsAnother(us, |txs|) {
      var j :| 0 <= j < |us| && j != |txs| && Meets(us[|txs|], us[j]);
      assert Meets(txs[j], t);
    }
    if exists j :: 0 <= j < |txs| && Meets(txs[j], t) {
      var j :| 0 <= j < |txs| && Meets(txs[j], t);
      assert Meets(us[|txs|], us[j]);
    }
  }

  lemma TransmitFlags(m: Medium, now: int, airtime: int, voice: Option<nat>, i: nat)
    requires Exact(m, now) && airtime > 0 && i <= |m.txs|
    ensures var after := Transmit(m, now, airtime, voice).txs;
      after[i].collided <==> MeetsAnother(after, i)
  {
    var spoiled, t := Spoil(m, now), Tx(now, now + airtime, voice, AnyAudible(m, now), None);
    if i < |m.txs| {
      OneMore(spoiled, t, i);
      MeetsIgnoresFlags(m.txs, spoiled, i);
      NewcomerMeets(m, now, airtime, voice, i);
    } else {
      Last(spoiled, t);
      forall j | 0 <= j < |m.txs| ensures Meets(spoiled[j], t) <==> Audible(m, j, now) {
        NewcomerMeets(m, now, airtime, voice, j);
      }
    }
  }

  lemma TransmitIsExact(m: Medium, now: int, airtime: int, voice: Option<nat>)
    requires Exact(m, now) && airtime > 0
    ensures Exact(Transmit(m, now, airtime, voice), now)
  {
    var after := Transmit(m, now, airtime, voice);
    assert |m.txs| !in m.active;
    assert Distinct(after.active);
    forall i | 0 <= i < |after.txs| ensures after.txs[i].collided <==> MeetsAnother(after.txs, i) {
      TransmitFlags(m, now, airtime, voice, i);
    }
  }

  lemma Prepend(x: nat, rest: seq<nat>)
    requires Distinct(rest) && x !in rest
    ensures Distinct([x] + rest)
  {
  }

  lemma {:induction false} WithoutMembers(active: seq<nat>, i: nat)
    requires Distinct(active)
    ensures Distinct(Without(active, i))
    ensures forall k :: k in Without(active, i) <==> k in active && k != i
  {
    if |active| > 0 {
      var x, rest := active[0], active[1..];
      assert active == [x] + rest && x !in rest;
      if x != i {
        WithoutMembers(rest, i);
        Prepend(x, Without(rest, i));
      }
    }
  }

  lemma CompleteIsExact(m: Medium, now: int, i: nat)
    requires Exact(m, now) && i < |m.txs| && m.txs[i].outcome == None && m.txs[i].end == now
    ensures Exact(Complete(m, i), now)
  {
    var after := Complete(m, i);
    WithoutMembers(m.active, i);
    forall j | 0 <= j < |after.txs| ensures MeetsAnother(after.txs, j) <==> MeetsAnother(m.txs, j) {
      MeetsIgnoresFlags(m.txs, after.txs, j);
    }
  }

  /** Time may pass up to the end of the first transmission still under way. */
  lemma WaitIsExact(m: Medium, now: int, later: int)
    requires Exact(m, now) && now <= later
    requires forall i :: 0 <= i < |m.txs| && m.txs[i].outcome == None ==> later <= m.txs[i].end
    ensures Exact(m, later)
  {
  }
}
