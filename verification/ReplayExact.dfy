/** When exactly the replay window takes a packet it has taken before, over runs of any length: the window
    follows the set of accepted packets in every run, once counters are unwrapped as the window sees them. */
module ReplayExact {
  import opened Words
  import opened ReplayWindow

  const HALF: int := 0x8000_0000
  const CIRCLE: int := 0x1_0000_0000

  /** An authenticated packet's two counters, as received. */
  datatype Arrival = Arrival(boot: u32, counter: u32)

  /** The integer with these low 32 bits that is less than half the circle above a reference, or at most half
      below. */
  function Nearest(reference: int, word: u32): int {
    var ahead := Wrap32(word - reference);
    if ahead < HALF then reference + ahead else reference + ahead - CIRCLE
  }

  /** Where the window sees an arrival. */
  function Place(h: History, a: Arrival): Packet {
    if h.accepted == {} then Packet(a.boot, a.counter)
    else
      var boot := Nearest(h.boot, a.boot);
      Packet(boot, if boot == h.boot then Nearest(h.highest, a.counter) else a.counter)
  }

  function Track(arrivals: seq<Arrival>): History {
    if |arrivals| == 0 then Nothing
    else
      var h, a := Track(arrivals[..|arrivals| - 1]), arrivals[|arrivals| - 1];
      Learn(h, Place(h, a))
  }

  function After(arrivals: seq<Arrival>): Window {
    if |arrivals| == 0 then Window(false, 0, 0, 0)
    else
      var a := arrivals[|arrivals| - 1];
      Accept(After(arrivals[..|arrivals| - 1]), a.boot, a.counter).0
  }

  predicate Taken(arrivals: seq<Arrival>, k: nat)
    requires k < |arrivals|
  {
    Accept(After(arrivals[..k]), arrivals[k].boot, arrivals[k].counter).1.Accepted()
  }

  // ----- every run is a run of the simple policy -----

  lemma NearestIsNear(reference: int, word: u32)
    ensures var x := Nearest(reference, word);
      Wrap32(x) == word && -HALF <= x - reference < HALF
  {
    var ahead := Wrap32(word - reference);
    RestoreWord(reference, word);
    if ahead >= HALF {
      WrapPeriod(reference + ahead - CIRCLE);
    }
  }

  lemma RestoreWord(reference: int, word: u32)
    ensures Wrap32(reference + Wrap32(word - reference)) == word
  {
  }

  lemma PlaceIsNear(h: History, a: Arrival)
    ensures var p := Place(h, a); Near(h, p) && Wrap32(p.boot) == a.boot && Wrap32(p.counter) == a.counter
  {
    NearestIsNear(h.boot, a.boot);
    NearestIsNear(h.highest, a.counter);
    SmallWrap(a.boot);
    SmallWrap(a.counter);
  }

  /** Over any run at all the window behaves as the set of accepted packets, each where the window saw it. */
  lemma {:induction false} EveryRunIsFollowed(arrivals: seq<Arrival>)
    ensures Follows(After(arrivals), Track(arrivals))
  {
    if |arrivals| > 0 {
      var earlier, a := arrivals[..|arrivals| - 1], arrivals[|arrivals| - 1];
      EveryRunIsFollowed(earlier);
      PlaceIsNear(Track(earlier), a);
      AcceptFollows(After(earlier), Track(earlier), Place(Track(earlier), a));
    }
  }

  /** Counters that do not wrap are seen as they are, as long as they stay within half the circle. */
  lemma PlaceIsTrue(h: History, p: Packet)
    requires Near(h, p) && 0 <= p.boot < CIRCLE && 0 <= p.counter < CIRCLE
    ensures Place(h, Arrival(p.boot, p.counter)) == p
  {
    if h.accepted != {} {
      NearestIsNear(h.boot, p.boot);
      NearestIsNear(h.highest, p.counter);
      SameWordNear(h.boot, Nearest(h.boot, p.boot), p.boot);
      if p.boot == h.boot {
        SameWordNear(h.highest, Nearest(h.highest, p.counter), p.counter);
      }
    }
  }

  lemma SameWordNear(reference: int, x: int, y: int)
    requires Wrap32(x) == Wrap32(y) && -HALF <= x - reference < HALF && -HALF <= y - reference < HALF
    ensures x == y
  {
    if x >= y {
      WrapDifference(x, y);
      SmallWrap(x - y);
    } else {
      WrapDifference(y, x);
      SmallWrap(y - x);
    }
  }

  // ----- accepted again -----

  /** The window has moved past a packet so far that it would take it: more than half a circle of boots on;
      or back at its boot, and more than half a circle of counters on, or back at a counter not taken since. */
  predicate OutOfReach(h: History, x: Packet) {
    var boots, counters := Wrap32(h.boot - x.boot), Wrap32(h.highest - x.counter);
    || boots > HALF
    || (boots == 0 && (counters > HALF || (counters < WINDOW && Packet(h.boot, h.highest - counters) !in h.accepted)))
  }

  lemma WrapNegation(x: int)
    ensures Wrap32(-x) == if Wrap32(x) == 0 then 0 else CIRCLE - Wrap32(x)
  {
  }

  lemma AfterIsFarBehind(x: int, y: int)
    ensures After32(Wrap32(x), Wrap32(y)) <==> Wrap32(y - x) > HALF
    ensures Wrap32(x) == Wrap32(y) <==> Wrap32(y - x) == 0
    ensures Wrap32(Wrap32(y) - Wrap32(x)) == Wrap32(y - x)
  {
    WrapDifference(x, y);
    WrapDifference(y, x);
    WrapNegation(y - x);
  }

  /** For any packet, seen before or not, and any window that follows a history. */
  lemma TakenExactly(w: Window, h: History, x: Packet)
    requires Follows(w, h) && w.initialized
    ensures Accept(w, Wrap32(x.boot), Wrap32(x.counter)).1.Accepted() <==> OutOfReach(h, x)
  {
    AfterIsFarBehind(x.boot, h.boot);
    AfterIsFarBehind(x.counter, h.highest);
  }

  /** In the boot it was accepted in. */
  lemma TakenAgainInBoot(w: Window, h: History, x: Packet)
    requires w.initialized && w.boot == Wrap32(h.boot) && w.highest == Wrap32(h.highest) && Mirrors(w.bitmap, h)
    requires x in h.accepted && x.boot == h.boot
    ensures var d := Wrap32(h.highest - x.counter);
      Accept(w, Wrap32(x.boot), Wrap32(x.counter)).1.Accepted() <==>
        (d > HALF || (d < WINDOW && Packet(h.boot, h.highest - d) !in h.accepted))
  {
    AfterIsFarBehind(x.counter, h.highest);
  }

  lemma LearnMovesOn(h: History, p: Packet)
    requires h.accepted != {}
    ensures var next := Learn(h, p);
      && h.accepted <= next.accepted
      && (next.boot > h.boot || (next.boot == h.boot && next.highest >= h.highest))
  {
  }

  /** What was accepted is remembered where it was seen, and the window only moves on from there. */
  lemma {:induction false} TakenIsRemembered(arrivals: seq<Arrival>, j: nat)
    requires j < |arrivals| && Taken(arrivals, j)
    ensures var h, x := Track(arrivals), Place(Track(arrivals[..j]), arrivals[j]);
      && x in h.accepted && (h.boot > x.boot || (h.boot == x.boot && h.highest >= x.counter))
  {
    var earlier, a := arrivals[..|arrivals| - 1], arrivals[|arrivals| - 1];
    var h := Track(earlier);
    EveryRunIsFollowed(earlier);
    PlaceIsNear(h, a);
    AcceptFollows(After(earlier), h, Place(h, a));
    if j < |arrivals| - 1 {
      assert earlier[..j] == arrivals[..j];
      TakenIsRemembered(earlier, j);
      LearnMovesOn(h, Place(h, a));
    }
  }

  /** The exact condition, over runs of any length: an arrival that was accepted once is accepted again if and
      only if the window has meanwhile moved out of its reach. */
  lemma TakenAgainExactly(arrivals: seq<Arrival>, j: nat, k: nat)
    requires j < k < |arrivals| && arrivals[j] == arrivals[k] && Taken(arrivals, j)
    ensures var h, x := Track(arrivals[..k]), Place(Track(arrivals[..j]), arrivals[j]);
      && x in h.accepted
      && (Taken(arrivals, k) <==> OutOfReach(h, x))
  {
    var earlier := arrivals[..k];
    assert earlier[..j] == arrivals[..j];
    EveryRunIsFollowed(earlier);
    TakenIsRemembered(earlier, j);
    var x := Place(Track(arrivals[..j]), arrivals[j]);
    PlaceIsNear(Track(arrivals[..j]), arrivals[j]);
    TakenExactly(After(earlier), Track(earlier), x);
  }

  lemma WithinOneCircle(h: History, x: Packet)
    requires x in h.accepted && (h.boot > x.boot || (h.boot == x.boot && h.highest >= x.counter))
    ensures 0 < h.boot - x.boot < CIRCLE ==> (OutOfReach(h, x) <==> h.boot - x.boot > HALF)
    ensures h.boot == x.boot && h.highest - x.counter < CIRCLE ==> (OutOfReach(h, x) <==> h.highest - x.counter > HALF)
  {
    if 0 < h.boot - x.boot < CIRCLE {
      SmallWrap(h.boot - x.boot);
    }
    if h.boot == x.boot && h.highest - x.counter < CIRCLE {
      SmallWrap(h.highest - x.counter);
    }
  }

  /** Until the window has gone a whole circle round, that is simply: more than half a circle of boots, or of
      counters within the boot. At exactly half it is still refused. */
  lemma ReachIsHalfTheCircle(arrivals: seq<Arrival>, j: nat, k: nat)
    requires j < k < |arrivals| && arrivals[j] == arrivals[k] && Taken(arrivals, j)
    ensures var h, x := Track(arrivals[..k]), Place(Track(arrivals[..j]), arrivals[j]);
      && (0 < h.boot - x.boot < CIRCLE ==> (Taken(arrivals, k) <==> h.boot - x.boot > HALF))
      && (h.boot == x.boot && h.highest - x.counter < CIRCLE ==>
            (Taken(arrivals, k) <==> h.highest - x.counter > HALF))
  {
    var h, x := Track(arrivals[..k]), Place(Track(arrivals[..j]), arrivals[j]);
    assert arrivals[..k][..j] == arrivals[..j];
    TakenIsRemembered(arrivals[..k], j);
    TakenAgainExactly(arrivals, j, k);
    WithinOneCircle(h, x);
  }

  // ----- whole runs -----

  predicate Repeats(arrivals: seq<Arrival>, j: nat, k: nat) {
    j < k < |arrivals| && arrivals[j] == arrivals[k] && Taken(arrivals, j)
  }

  /** Nothing is accepted twice. */
  ghost predicate AtMostOnce(arrivals: seq<Arrival>) {
    forall j: nat, k: nat :: Repeats(arrivals, j, k) ==> !Taken(arrivals, k)
  }

  /** No accepted packet comes again after the window has moved out of its reach. */
  ghost predicate WithinReach(arrivals: seq<Arrival>) {
    forall j: nat, k: nat :: Repeats(arrivals, j, k) ==>
      !OutOfReach(Track(arrivals[..k]), Place(Track(arrivals[..j]), arrivals[j]))
  }

  lemma AtMostOnceExactly(arrivals: seq<Arrival>)
    ensures AtMostOnce(arrivals) <==> WithinReach(arrivals)
  {
    forall j: nat, k: nat | Repeats(arrivals, j, k)
      ensures Taken(arrivals, k) <==> OutOfReach(Track(arrivals[..k]), Place(Track(arrivals[..j]), arrivals[j]))
    {
      TakenAgainExactly(arrivals, j, k);
    }
  }

  // ----- how often an arrival is taken -----

  function TakenTimes(arrivals: seq<Arrival>, a: Arrival): nat {
    if |arrivals| == 0 then 0
    else
      TakenTimes(arrivals[..|arrivals| - 1], a) +
      (if arrivals[|arrivals| - 1] == a && Taken(arrivals, |arrivals| - 1) then 1 else 0)
  }

  lemma TakenTimesMore(arrivals: seq<Arrival>, a: Arrival, b: Arrival)
    ensures After(arrivals + [b]) == Accept(After(arrivals), b.boot, b.counter).0
    ensures TakenTimes(arrivals + [b], a) == TakenTimes(arrivals, a) +
      if a == b && Accept(After(arrivals), b.boot, b.counter).1.Accepted() then 1 else 0
  {
    assert (arrivals + [b])[..|arrivals|] == arrivals;
  }

  lemma {:induction false} NeverTaken(arrivals: seq<Arrival>, a: Arrival)
    requires a !in arrivals
    ensures TakenTimes(arrivals, a) == 0
  {
    if |arrivals| > 0 {
      NeverTaken(arrivals[..|arrivals| - 1], a);
    }
  }

  lemma {:induction false} TakenOnceAtLeast(arrivals: seq<Arrival>, j: nat)
    requires j < |arrivals| && Taken(arrivals, j)
    ensures TakenTimes(arrivals, arrivals[j]) >= 1
  {
    var front := arrivals[..|arrivals| - 1];
    if j < |front| {
      assert front[..j] == arrivals[..j];
      TakenOnceAtLeast(front, j);
    }
  }

  lemma {:induction false} TakenTwiceAtLeast(arrivals: seq<Arrival>, j: nat, k: nat)
    requires Repeats(arrivals, j, k) && Taken(arrivals, k)
    ensures TakenTimes(arrivals, arrivals[k]) >= 2
  {
    var front := arrivals[..|arrivals| - 1];
    assert front[..j] == arrivals[..j];
    if k < |front| {
      assert front[..k] == arrivals[..k];
      TakenTwiceAtLeast(front, j, k);
    } else {
      TakenOnceAtLeast(front, j);
    }
  }

  lemma {:induction false} SomewhereTaken(arrivals: seq<Arrival>, a: Arrival) returns (j: nat)
    requires TakenTimes(arrivals, a) >= 1
    ensures j < |arrivals| && arrivals[j] == a && Taken(arrivals, j)
  {
    var n := |arrivals| - 1;
    if arrivals[n] == a && Taken(arrivals, n) {
      j := n;
    } else {
      j := SomewhereTaken(arrivals[..n], a);
      assert arrivals[..n][..j] == arrivals[..j];
    }
  }

  lemma {:induction false} SomewhereTwice(arrivals: seq<Arrival>, a: Arrival) returns (j: nat, k: nat)
    requires TakenTimes(arrivals, a) >= 2
    ensures Repeats(arrivals, j, k) && Taken(arrivals, k)
  {
    var n := |arrivals| - 1;
    if arrivals[n] == a && Taken(arrivals, n) {
      k := n;
      j := SomewhereTaken(arrivals[..n], a);
      assert arrivals[..n][..j] == arrivals[..j];
    } else {
      j, k := SomewhereTwice(arrivals[..n], a);
      assert arrivals[..n][..j] == arrivals[..j] && arrivals[..n][..k] == arrivals[..k];
    }
  }

  lemma TakenAtMostOnce(arrivals: seq<Arrival>, a: Arrival)
    requires AtMostOnce(arrivals)
    ensures TakenTimes(arrivals, a) <= 1
  {
    if TakenTimes(arrivals, a) >= 2 {
      var j, k := SomewhereTwice(arrivals, a);
    }
  }

  lemma AtMostOnceFromCounts(arrivals: seq<Arrival>)
    requires forall a :: a in arrivals ==> TakenTimes(arrivals, a) <= 1
    ensures AtMostOnce(arrivals)
  {
    forall j: nat, k: nat | Repeats(arrivals, j, k) ensures !Taken(arrivals, k) {
      assert arrivals[k] in arrivals;
      if Taken(arrivals, k) {
        TakenTwiceAtLeast(arrivals, j, k);
      }
    }
  }

  // ----- runs that span less than half the circle -----

  function Unwrapped(arrivals: seq<Arrival>): seq<Packet> {
    seq(|arrivals|, i requires 0 <= i < |arrivals| => Packet(arrivals[i].boot, arrivals[i].counter))
  }

  lemma {:induction false} SameWindow(arrivals: seq<Arrival>)
    ensures After(arrivals) == Receive(Unwrapped(arrivals))
  {
    if |arrivals| > 0 {
      var front := arrivals[..|arrivals| - 1];
      SameWindow(front);
      SmallWrap(arrivals[|front|].boot);
      SmallWrap(arrivals[|front|].counter);
      assert Unwrapped(arrivals)[..|front|] == Unwrapped(front);
    }
  }

  lemma SameVerdict(arrivals: seq<Arrival>, k: nat)
    requires k < |arrivals|
    ensures Taken(arrivals, k) == Verdict(Unwrapped(arrivals)[..k], Unwrapped(arrivals)[k]).Accepted()
  {
    SameWindow(arrivals[..k]);
    SmallWrap(arrivals[k].boot);
    SmallWrap(arrivals[k].counter);
    assert Unwrapped(arrivals)[..k] == Unwrapped(arrivals[..k]);
  }

  /** Nothing is taken twice while the boots span less than half the circle, and the counters of each boot. */
  lemma ShortSpanIsAtMostOnce(arrivals: seq<Arrival>, boot: int, firsts: int -> int)
    requires forall a :: a in arrivals ==> Spans(Packet(a.boot, a.counter), boot, firsts)
    ensures AtMostOnce(arrivals)
  {
    var packets := Unwrapped(arrivals);
    forall p | p in packets ensures Spans(p, boot, firsts) {
      var i :| 0 <= i < |packets| && packets[i] == p;
      assert arrivals[i] in arrivals;
    }
    forall j: nat, k: nat | Repeats(arrivals, j, k) ensures !Taken(arrivals, k) {
      SameVerdict(arrivals, j);
      SameVerdict(arrivals, k);
      if Taken(arrivals, k) {
        NeverAcceptedTwice(packets, j, k, boot, firsts);
      }
    }
  }

  // ----- a run that goes too far -----

  /** Two steps of just under half a circle, and the first packet again. */
  function AroundCounters(): seq<Arrival> {
    [Arrival(1, 0), Arrival(1, 0x7fff_ffff), Arrival(1, 0xffff_fffe), Arrival(1, 0)]
  }

  function AroundBoots(): seq<Arrival> {
    [Arrival(0, 7), Arrival(0x7fff_ffff, 7), Arrival(0xffff_fffe, 7), Arrival(0, 7)]
  }

  lemma AfterOneMore(arrivals: seq<Arrival>, k: nat)
    requires k < |arrivals|
    ensures After(arrivals[..k + 1]) == Accept(After(arrivals[..k]), arrivals[k].boot, arrivals[k].counter).0
  {
    assert arrivals[..k + 1][..k] == arrivals[..k];
  }

  lemma AroundTakesReplay(arrivals: seq<Arrival>)
    requires arrivals == AroundCounters() || arrivals == AroundBoots()
    ensures Repeats(arrivals, 0, 3) && Taken(arrivals, 3)
    ensures OutOfReach(Track(arrivals[..3]), Place(Track(arrivals[..0]), arrivals[0]))
  {
    AfterOneMore(arrivals, 0);
    AfterOneMore(arrivals, 1);
    AfterOneMore(arrivals, 2);
    TakenAgainExactly(arrivals, 0, 3);
  }

  /** Counters, or boots, most of the circle apart: the first packet is accepted twice. */
  lemma WideSpanTakesReplay()
    ensures !AtMostOnce(AroundCounters()) && !AtMostOnce(AroundBoots())
  {
    AroundTakesReplay(AroundCounters());
    AroundTakesReplay(AroundBoots());
  }
}
