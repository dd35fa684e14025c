/** The replay window over boot and packet counters: a 64-bit bitmap behind the highest counter of
    the newest boot, refined by the set of accepted pairs. */
module ReplayWindow {
  import opened Words
  import opened Bits

  const WINDOW: nat := 64

  datatype Result = AcceptFirst | AcceptNew | AcceptReordered | RejectDuplicate | RejectStale | RejectOldBoot {
    predicate Accepted() { AcceptFirst? || AcceptNew? || AcceptReordered? }
  }

  datatype Window = Window(initialized: bool, boot: u32, highest: u32, bitmap: u64)

  /** bitmap | (1 << age) */
  function Mark(bitmap: u64, age: nat): (r: u64)
    requires age < WINDOW
    ensures r == SetBit(bitmap, age)
  {
    SetBitFits64(bitmap, age, WINDOW);
    SetBit(bitmap, age)
  }

  function Accept(w: Window, boot: u32, counter: u32): (Window, Result) {
    if !w.initialized then (Window(true, boot, counter, 1), AcceptFirst)
    else if boot != w.boot then
      if After32(boot, w.boot) then (Window(true, boot, counter, 1), AcceptNew) else (w, RejectOldBoot)
    else if After32(counter, w.highest) then
      var shift := Wrap32(counter - w.highest);
      var bitmap := if shift >= WINDOW then 1 else Mark(ShiftLeft64(w.bitmap, shift), 0);
      (w.(highest := counter, bitmap := bitmap), AcceptNew)
    else
      var age := Wrap32(w.highest - counter);
      if age >= WINDOW then (w, RejectStale)
      else if Bit(w.bitmap, age) then (w, RejectDuplicate)
      else (w.(bitmap := Mark(w.bitmap, age)), AcceptReordered)
  }

  // ----- the simple form: a set of accepted pairs -----

  /** One authenticated packet, with counters unwrapped to the integers. */
  datatype Packet = Packet(boot: int, counter: int)

  /** Pairs accepted so far, the newest accepted boot and its highest accepted counter. */
  datatype History = History(accepted: set<Packet>, boot: int, highest: int)

  const Nothing := History({}, 0, 0)

  /** The whole policy: accept from a newer boot, above the highest counter, or less than 64 old and
      unseen. */
  function Decide(h: History, p: Packet): Result {
    if h.accepted == {} then AcceptFirst
    else if p.boot > h.boot then AcceptNew
    else if p.boot < h.boot then RejectOldBoot
    else if p.counter > h.highest then AcceptNew
    else if h.highest - p.counter >= WINDOW then RejectStale
    else if p in h.accepted then RejectDuplicate
    else AcceptReordered
  }

  function Learn(h: History, p: Packet): History {
    if !Decide(h, p).Accepted() then h
    else if Decide(h, p).AcceptReordered? then h.(accepted := h.accepted + {p})
    else History(h.accepted + {p}, p.boot, p.counter)
  }

  function LearnAll(packets: seq<Packet>): History {
    if |packets| == 0 then Nothing
    else Learn(LearnAll(packets[..|packets| - 1]), packets[|packets| - 1])
  }

  function Receive(packets: seq<Packet>): Window {
    if |packets| == 0 then Window(false, 0, 0, 0)
    else
      var p := packets[|packets| - 1];
      Accept(Receive(packets[..|packets| - 1]), Wrap32(p.boot), Wrap32(p.counter)).0
  }

  /** Bit i says whether the counter i below the highest was accepted in the newest boot. */
  predicate Mirrors(bitmap: nat, h: History) {
    forall i :: 0 <= i < WINDOW ==> (Bit(bitmap, i) <==> Packet(h.boot, h.highest - i) in h.accepted)
  }

  ghost predicate Follows(w: Window, h: History) {
    && w.initialized == (h.accepted != {})
    && (w.initialized ==>
          && w.boot == Wrap32(h.boot) && w.highest == Wrap32(h.highest)
          && Packet(h.boot, h.highest) in h.accepted
          && (forall p :: p in h.accepted ==> p.boot < h.boot || (p.boot == h.boot && p.counter <= h.highest))
          && Mirrors(w.bitmap, h))
  }

  /** As seen from the newest accepted packet, this one is where the serial comparison places it: less than
      half the circle ahead, or at most half behind. */
  predicate Near(h: History, p: Packet) {
    h.accepted != {} ==>
      && -0x8000_0000 <= p.boot - h.boot < 0x8000_0000
      && (p.boot == h.boot ==> -0x8000_0000 <= p.counter - h.highest < 0x8000_0000)
  }

  lemma SerialOrder(x: int, y: int)
    requires -0x8000_0000 <= x - y < 0x8000_0000
    ensures Wrap32(x) == Wrap32(y) <==> x == y
    ensures After32(Wrap32(x), Wrap32(y)) <==> x > y
    ensures x >= y ==> Wrap32(Wrap32(x) - Wrap32(y)) == x - y
    ensures x <= y ==> Wrap32(Wrap32(y) - Wrap32(x)) == y - x
  {
    WrapDifference(x, y);
    WrapDifference(y, x);
    if x >= y {
      SmallWrap(x - y);
    } else {
      SmallWrap(y - x);
      SmallWrap(x - y + 0x1_0000_0000);
      WrapPeriod(x - y);
    }
  }

  lemma WrapDifference(x: int, y: int)
    ensures Wrap32(Wrap32(x) - Wrap32(y)) == Wrap32(x - y)
  {
  }

  lemma SmallWrap(x: int)
    requires 0 <= x < 0x1_0000_0000
    ensures Wrap32(x) == x
  {
  }

  lemma WrapPeriod(x: int)
    ensures Wrap32(x + 0x1_0000_0000) == Wrap32(x)
  {
  }

  lemma OnlyNewestBit(i: nat)
    ensures Bit(1, i) <==> i == 0
  {
    ZeroBits(if i > 0 then i - 1 else 0);
  }

  lemma {:induction false} ZeroBits(i: nat)
    ensures !Bit(0, i)
  {
    if i > 0 {
      ZeroBits(i - 1);
    }
  }

  lemma RestartMirrors(h: History, p: Packet)
    requires forall q :: q in h.accepted ==> q.boot < p.boot
    ensures Mirrors(1, History(h.accepted + {p}, p.boot, p.counter))
  {
    forall i | 0 <= i < WINDOW ensures Bit(1, i) <==> i == 0 {
      OnlyNewestBit(i);
    }
  }

  lemma AdvanceMirrors(bitmap: nat, h: History, p: Packet)
    requires Mirrors(bitmap, h) && p.boot == h.boot && p.counter > h.highest
    requires forall q :: q in h.accepted ==> q.boot == h.boot ==> q.counter <= h.highest
    ensures var shift := p.counter - h.highest;
      Mirrors(if shift >= WINDOW then 1 else SetBit(ShiftLeft64(bitmap, shift), 0),
              History(h.accepted + {p}, p.boot, p.counter))
  {
    var shift := p.counter - h.highest;
    var next := History(h.accepted + {p}, p.boot, p.counter);
    if shift < WINDOW {
      var shifted := SetBit(ShiftLeft64(bitmap, shift), 0);
      forall i | 0 <= i < WINDOW
        ensures Bit(shifted, i) <==> Packet(next.boot, next.highest - i) in next.accepted
      {
        PushBit(bitmap, shift, i, WINDOW);
        assert next.highest - i == h.highest - (i - shift);
      }
    } else {
      forall i | 0 <= i < WINDOW ensures Bit(1, i) <==> i == 0 {
        OnlyNewestBit(i);
      }
    }
  }

  lemma ReorderMirrors(bitmap: nat, h: History, p: Packet)
    requires Mirrors(bitmap, h) && p.boot == h.boot && 0 <= h.highest - p.counter < WINDOW
    ensures Mirrors(SetBit(bitmap, h.highest - p.counter), h.(accepted := h.accepted + {p}))
  {
    var age := h.highest - p.counter;
    forall i | 0 <= i < WINDOW
      ensures Bit(SetBit(bitmap, age), i) <==> Packet(h.boot, h.highest - i) in h.accepted + {p}
    {
      SetBitBits(bitmap, age, i);
    }
  }

  /** One decision, for a packet that is where the window places it. */
  lemma AcceptFollows(w: Window, h: History, p: Packet)
    requires Follows(w, h) && Near(h, p)
    ensures var (next, result) := Accept(w, Wrap32(p.boot), Wrap32(p.counter));
      result == Decide(h, p) && Follows(next, Learn(h, p))
  {
    if !w.initialized {
      RestartMirrors(h, p);
    } else {
      SerialOrder(p.boot, h.boot);
      if p.boot > h.boot {
        RestartMirrors(h, p);
      } else if p.boot == h.boot {
        SameBootFollows(w, h, p);
      }
    }
  }

  lemma SameBootFollows(w: Window, h: History, p: Packet)
    requires Follows(w, h) && Near(h, p) && w.initialized && p.boot == h.boot
    ensures var (next, result) := Accept(w, Wrap32(p.boot), Wrap32(p.counter));
      result == Decide(h, p) && Follows(next, Learn(h, p))
  {
    SerialOrder(p.counter, h.highest);
    if p.counter > h.highest {
      AdvanceMirrors(w.bitmap, h, p);
    } else if h.highest - p.counter < WINDOW && p !in h.accepted {
      ReorderMirrors(w.bitmap, h, p);
    }
  }

  // ----- runs that span less than half the circle -----

  /** Boots span less than half the circle from first, and so do the counters within each boot. */
  ghost predicate Spans(p: Packet, first: int, firsts: int -> int) {
    first <= p.boot < first + 0x8000_0000 && firsts(p.boot) <= p.counter < firsts(p.boot) + 0x8000_0000
  }

  ghost predicate Represents(w: Window, h: History, first: int, firsts: int -> int) {
    Follows(w, h) && (w.initialized ==> Spans(Packet(h.boot, h.highest), first, firsts))
  }

  lemma AcceptRefines(w: Window, h: History, p: Packet, first: int, firsts: int -> int)
    requires Represents(w, h, first, firsts) && Spans(p, first, firsts)
    ensures var (next, result) := Accept(w, Wrap32(p.boot), Wrap32(p.counter));
      result == Decide(h, p) && Represents(next, Learn(h, p), first, firsts)
  {
    AcceptFollows(w, h, p);
  }

  /** Over any run whose counters span less than half the circle, the window behaves exactly as the
      set of accepted pairs. */
  lemma {:induction false} WindowRefinesHistory(packets: seq<Packet>, first: int, firsts: int -> int)
    requires forall p :: p in packets ==> Spans(p, first, firsts)
    ensures Represents(Receive(packets), LearnAll(packets), first, firsts)
  {
    if |packets| > 0 {
      var earlier := packets[..|packets| - 1];
      WindowRefinesHistory(earlier, first, firsts);
      AcceptRefines(Receive(earlier), LearnAll(earlier), packets[|packets| - 1], first, firsts);
    }
  }

  function Verdict(packets: seq<Packet>, p: Packet): Result {
    Accept(Receive(packets), Wrap32(p.boot), Wrap32(p.counter)).1
  }

  /** A packet is accepted exactly when it is from a newer boot, above the highest counter, or less
      than 64 old and unseen. */
  lemma AcceptedExactly(packets: seq<Packet>, p: Packet, first: int, firsts: int -> int)
    requires forall q :: q in packets + [p] ==> Spans(q, first, firsts)
    ensures var h := LearnAll(packets);
      Verdict(packets, p).Accepted() <==>
        || h.accepted == {} || p.boot > h.boot
        || (p.boot == h.boot && p.counter > h.highest)
        || (p.boot == h.boot && h.highest - p.counter < WINDOW && p !in h.accepted)
  {
    assert p in packets + [p];
    WindowRefinesHistory(packets, first, firsts);
    AcceptRefines(Receive(packets), LearnAll(packets), p, first, firsts);
  }

  lemma {:induction false} AcceptedIsRemembered(packets: seq<Packet>, k: nat, first: int, firsts: int -> int)
    requires k < |packets| && (forall p :: p in packets ==> Spans(p, first, firsts))
    requires Verdict(packets[..k], packets[k]).Accepted()
    ensures packets[k] in LearnAll(packets).accepted
  {
    var earlier := packets[..|packets| - 1];
    if k == |packets| - 1 {
      WindowRefinesHistory(earlier, first, firsts);
      AcceptRefines(Receive(earlier), LearnAll(earlier), packets[k], first, firsts);
    } else {
      assert earlier[..k] == packets[..k];
      AcceptedIsRemembered(earlier, k, first, firsts);
    }
  }

  /** No pair is accepted twice, however packets are repeated or reordered. */
  lemma NeverAcceptedTwice(packets: seq<Packet>, j: nat, k: nat, first: int, firsts: int -> int)
    requires j < k < |packets| && (forall p :: p in packets ==> Spans(p, first, firsts))
    requires Verdict(packets[..j], packets[j]).Accepted() && Verdict(packets[..k], packets[k]).Accepted()
    ensures packets[j] != packets[k]
  {
    var earlier := packets[..k];
    assert earlier[..j] == packets[..j];
    AcceptedIsRemembered(earlier, j, first, firsts);
    WindowRefinesHistory(earlier, first, firsts);
    AcceptRefines(Receive(earlier), LearnAll(earlier), packets[k], first, firsts);
  }

  // ----- the window in memory -----

  class ReplayState {
    var bootCounter: u32
    var highestPacketCounter: u32
    var receivedBitmap: u64
    var initialized: bool

    function View(): Window
      reads this
    {
      Window(initialized, bootCounter, highestPacketCounter, receivedBitmap)
    }

    constructor ()
      ensures View() == Receive([])
    {
      bootCounter, highestPacketCounter, receivedBitmap, initialized := 0, 0, 0, false;
    }

    method AcceptAuthenticated(boot: u32, counter: u32) returns (result: Result)
      modifies this
      ensures (View(), result) == Accept(old(View()), boot, counter)
    {
      if !initialized {
        bootCounter, highestPacketCounter, receivedBitmap, initialized := boot, counter, 1, true;
        return AcceptFirst;
      }
      if boot != bootCounter {
        if !After32(boot, bootCounter) {
          return RejectOldBoot;
        }
        bootCounter, highestPacketCounter, receivedBitmap := boot, counter, 1;
        return AcceptNew;
      }
      if After32(counter, highestPacketCounter) {
        var shift := Wrap32(counter - highestPacketCounter);
        receivedBitmap := if shift >= WINDOW then 1 else Mark(ShiftLeft64(receivedBitmap, shift), 0);
        highestPacketCounter := counter;
        return AcceptNew;
      }
      var age := Wrap32(highestPacketCounter - counter);
      if age >= WINDOW {
        return RejectStale;
      }
      if Bit(receivedBitmap, age) {
        return RejectDuplicate;
      }
      receivedBitmap := Mark(receivedBitmap, age);
      return AcceptReordered;
    }
  }
}
