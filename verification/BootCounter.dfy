/** The stored boot counter: each start of secured transmission raises it, reads it back, and goes ahead only if
    that worked, so that no two starts ever use the same boot counter. */
module BootCounter {
  import opened Words

  /** What storage did during one attempt to start: whether the reads worked, and whether the write was reported
      and carried out. A write leaves the old counter or the new one. */
  datatype Storage = Storage(readable: bool, reported: bool, written: bool, readableAgain: bool)

  function Raised(stored: Option<u32>): u32
    requires stored != Some(MAX_U32)
  {
    match stored
    case Some(previous) => previous + 1
    case None => 1
  }

  /** What is stored after an attempt, and the boot counter it may use. */
  function Advanced(stored: Option<u32>, s: Storage): (Option<u32>, Option<u32>) {
    if !s.readable || stored == Some(MAX_U32) then (stored, None)
    else
      var next := Raised(stored);
      var after := if s.written then Some(next) else stored;
      (after, if s.reported && s.readableAgain && after == Some(next) then Some(next) else None)
  }

  /** The counter stored after some attempts, and the boot counters they used. */
  function Starts(stored: Option<u32>, attempts: seq<Storage>): (Option<u32>, seq<u32>) {
    if |attempts| == 0 then (stored, [])
    else
      var n := |attempts| - 1;
      var before := Starts(stored, attempts[..n]);
      var (after, used) := Advanced(before.0, attempts[n]);
      (after, if used.Some? then before.1 + [used.value] else before.1)
  }

  predicate AtMost(x: Option<u32>, y: Option<u32>) { x.Some? ==> y.Some? && x.value <= y.value }

  lemma AttemptRaises(stored: Option<u32>, s: Storage)
    ensures var (after, used) := Advanced(stored, s);
      && AtMost(stored, after)
      && (used.Some? ==> after == used && used.value > 0 && (stored.Some? ==> used.value > stored.value))
  {
  }

  /** Through any failures of storage, the boot counters used strictly increase, above what was stored before, and
      the last is covered by what is stored. */
  lemma {:induction false} StartsIncrease(stored: Option<u32>, attempts: seq<Storage>)
    ensures var (after, used) := Starts(stored, attempts);
      && AtMost(stored, after)
      && (forall i :: 0 <= i < |used| ==>
            used[i] > 0 && AtMost(Some(used[i]), after) && (stored.Some? ==> used[i] > stored.value))
      && (forall i, j :: 0 <= i < j < |used| ==> used[i] < used[j])
  {
    if |attempts| > 0 {
      var n := |attempts| - 1;
      StartsIncrease(stored, attempts[..n]);
      AttemptRaises(Starts(stored, attempts[..n]).0, attempts[n]);
    }
  }

  /** A used-up counter stays, and nothing starts again. */
  lemma {:induction false} ExhaustedStays(attempts: seq<Storage>)
    ensures Starts(Some(MAX_U32), attempts) == (Some(MAX_U32), [])
  {
    if |attempts| > 0 {
      ExhaustedStays(attempts[..|attempts| - 1]);
    }
  }

  /** An attempt with nothing going wrong does start, unless the counter is used up. */
  lemma StartsWhenAllWorks(stored: Option<u32>)
    ensures var used := Advanced(stored, Storage(true, true, true, true)).1;
      used == if stored == Some(MAX_U32) then None else Some(Raised(stored))
  {
  }

  class CounterStore {
    var stored: Option<u32>

    method Read(works: bool) returns (ok: bool, found: bool, value: u32)
      ensures ok == works && (ok ==> found == stored.Some? && (found ==> value == stored.value))
    {
      ok, found := works, works && stored.Some?;
      value := if found then stored.value else 0;
    }

    method Write(value: u32, s: Storage) returns (ok: bool)
      modifies this
      ensures ok == s.reported && stored == if s.written then Some(value) else old(stored)
    {
      if s.written {
        stored := Some(value);
      }
      ok := s.reported;
    }

    method Advance(s: Storage) returns (active: Option<u32>)
      modifies this
      ensures (stored, active) == Advanced(old(stored), s)
    {
      var ok, found, previous := Read(s.readable);
      if !ok || (found && previous == MAX_U32) {
        return None;
      }
      var next := if found then previous + 1 else 1;
      ok := Write(next, s);
      if !ok {
        return None;
      }
      var verified;
      ok, found, verified := Read(s.readableAgain);
      if !ok || !found || verified != next {
        return None;
      }
      return Some(next);
    }
  }
}
