/** Four-entry rings: the contents of an entry array under a head and a count, oldest first. */
module Rings {

  const CAPACITY: nat := 4

  function Bump(head: nat): nat { (head + 1) % CAPACITY }

  /** The ring's contents, oldest first. */
  function Ring<T>(entries: seq<T>, head: nat, count: nat): (queue: seq<T>)
    requires |entries| == CAPACITY && head < CAPACITY && count <= CAPACITY
    ensures |queue| == count
    decreases count
  {
    if count == 0 then [] else [entries[head]] + Ring(entries, Bump(head), count - 1)
  }

  lemma BumpedIndex(head: nat, offset: nat)
    requires head < CAPACITY
    ensures (Bump(head) + offset) % CAPACITY == (head + offset + 1) % CAPACITY
  {
  }

  lemma {:induction false} RingAt<T>(entries: seq<T>, head: nat, count: nat, offset: nat)
    requires |entries| == CAPACITY && head < CAPACITY && offset < count <= CAPACITY
    ensures Ring(entries, head, count)[offset] == entries[(head + offset) % CAPACITY]
    decreases count
  {
    if offset > 0 {
      RingAt(entries, Bump(head), count - 1, offset - 1);
      BumpedIndex(head, offset - 1);
    }
  }

  lemma {:induction false} RingAppend<T>(entries: seq<T>, head: nat, count: nat, x: T)
    requires |entries| == CAPACITY && head < CAPACITY && count < CAPACITY
    ensures Ring(entries[(head + count) % CAPACITY := x], head, count + 1) ==
      Ring(entries, head, count) + [x]
    decreases count
  {
    if count > 0 {
      RingAppend(entries, Bump(head), count - 1, x);
      BumpedIndex(head, count - 1);
    }
  }
}
