/**
 * The bounded model cache of the implication analysis: a ring of fixed
 * capacity that, once full, drops its oldest entry for each new one.
 */
module RingLists {

  /** The entries after adding `x`: appended, and the oldest one dropped when the ring was full. */
  function RingAdd<T>(items: seq<T>, capacity: nat, x: T): seq<T>
  {
    if capacity == 0 then items
    else if |items| < capacity then items + [x]
    else items[1..] + [x]
  }

  /** The entries after adding every element of `xs`, in order, to `items`. */
  function RingFill<T>(items: seq<T>, capacity: nat, xs: seq<T>): seq<T>
    decreases |xs|
  {
    if xs == [] then items else RingAdd(RingFill(items, capacity, xs[..|xs| - 1]), capacity, xs[|xs| - 1])
  }

  function Min(a: int, b: int): int
  {
    if a < b then a else b
  }

  /** A ring never holds more than its capacity, and a ring with room keeps the new entry as its newest. */
  lemma RingAddBounded<T>(items: seq<T>, capacity: nat, x: T)
    requires |items| <= capacity
    ensures var r := RingAdd(items, capacity, x);
            |r| <= capacity &&
            (capacity > 0 ==> r != [] && r[|r| - 1] == x && |r| == Min(|items| + 1, capacity))
  {
  }

  /**
   * The ring law: a ring started empty holds exactly the last `capacity`
   * entries added, oldest first. After `capacity + 1` additions the first
   * entry is gone.
   */
  lemma {:induction false} RingFillKeepsNewest<T>(capacity: nat, xs: seq<T>)
    ensures RingFill([], capacity, xs) == xs[|xs| - Min(|xs|, capacity)..]
    decreases |xs|
  {
    if xs != [] {
      var p := xs[..|xs| - 1];
      var x := xs[|xs| - 1];
      RingFillKeepsNewest(capacity, p);
      var prev := p[|p| - Min(|p|, capacity)..];
      assert RingFill([], capacity, xs) == RingAdd(prev, capacity, x);
      if capacity == 0 {
        assert xs[|xs|..] == [];
      } else if |p| < capacity {
        assert prev == p;
        assert xs == p + [x];
      } else {
        assert prev[1..] + [x] == xs[|xs| - capacity..];
      }
    }
  }

  /** An entry added to a non-empty ring is evicted only by `capacity` later additions. */
  lemma RingEvictsFirst<T>(capacity: nat, xs: seq<T>)
    requires capacity > 0 && |xs| == capacity + 1
    ensures RingFill([], capacity, xs) == xs[1..]
  {
    RingFillKeepsNewest(capacity, xs);
  }

  /** `RingList`: a fixed-capacity ring of entries. */
  class RingList<T> {
    const capacity: nat
    var items: seq<T>

    ghost predicate Valid()
      reads this
    {
      |items| <= capacity
    }

    constructor(capacity: nat)
      ensures this.capacity == capacity && items == [] && Valid()
    {
      this.capacity := capacity;
      items := [];
    }

    method Add(x: T)
      requires Valid()
      modifies this`items
      ensures Valid()
      ensures items == RingAdd(old(items), capacity, x)
    {
      if capacity == 0 {
      } else if |items| < capacity {
        items := items + [x];
      } else {
        items := items[1..] + [x];
      }
    }
  }
}
