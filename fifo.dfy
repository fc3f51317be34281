/** A set with a maximum size and first-in-first-out eviction (fifo.py).

    The Python class keeps an OrderedDict whose keys are the elements in
    insertion order; here that ordered key set is a sequence of distinct
    elements, oldest first. */
module Fifo {

  /** The capacity used when none is given. */
  const DefaultMaxSize: int := 100

  /** No element occurs twice. */
  predicate Distinct<T(==)>(s: seq<T>) {
    forall i, j :: 0 <= i < j < |s| ==> s[i] != s[j]
  }

  /** The state invariant: the keys are distinct and there are no more of
      them than the capacity. A capacity of zero or less admits only the
      empty set, because every insertion then fails (see AddRaises). */
  predicate Bounded<T(==)>(d: seq<T>, maxSize: int) {
    Distinct(d) && (d == [] || |d| <= maxSize)
  }

  /** `add` pops the oldest entry of an empty map, a KeyError: the element is
      new, the set is "full" and yet holds nothing to evict. That happens
      exactly for an empty set whose capacity is zero or less, whatever the
      element. */
  predicate AddRaises<T(==)>(d: seq<T>, maxSize: int, x: T): (r: bool)
    ensures r <==> d == [] && maxSize <= 0
  {
    x !in d && |d| >= maxSize && d == []
  }

  /** The contents after `add(x)` when it does not raise. */
  function Added<T(==)>(d: seq<T>, maxSize: int, x: T): (r: seq<T>)
    requires Bounded(d, maxSize)
    requires !AddRaises(d, maxSize, x)
    ensures Bounded(r, maxSize)
    // the element is present afterwards, and last when it was new
    ensures x in r
    ensures x !in d ==> r[|r| - 1] == x
    // an element already present changes nothing, not even the order
    ensures x in d ==> r == d
    // not full: the new element is only appended
    ensures x !in d && |d| < maxSize ==> |r| == |d| + 1 && r[..|d|] == d
    // full: exactly the oldest element leaves, the rest keep their order
    ensures x !in d && |d| >= maxSize ==>
      |r| == |d| && d[0] !in r && r[..|r| - 1] == d[1..]
    // every element kept was there before or is the new one
    ensures forall y :: y in r ==> y == x || y in d
    ensures forall y :: y in d ==> (y in r <==> !(x !in d && |d| >= maxSize && y == d[0]))
  {
    if x in d then d
    else if |d| >= maxSize then
      var r := d[1..] + [x];
      assert r[..|r| - 1] == d[1..];
      assert forall y :: y in d[1..] ==> y != d[0];
      r
    else
      d + [x]
  }

  /** The contents after adding each element of `xs` in turn, stopping at
      the first `add` that raises. */
  function AddAll<T(==)>(d: seq<T>, maxSize: int, xs: seq<T>): (r: seq<T>)
    requires Bounded(d, maxSize)
    // re-adding elements that are all present changes nothing, not even
    // the order: presence is never refreshed
    ensures (forall i :: 0 <= i < |xs| ==> xs[i] in d) ==> r == d
    decreases |xs|
  {
    if xs == [] || AddRaises(d, maxSize, xs[0]) then d
    else AddAll(Added(d, maxSize, xs[0]), maxSize, xs[1..])
  }

  /** However many elements are added, the set stays within its capacity,
      holds no duplicates, and holds only elements that were added. */
  lemma {:induction false} AddAllBounded<T>(d: seq<T>, maxSize: int, xs: seq<T>)
    requires Bounded(d, maxSize)
    ensures Bounded(AddAll(d, maxSize, xs), maxSize)
    ensures forall y :: y in AddAll(d, maxSize, xs) ==> y in d || y in xs
    decreases |xs|
  {
    if xs != [] && !AddRaises(d, maxSize, xs[0]) {
      var d' := Added(d, maxSize, xs[0]);
      AddAllBounded(d', maxSize, xs[1..]);
      forall y | y in AddAll(d, maxSize, xs) ensures y in d || y in xs {
        assert y in d' || y in xs[1..];
      }
    }
  }

  /** With a positive capacity the last element added is always present:
      the most recent insertion is never evicted. */
  lemma {:induction false} LastAddedPresent<T>(d: seq<T>, maxSize: int, xs: seq<T>)
    requires Bounded(d, maxSize)
    requires maxSize >= 1
    requires xs != []
    ensures xs[|xs| - 1] in AddAll(d, maxSize, xs)
    decreases |xs|
  {
    PositiveCapacityNeverRaises(d, maxSize, xs[0]);
    var d' := Added(d, maxSize, xs[0]);
    var ys := xs[1..];
    assert AddAll(d, maxSize, xs) == AddAll(d', maxSize, ys);
    if ys == [] {
      assert AddAll(d', maxSize, ys) == d';
    } else {
      LastAddedPresent(d', maxSize, ys);
      assert ys[|ys| - 1] == xs[|xs| - 1];
    }
  }

  /** With a capacity of one or more no `add` raises. */
  lemma PositiveCapacityNeverRaises<T>(d: seq<T>, maxSize: int, x: T)
    requires Bounded(d, maxSize) && maxSize >= 1
    ensures !AddRaises(d, maxSize, x)
  {
  }

  /** With a capacity of zero or less the set stays empty and every `add`
      raises. */
  lemma NonPositiveCapacityRaises<T>(d: seq<T>, maxSize: int, x: T)
    requires Bounded(d, maxSize)
    requires maxSize <= 0
    ensures d == [] && AddRaises(d, maxSize, x)
  {
  }

  /** The FIFOSet class of fifo.py. */
  class FifoSet<T(==)> {
    const maxSize: int
    /** The keys of the OrderedDict, oldest first. */
    var data: seq<T>

    ghost predicate Valid()
      reads this
    {
      Bounded(data, maxSize)
    }

    /** A new set is empty and has the given capacity, 100 by default. */
    constructor (maxSize: int := DefaultMaxSize)
      ensures Valid()
      ensures this.maxSize == maxSize && data == []
    {
      this.maxSize := maxSize;
      data := [];
    }

    /** `add`: ignores an element already present, evicts the oldest element
        when full, then appends. `raised` is the KeyError of evicting from an
        empty map, after which nothing has changed. */
    method Add(x: T) returns (raised: bool)
      requires Valid()
      modifies this
      ensures Valid()
      ensures raised == AddRaises(old(data), maxSize, x)
      ensures data == if raised then old(data) else Added(old(data), maxSize, x)
    {
      if x in data {
        return false;
      }
      if |data| >= maxSize {
        if data == [] {
          return true;
        }
        data := data[1..];
      }
      data := data + [x];
      raised := false;
    }

    /** `__contains__`. */
    predicate Contains(x: T)
      reads this
      requires Valid()
      ensures Contains(x) <==> x in Items()
    {
      x in data
    }

    /** `__len__`. */
    function Len(): (n: nat)
      reads this
      requires Valid()
      ensures n <= maxSize || n == 0
      ensures n == |Items()|
    {
      |data|
    }

    /** `__iter__`: the elements in insertion order, each once. */
    function Items(): (s: seq<T>)
      reads this
      requires Valid()
      ensures Bounded(s, maxSize)
    {
      data
    }
  }

  /** A client: with capacity two, a third element pushes out the first. */
  method EvictionScenario() returns (s: FifoSet<int>)
    ensures s.Valid() && s.Items() == [2, 3]
  {
    s := new FifoSet(2);
    var raised := s.Add(1);
    raised := s.Add(2);
    assert s.data == [1, 2];
    ReAddThenEvict(s);
  }

  /** Re-adding 1 keeps the order, so 3 then evicts 1. */
  method ReAddThenEvict(s: FifoSet<int>)
    requires s.Valid() && s.maxSize == 2 && s.data == [1, 2]
    modifies s
    ensures s.Valid() && s.data == [2, 3]
  {
    var raised := s.Add(1);
    assert s.data == [1, 2];
    raised := s.Add(3);
  }
}
