/**
 * `Array<T>` of array.cpp: a growable array whose capacity grows through the
 * sequence 0, 1, 3, 7, 15, ... (each step doubles and adds one).
 */
module DynArray {

  /** Capacities `grow` can produce: 0 and the numbers 2^k - 1. */
  predicate AllOnes(m: nat)
    decreases m
  {
    m == 0 || (m % 2 == 1 && AllOnes(m / 2))
  }

  /** The capacity `grow` settles on for a requested total of `target` elements. */
  function CapacityFor(target: nat): nat
    decreases target
  {
    if target == 0 then 0 else 2 * CapacityFor(target / 2) + 1
  }

  /** `CapacityFor(target)` is a capacity of the form 2^k - 1 that holds `target` elements. */
  lemma {:induction false} CapacityForFits(target: nat)
    ensures AllOnes(CapacityFor(target)) && target <= CapacityFor(target)
    decreases target
  {
    if target > 0 {
      CapacityForFits(target / 2);
      assert (2 * CapacityFor(target / 2) + 1) / 2 == CapacityFor(target / 2);
    }
  }

  /** ... and no smaller capacity of that form holds them. */
  lemma {:induction false} CapacityForLeast(target: nat, m: nat)
    requires AllOnes(m) && target <= m
    ensures CapacityFor(target) <= m
    decreases target
  {
    if target > 0 {
      CapacityForLeast(target / 2, m / 2);
    }
  }

  /** Between two capacities of the form 2^k - 1, one doubling step never overshoots the larger. */
  lemma {:induction false} AllOnesStep(m: nat, n: nat)
    requires AllOnes(m) && AllOnes(n) && m < n
    ensures AllOnes(2 * m + 1) && 2 * m + 1 <= n
    decreases m
  {
    assert (2 * m + 1) / 2 == m;
    if m > 0 {
      AllOnesStep(m / 2, n / 2);
    }
  }

  class Array<T(0)> {
    var data: array<T>
    var count: nat
    var capacity: nat

    ghost predicate Valid()
      reads this
    {
      data.Length == capacity && count <= capacity
    }

    /** The elements `[0, count)`. */
    ghost function Elements(): seq<T>
      reads this, data
      requires Valid()
    {
      data[..count]
    }

    /** The default constructor: no storage, nothing stored. */
    constructor ()
      ensures Valid() && Elements() == [] && capacity == 0
    {
      data := new T[0];
      count, capacity := 0, 0;
    }

    /** The initializer-list constructor: reserves exactly the list's size, then pushes each element. */
    constructor FromList(xs: seq<T>)
      ensures Valid() && Elements() == xs && capacity == |xs|
    {
      data := new T[|xs|];
      capacity := |xs|;
      count := 0;
      new;
      var i := 0;
      while i < |xs|
        invariant 0 <= i <= |xs|
        invariant Valid() && fresh(data) && capacity == |xs| && count == i
        invariant Elements() == xs[..i]
      {
        Push(xs[i]);
        assert xs[..i + 1] == xs[..i] + [xs[i]];
        i := i + 1;
      }
      assert xs[..|xs|] == xs;
    }

    /** `grow(n)`: the capacity becomes the least 2^k - 1 at or above `capacity + n`; the elements are kept. */
    method Grow(n: nat)
      requires Valid()
      modifies this
      ensures Valid() && fresh(data)
      ensures capacity == CapacityFor(old(capacity) + n) && capacity >= old(capacity) + n
      ensures count == old(count) && Elements() == old(Elements())
    {
      var target := capacity + n;
      var newCap := 0;
      CapacityForFits(target);
      while newCap < target
        invariant AllOnes(newCap) && newCap <= CapacityFor(target)
        invariant data == old(data) && capacity == old(capacity) && count == old(count)
      {
        AllOnesStep(newCap, CapacityFor(target));
        newCap := 2 * newCap + 1;
      }
      CapacityForLeast(target, newCap);
      // realloc: a new block of newCap elements holding the old block's contents
      var block := new T[newCap];
      var i := 0;
      while i < capacity
        invariant 0 <= i <= capacity
        invariant data == old(data) && capacity == old(capacity) && count == old(count)
        invariant forall k :: 0 <= k < i ==> block[k] == data[k]
      {
        block[i] := data[i];
        i := i + 1;
      }
      data := block;
      capacity := newCap;
    }

    /** `push(x)`: grows by one slot when full, then stores `x` after the current elements. */
    method Push(x: T)
      requires Valid()
      modifies this, data
      ensures Valid() && count == old(count) + 1
      ensures data == old(data) || fresh(data)
      ensures Elements() == old(Elements()) + [x]
      ensures capacity == if old(count) + 1 > old(capacity) then CapacityFor(old(capacity) + 1) else old(capacity)
    {
      if count + 1 > capacity {
        Grow(1);
      }
      data[count] := x;
      count := count + 1;
    }

    /** `operator[]`: the element at an index below `count`. */
    function At(index: nat): (x: T)
      reads this, data
      requires Valid() && index < count
      ensures x == Elements()[index]
    {
      data[index]
    }

    /** `empty()`: true exactly when nothing is stored. */
    function IsEmpty(): (b: bool)
      reads this, data
      requires Valid()
      ensures b <==> Elements() == []
    {
      count == 0
    }

    /** `clear()`: frees the storage; count and capacity drop to zero. */
    method Clear()
      requires Valid()
      modifies this
      ensures Valid() && Elements() == [] && count == 0 && capacity == 0
      ensures IsEmpty()
    {
      data := new T[0];
      capacity, count := 0, 0;
    }
  }
}
