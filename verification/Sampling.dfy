/** The capacities at which shadow arms simulate a full-size cache. */
module Sampling {

  function Ceil(x: real): (c: int)
    ensures x <= c as real < x + 1.0
  {
    if x.Floor as real == x then x.Floor else x.Floor + 1
  }

  /** The share of n entries at rate r, before rounding. */
  function Share(r: real, n: int): real { r * n as real }

  /** The miniature of a cache of the given size at a fixed rate; no floor. */
  function ScaledCapacity(size: int, rate: real): int {
    if size <= 0 || rate >= 1.0 then size
    else
      var capacity := Ceil(Share(rate, size));
      var atLeastOne := if capacity < 1 then 1 else capacity;
      if atLeastOne > size then size else atLeastOne
  }

  /** The miniature at construction: below the floor the rate rises with the capacity. */
  function ShadowCapacity(nominalCap: int, rate: real, minCapacity: int): (int, real) {
    if nominalCap <= 0 || rate >= 1.0 then (nominalCap, 1.0)
    else
      var ceiling := Ceil(Share(rate, nominalCap));
      var floored := ceiling < minCapacity;
      var capacity := if floored then minCapacity else ceiling;
      var effectiveRate := if floored then minCapacity as real / nominalCap as real else rate;
      if capacity >= nominalCap then (nominalCap, 1.0) else (capacity, effectiveRate)
  }

  /** The miniature c of a cache of n entries at rate r: c / n is r, rounded up to a whole entry. */
  ghost predicate Simulates(c: int, n: int, r: real) {
    1 <= c <= n && Share(r, n) <= c as real < Share(r, n) + 1.0
  }

  lemma CeilMonotone(x: real, y: real)
    requires x <= y
    ensures Ceil(x) <= Ceil(y)
  {
  }

  lemma MulMonotone(r: real, m: int, n: int)
    requires r >= 0.0 && m <= n
    ensures Share(r, m) <= Share(r, n)
  {
    assert r * (n - m) as real >= 0.0;
    assert r * n as real == r * m as real + r * (n - m) as real;
  }

  lemma MulComplement(r: real, n: int)
    ensures Share(1.0 - r, n) == n as real - Share(r, n)
  {
  }

  /** One whole entry of slack at m leaves one at every larger size. */
  lemma BelowSize(r: real, m: int, n: int)
    requires 0.0 <= r < 1.0 && 0 < m <= n && Ceil(Share(r, m)) < m
    ensures Ceil(Share(r, n)) < n
  {
    var x, y := Share(r, m), Share(r, n);
    assert x <= (m - 1) as real;
    MulMonotone(1.0 - r, m, n);
    MulComplement(r, m);
    MulComplement(r, n);
    assert y <= (n - 1) as real;
  }

  /**
   The rate derived from the smallest positive capacity fits every other: the
   second pass changes neither the rate nor, through its floor, any capacity.
   */
  lemma OneRateForAll(smallest: int, n: int, rate: real, minCapacity: int)
    requires 0 < smallest <= n && rate > 0.0 && minCapacity >= 1
    ensures var r := ShadowCapacity(smallest, rate, minCapacity).1;
      var (c, r') := ShadowCapacity(n, r, minCapacity);
      r' == r && 0.0 < r <= 1.0 && Simulates(c, n, r)
  {
    RateAtMostOne(smallest, rate, minCapacity);
    Unsampled(n, minCapacity);
    hide ShadowCapacity, Ceil, Simulates, Share;
    var r := ShadowCapacity(smallest, rate, minCapacity).1;
    if r < 1.0 {
      FirstPass(smallest, rate, minCapacity);
      SecondPass(smallest, n, r, minCapacity);
    }
  }

  lemma RateAtMostOne(m: int, rate: real, minCapacity: int)
    requires m > 0
    ensures ShadowCapacity(m, rate, minCapacity).1 <= 1.0
  {
    if minCapacity < m {
      assert minCapacity as real / m as real <= 1.0;
    }
  }

  lemma Unsampled(n: int, minCapacity: int)
    requires n > 0
    ensures ShadowCapacity(n, 1.0, minCapacity) == (n, 1.0) && Simulates(n, n, 1.0)
  {
  }

  /** At a rate below 1 that clears the floor at m, the pass at n >= m is the plain ceiling. */
  lemma SecondPass(m: int, n: int, r: real, minCapacity: int)
    requires 0 < m <= n && 0.0 < r < 1.0 && 1 <= minCapacity <= Ceil(Share(r, m)) < m
    ensures ShadowCapacity(n, r, minCapacity) == (Ceil(Share(r, n)), r)
    ensures Simulates(Ceil(Share(r, n)), n, r)
  {
    MulMonotone(r, m, n);
    var x, y := Share(r, m), Share(r, n);
    CeilMonotone(x, y);
    BelowSize(r, m, n);
  }

  /** What the first pass leaves: its capacity is the ceiling at its own rate and clears the floor. */
  lemma FirstPass(m: int, rate: real, minCapacity: int)
    requires m > 0 && rate > 0.0 && minCapacity >= 1 && ShadowCapacity(m, rate, minCapacity).1 < 1.0
    ensures var (c, r) := ShadowCapacity(m, rate, minCapacity);
      c == Ceil(Share(r, m)) && minCapacity <= c < m && r > 0.0
  {
    var (c, r) := ShadowCapacity(m, rate, minCapacity);
    if Ceil(Share(rate, m)) < minCapacity {
      assert Share(r, m) == minCapacity as real;
    }
  }

  /** Resizing keeps the same identity, without the floor. */
  lemma ScaledSimulates(size: int, rate: real)
    requires size > 0 && 0.0 < rate <= 1.0
    ensures Simulates(ScaledCapacity(size, rate), size, rate)
  {
    MulMonotone(1.0 - rate, 0, size);
    MulComplement(rate, size);
    MulMonotone(rate, 1, size);
    var x := Share(rate, size);
    assert 0.0 < x <= size as real;
  }

  lemma ScaledMonotone(small: int, large: int, rate: real)
    requires small <= large && 0.0 < rate <= 1.0
    ensures ScaledCapacity(small, rate) <= ScaledCapacity(large, rate)
  {
    if small > 0 && rate < 1.0 {
      MulMonotone(rate, small, large);
      CeilMonotone(Share(rate, small), Share(rate, large));
    } else if large > 0 && rate < 1.0 {
      ScaledSimulates(large, rate);
    }
  }

  /** Why the floor is not applied on resize: a fixed rate with a raised capacity
      breaks the identity exactly when the floor fires above the ceiling. */
  lemma FloorWouldBreakIdentity(size: int, rate: real, minCapacity: int)
    requires 0 < minCapacity <= size && 0.0 < rate < 1.0
    ensures var floored := if ScaledCapacity(size, rate) < minCapacity then minCapacity else ScaledCapacity(size, rate);
      Simulates(floored, size, rate) <==> ScaledCapacity(size, rate) >= minCapacity
  {
    ScaledSimulates(size, rate);
  }
}
