/**
 * Counting helpers shared by the pages: sizes of day ranges and the
 * percentage rounding `Math.round(c / p * 100)` done exactly on integers.
 */
module Counting {

  /** The integers from `lo` to `hi`, both included. */
  function Range(lo: int, hi: int): set<int>
    decreases hi - lo
  {
    if hi < lo then {} else Range(lo, hi - 1) + {hi}
  }

  /** Exactly the numbers between the bounds are in the range. */
  lemma {:induction false} InRange(lo: int, hi: int, x: int)
    ensures x in Range(lo, hi) <==> lo <= x <= hi
    decreases hi - lo
  {
    if lo <= hi {
      InRange(lo, hi - 1, x);
    }
  }

  /** A range holds `hi - lo + 1` numbers, or none when `hi < lo`. */
  lemma {:induction false} RangeSize(lo: int, hi: int)
    ensures |Range(lo, hi)| == if hi < lo then 0 else hi - lo + 1
    decreases hi - lo
  {
    if lo <= hi {
      RangeSize(lo, hi - 1);
      InRange(lo, hi - 1, hi);
    }
  }

  /** A set is no larger than a set containing it. */
  lemma SubsetSize<T>(a: set<T>, b: set<T>)
    requires a <= b
    ensures |a| <= |b|
  {
    assert b == a + (b - a);
  }

  /** A set of numbers between `lo` and `hi` has at most `hi - lo + 1` members. */
  lemma SizeWithinRange(s: set<int>, lo: int, hi: int)
    requires forall x :: x in s ==> lo <= x <= hi
    ensures |s| <= if hi < lo then 0 else hi - lo + 1
  {
    forall x | x in s
      ensures x in Range(lo, hi)
    {
      InRange(lo, hi, x);
    }
    SubsetSize(s, Range(lo, hi));
    RangeSize(lo, hi);
  }

  /**
   * `Math.round(c / p * 100)` for a count `c` and a positive total `p`: the
   * integer nearest to 100c/p, halves rounded up.
   */
  function RoundPercent(c: nat, p: nat): (r: nat)
    requires p > 0
    ensures 2 * p * r <= 200 * c + p < 2 * p * (r + 1)
  {
    (200 * c + p) / (2 * p)
  }

  /** Multiplying by a non-negative factor keeps order. */
  lemma MulMonotone(k: nat, a: int, b: int)
    requires a <= b
    ensures k * a <= k * b
  {
    assert k * b - k * a == k * (b - a);
  }

  /** A positive factor can be cancelled from a strict inequality. */
  lemma MulCancel(k: nat, a: int, b: int)
    requires k > 0 && k * a < k * b
    ensures a < b
  {
    if a >= b {
      MulMonotone(k, b, a);
    }
  }

  /** A part of a whole rounds to at most 100 percent. */
  lemma RoundPercentAtMost100(c: nat, p: nat)
    requires 0 < p && c <= p
    ensures RoundPercent(c, p) <= 100
  {
    var r := RoundPercent(c, p);
    assert 2 * p * r < 2 * p * 101;
    MulCancel(2 * p, r, 101);
  }

  /** More than the whole rounds to at least 100 percent. */
  lemma RoundPercentAtLeast100(c: nat, p: nat)
    requires 0 < p < c
    ensures RoundPercent(c, p) >= 100
  {
    var r := RoundPercent(c, p);
    assert 2 * p * 100 < 2 * p * (r + 1);
    MulCancel(2 * p, 100, r + 1);
  }

  /** All of a whole rounds to exactly 100 percent, nothing of it to 0. */
  lemma RoundPercentEnds(p: nat)
    requires p > 0
    ensures RoundPercent(p, p) == 100 && RoundPercent(0, p) == 0
  {
    var r := RoundPercent(p, p);
    assert 2 * p * r < 2 * p * 101;
    MulCancel(2 * p, r, 101);
    assert 2 * p * 99 < 2 * p * (r + 1);
    MulCancel(2 * p, 99, r + 1);
    var z := RoundPercent(0, p);
    assert 2 * p * z < 2 * p * 1;
    MulCancel(2 * p, z, 1);
  }

  /** `Math.min(hi, Math.max(lo, x))`. */
  function Clamp(lo: int, hi: int, x: int): (r: int)
    requires lo <= hi
    ensures lo <= r <= hi
    ensures lo <= x <= hi ==> r == x
  {
    if x < lo then lo else if x > hi then hi else x
  }

  function Max(a: int, b: int): (m: int)
    ensures m >= a && m >= b && (m == a || m == b)
  {
    if a >= b then a else b
  }

  function Min(a: int, b: int): (m: int)
    ensures m <= a && m <= b && (m == a || m == b)
  {
    if a <= b then a else b
  }

  /**
   * The score of a window or a habit: the rounded percentage of completed
   * over possible clamped to 0..100, or 0 when nothing was possible.
   */
  function ClampedPercent(completed: nat, possible: nat): (p: int)
    ensures 0 <= p <= 100
    ensures possible == 0 ==> p == 0
    ensures 0 < possible && completed <= possible ==> p == RoundPercent(completed, possible)
    ensures 0 < possible < completed ==> p == 100
  {
    if possible == 0 then 0
    else if completed <= possible then
      RoundPercentAtMost100(completed, possible);
      Clamp(0, 100, RoundPercent(completed, possible))
    else
      RoundPercentAtLeast100(completed, possible);
      Clamp(0, 100, RoundPercent(completed, possible))
  }

  /** `Math.min` on reals. */
  function MinReal(a: real, b: real): real { if a <= b then a else b }

  /** `Math.round`: the integer nearest `x`, halves rounded up. */
  function RoundReal(x: real): (r: int)
    ensures r as real <= x + 0.5 < r as real + 1.0
  {
    (x + 0.5).Floor
  }

  /** Any one member of a non-empty set, as a `for ... of` loop visits the next one. */
  method PickOne<T>(s: set<T>) returns (x: T)
    requires s != {}
    ensures x in s
  {
    NonEmptyHasMember(s);
    x :| x in s;
  }

  /** A set other than the empty one has a member. */
  lemma NonEmptyHasMember<T>(s: set<T>)
    requires s != {}
    ensures exists x :: x in s
  {
    if forall x :: x !in s {
      assert false;
    }
  }

  /**
   * Visiting one more member `x` of the unvisited `rest`: the wanted members
   * seen so far grow by `x` exactly when it is wanted.
   */
  lemma DrawStep<T>(wanted: set<T>, rest: set<T>, x: T, hit: bool)
    requires x in rest
    requires hit <==> x in wanted
    ensures hit ==> x !in wanted - rest && wanted - (rest - {x}) == (wanted - rest) + {x}
    ensures hit ==> |wanted - (rest - {x})| == |wanted - rest| + 1
    ensures !hit ==> wanted - (rest - {x}) == wanted - rest
  {
    if hit {
      assert wanted - (rest - {x}) == (wanted - rest) + {x};
    } else {
      assert wanted - (rest - {x}) == wanted - rest;
    }
  }
}
