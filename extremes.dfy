/**
 * Selections over a list of scores: the `reduce` with a strict comparison
 * that keeps the first best, and the tail of a stable descending sort.
 */
module Extremes {

  /** Index kept by `reduce((best, x) => x > best ? x : best, xs[0])` over the first `n` scores. */
  function FirstMaxOf(xs: seq<int>, n: nat): (i: nat)
    requires 0 < n <= |xs|
    ensures i < n
    ensures forall j :: 0 <= j < n ==> xs[j] <= xs[i]
    ensures forall j :: 0 <= j < i ==> xs[j] < xs[i]
  {
    if n == 1 then 0
    else
      var i := FirstMaxOf(xs, n - 1);
      if xs[n - 1] > xs[i] then n - 1 else i
  }

  /** The first position holding the largest score. */
  function FirstMax(xs: seq<int>): (i: nat)
    requires |xs| > 0
    ensures i < |xs|
    ensures forall j :: 0 <= j < |xs| ==> xs[j] <= xs[i]
    ensures forall j :: 0 <= j < i ==> xs[j] < xs[i]
  {
    FirstMaxOf(xs, |xs|)
  }

  /** Index kept by `reduce((worst, x) => x < worst ? x : worst, xs[0])` over the first `n` scores. */
  function FirstMinOf(xs: seq<int>, n: nat): (i: nat)
    requires 0 < n <= |xs|
    ensures i < n
    ensures forall j :: 0 <= j < n ==> xs[i] <= xs[j]
    ensures forall j :: 0 <= j < i ==> xs[i] < xs[j]
  {
    if n == 1 then 0
    else
      var i := FirstMinOf(xs, n - 1);
      if xs[n - 1] < xs[i] then n - 1 else i
  }

  /** The first position holding the smallest score. */
  function FirstMin(xs: seq<int>): (i: nat)
    requires |xs| > 0
    ensures i < |xs|
    ensures forall j :: 0 <= j < |xs| ==> xs[i] <= xs[j]
    ensures forall j :: 0 <= j < i ==> xs[i] < xs[j]
  {
    FirstMinOf(xs, |xs|)
  }

  /**
   * The last position holding the smallest score: where a stable sort by
   * descending score puts its last element.
   */
  function LastMinOf(xs: seq<int>, n: nat): (i: nat)
    requires 0 < n <= |xs|
    ensures i < n
    ensures forall j :: 0 <= j < n ==> xs[i] <= xs[j]
    ensures forall j :: i < j < n ==> xs[i] < xs[j]
  {
    if n == 1 then 0
    else
      var i := LastMinOf(xs, n - 1);
      if xs[n - 1] <= xs[i] then n - 1 else i
  }

  function LastMin(xs: seq<int>): (i: nat)
    requires |xs| > 0
    ensures i < |xs|
    ensures forall j :: 0 <= j < |xs| ==> xs[i] <= xs[j]
    ensures forall j :: i < j < |xs| ==> xs[i] < xs[j]
  {
    LastMinOf(xs, |xs|)
  }

  /** The largest score, 0 for none: a running maximum started at 0. */
  function MaxOrZero(xs: seq<int>): (m: int)
    ensures m >= 0
    ensures forall j :: 0 <= j < |xs| ==> xs[j] <= m
    ensures m == 0 || exists j :: 0 <= j < |xs| && xs[j] == m
  {
    if xs == [] then 0
    else
      var m := MaxOrZero(xs[..|xs| - 1]);
      assert forall j :: 0 <= j < |xs| - 1 ==> xs[..|xs| - 1][j] == xs[j];
      if xs[|xs| - 1] > m then xs[|xs| - 1] else m
  }

  /** One more score moves the running maximum only when it is larger. */
  lemma MaxOrZeroPush(xs: seq<int>, i: nat)
    requires i < |xs|
    ensures MaxOrZero(xs[..i + 1]) == if xs[i] > MaxOrZero(xs[..i]) then xs[i] else MaxOrZero(xs[..i])
  {
    assert xs[..i + 1][..i] == xs[..i];
  }
}
