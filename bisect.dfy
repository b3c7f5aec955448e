/** Binary search over a sorted list of timestamps, as Python's `bisect`
    module performs it. */
module Bisect {

  predicate Sorted(a: seq<real>) {
    forall i, j :: 0 <= i <= j < |a| ==> a[i] <= a[j]
  }

  /** How many elements of `a` are strictly below `x`. */
  function CountBelow(a: seq<real>, x: real): (n: nat)
    ensures n <= |a|
  {
    if a == [] then 0
    else CountBelow(a[..|a| - 1], x) + (if a[|a| - 1] < x then 1 else 0)
  }

  /** How many elements of `a` are at most `x`. */
  function CountAtMost(a: seq<real>, x: real): (n: nat)
    ensures n <= |a|
  {
    if a == [] then 0
    else CountAtMost(a[..|a| - 1], x) + (if a[|a| - 1] <= x then 1 else 0)
  }

  /** In a sorted list, the point where the elements stop being below `x`
      is the number of elements below `x`. */
  lemma {:induction false} CountBelowIsSplit(a: seq<real>, x: real, k: nat)
    requires k <= |a|
    requires forall i :: 0 <= i < k ==> a[i] < x
    requires forall i :: k <= i < |a| ==> x <= a[i]
    ensures CountBelow(a, x) == k
  {
    if a != [] {
      var init := a[..|a| - 1];
      if k == |a| {
        CountBelowIsSplit(init, x, k - 1);
      } else {
        CountBelowIsSplit(init, x, k);
      }
    }
  }

  lemma {:induction false} CountAtMostIsSplit(a: seq<real>, x: real, k: nat)
    requires k <= |a|
    requires forall i :: 0 <= i < k ==> a[i] <= x
    requires forall i :: k <= i < |a| ==> x < a[i]
    ensures CountAtMost(a, x) == k
  {
    if a != [] {
      var init := a[..|a| - 1];
      if k == |a| {
        CountAtMostIsSplit(init, x, k - 1);
      } else {
        CountAtMostIsSplit(init, x, k);
      }
    }
  }

  /** `bisect.bisect_left(a, x)`: on a sorted list, the first position
      whose element is not below `x`. */
  method BisectLeft(a: seq<real>, x: real) returns (lo: nat)
    ensures lo <= |a|
    ensures Sorted(a) ==> (forall i :: 0 <= i < lo ==> a[i] < x)
    ensures Sorted(a) ==> (forall i :: lo <= i < |a| ==> x <= a[i])
    ensures Sorted(a) ==> lo == CountBelow(a, x)
  {
    lo := 0;
    var hi := |a|;
    while lo < hi
      invariant 0 <= lo <= hi <= |a|
      invariant Sorted(a) ==> forall i :: 0 <= i < lo ==> a[i] < x
      invariant Sorted(a) ==> forall i :: hi <= i < |a| ==> x <= a[i]
    {
      var mid := (lo + hi) / 2;
      if a[mid] < x {
        lo := mid + 1;
      } else {
        hi := mid;
      }
    }
    if Sorted(a) {
      CountBelowIsSplit(a, x, lo);
    }
  }

  /** `bisect.bisect(a, x)` (`bisect_right`): on a sorted list, the first
      position whose element is above `x`. */
  method BisectRight(a: seq<real>, x: real) returns (lo: nat)
    ensures lo <= |a|
    ensures Sorted(a) ==> (forall i :: 0 <= i < lo ==> a[i] <= x)
    ensures Sorted(a) ==> (forall i :: lo <= i < |a| ==> x < a[i])
    ensures Sorted(a) ==> lo == CountAtMost(a, x)
  {
    lo := 0;
    var hi := |a|;
    while lo < hi
      invariant 0 <= lo <= hi <= |a|
      invariant Sorted(a) ==> forall i :: 0 <= i < lo ==> a[i] <= x
      invariant Sorted(a) ==> forall i :: hi <= i < |a| ==> x < a[i]
    {
      var mid := (lo + hi) / 2;
      if x < a[mid] {
        hi := mid;
      } else {
        lo := mid + 1;
      }
    }
    if Sorted(a) {
      CountAtMostIsSplit(a, x, lo);
    }
  }

  /** On a sorted list, the elements below `x` are exactly the first
      `CountBelow(a, x)`. */
  lemma {:induction false} CountBelowSplits(a: seq<real>, x: real)
    requires Sorted(a)
    ensures forall i :: 0 <= i < CountBelow(a, x) ==> a[i] < x
    ensures forall i :: CountBelow(a, x) <= i < |a| ==> x <= a[i]
  {
    if a != [] {
      var init := a[..|a| - 1];
      CountBelowSplits(init, x);
      assert forall i :: 0 <= i < |init| ==> init[i] == a[i] <= a[|a| - 1];
    }
  }

  /** On a sorted list, the elements at most `x` are exactly the first
      `CountAtMost(a, x)`. */
  lemma {:induction false} CountAtMostSplits(a: seq<real>, x: real)
    requires Sorted(a)
    ensures forall i :: 0 <= i < CountAtMost(a, x) ==> a[i] <= x
    ensures forall i :: CountAtMost(a, x) <= i < |a| ==> x < a[i]
  {
    if a != [] {
      var init := a[..|a| - 1];
      CountAtMostSplits(init, x);
      assert forall i :: 0 <= i < |init| ==> init[i] == a[i] <= a[|a| - 1];
    }
  }
}
