/** Binary search for where a value belongs among sorted integers. */
module Bisection {

  ghost predicate Ascending(xs: seq<int>) {
    forall i, j :: 0 <= i <= j < |xs| ==> xs[i] <= xs[j]
  }

  method BisectLeft(xs: seq<int>, x: int) returns (k: nat)
    requires Ascending(xs)
    ensures k <= |xs| && (forall i :: 0 <= i < k ==> xs[i] < x) && (forall i :: k <= i < |xs| ==> x <= xs[i])
  {
    var lo, hi := 0, |xs|;
    while lo < hi
      invariant 0 <= lo <= hi <= |xs|
      invariant forall i :: 0 <= i < lo ==> xs[i] < x
      invariant forall i :: hi <= i < |xs| ==> x <= xs[i]
    {
      var mid := (lo + hi) / 2;
      if xs[mid] < x { lo := mid + 1; } else { hi := mid; }
    }
    k := lo;
  }

  method BisectRight(xs: seq<int>, x: int) returns (k: nat)
    requires Ascending(xs)
    ensures k <= |xs| && (forall i :: 0 <= i < k ==> xs[i] <= x) && (forall i :: k <= i < |xs| ==> x < xs[i])
  {
    var lo, hi := 0, |xs|;
    while lo < hi
      invariant 0 <= lo <= hi <= |xs|
      invariant forall i :: 0 <= i < lo ==> xs[i] <= x
      invariant forall i :: hi <= i < |xs| ==> x < xs[i]
    {
      var mid := (lo + hi) / 2;
      if x < xs[mid] { hi := mid; } else { lo := mid + 1; }
    }
    k := lo;
  }
}
