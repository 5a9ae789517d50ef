/** Adjusted p-values by the step-up procedure (ima/feature_analysis.py). */
module BenjaminiHochberg {
  import opened Products
  import opened Sums

  datatype Option<+T> = None | Some(value: T)

  /** `order` lists the finite positions by increasing p-value; ties in any order. */
  ghost predicate IsOrder(p: seq<Option<real>>, order: seq<nat>) {
    && (forall j :: 0 <= j < |order| ==> order[j] < |p| && p[order[j]].Some?)
    && (forall i: nat :: i < |p| && p[i].Some? ==> i in order)
    && Distinct(order)
    && (forall j, k :: 0 <= j <= k < |order| ==> p[order[j]].value <= p[order[k]].value)
  }

  function At(p: seq<Option<real>>, order: seq<nat>, k: nat): real
    requires k < |order| && order[k] < |p| && p[order[k]].Some?
  {
    p[order[k]].value
  }

  /** `p * m / rank` for the rank `k + 1`. */
  function Scaled(x: real, m: nat, k: nat): real { x * m as real / (k + 1) as real }

  function Least(a: real, b: real): real { if a <= b then a else b }

  function Clip(x: real): real { if x < 0.0 then 0.0 else if x > 1.0 then 1.0 else x }

  /** The least scaled value from rank `k + 1` on. */
  ghost function SuffixLeast(p: seq<Option<real>>, order: seq<nat>, k: nat): real
    requires IsOrder(p, order) && k < |order|
    decreases |order| - k
  {
    var here := Scaled(At(p, order, k), |order|, k);
    if k + 1 == |order| then here else Least(SuffixLeast(p, order, k + 1), here)
  }

  /** The adjusted value of the position at rank `k + 1`. */
  ghost function Adjusted(p: seq<Option<real>>, order: seq<nat>, k: nat): real
    requires IsOrder(p, order) && k < |order|
  {
    Clip(SuffixLeast(p, order, k))
  }

  /** `benjamini_hochberg`, given the sorting permutation: scale, running minimum from the right, clip, scatter. */
  method Adjust(p: seq<Option<real>>, order: seq<nat>) returns (adjusted: array<Option<real>>)
    requires IsOrder(p, order)
    ensures fresh(adjusted) && adjusted.Length == |p|
    ensures forall i :: 0 <= i < |p| && p[i].None? ==> adjusted[i].None?
    ensures forall k :: 0 <= k < |order| ==> order[k] < |p| && adjusted[order[k]] == Some(Adjusted(p, order, k))
  {
    hide SuffixLeast, Scaled;
    var m := |order|;
    var ranked := new real[m];
    for k := 0 to m
      invariant forall j :: 0 <= j < k ==> ranked[j] == Scaled(At(p, order, j), m, j)
    {
      ranked[k] := Scaled(At(p, order, k), m, k);
    }
    for n := m downto 0
      invariant forall j :: 0 <= j < n ==> ranked[j] == Scaled(At(p, order, j), m, j)
      invariant forall j :: n <= j < m ==> ranked[j] == SuffixLeast(p, order, j)
    {
      SuffixStep(p, order, n);
      if n + 1 < m { ranked[n] := Least(ranked[n + 1], ranked[n]); }
    }
    adjusted := new Option<real>[|p|](i => None);
    for k := 0 to m
      invariant forall j :: 0 <= j < m ==> ranked[j] == SuffixLeast(p, order, j)
      invariant forall j :: 0 <= j < k ==> adjusted[order[j]] == Some(Adjusted(p, order, j))
      invariant forall i :: 0 <= i < |p| && p[i].None? ==> adjusted[i].None?
    {
      assert forall j :: 0 <= j < k ==> order[j] != order[k];
      adjusted[order[k]] := Some(Clip(ranked[k]));
    }
  }

  lemma SuffixStep(p: seq<Option<real>>, order: seq<nat>, k: nat)
    requires IsOrder(p, order) && k < |order|
    ensures order[k] < |p| && p[order[k]].Some?
    ensures SuffixLeast(p, order, k) ==
      if k + 1 == |order| then Scaled(At(p, order, k), |order|, k)
      else Least(SuffixLeast(p, order, k + 1), Scaled(At(p, order, k), |order|, k))
  {}

  // ---- products and quotients ----

  lemma ScaledOrder(x: real, m: nat, k: nat, alpha: real)
    ensures Scaled(x, m, k) <= alpha <==> x * m as real <= alpha * (k + 1) as real
  {
    QuotientOrder(x * m as real, (k + 1) as real, alpha);
  }

  // ---- the threshold ----

  /** Rank `j + 1` meets the step-up bound at level `alpha`. */
  ghost predicate Meets(p: seq<Option<real>>, order: seq<nat>, j: nat, alpha: real)
    requires IsOrder(p, order)
  {
    j < |order| && At(p, order, j) * |order| as real <= alpha * (j + 1) as real
  }

  /** Some rank from `k + 1` on meets it. */
  ghost predicate SomeMeets(p: seq<Option<real>>, order: seq<nat>, k: nat, alpha: real)
    requires IsOrder(p, order)
  {
    exists j: nat :: k <= j && Meets(p, order, j, alpha)
  }

  lemma SomeMeetsStep(p: seq<Option<real>>, order: seq<nat>, k: nat, alpha: real)
    requires IsOrder(p, order) && k < |order|
    ensures SomeMeets(p, order, k, alpha) <==> Meets(p, order, k, alpha) || (k + 1 < |order| && SomeMeets(p, order, k + 1, alpha))
  {
    hide IsOrder;
    if SomeMeets(p, order, k, alpha) {
      var j: nat :| k <= j && Meets(p, order, j, alpha);
      assert j == k || k + 1 <= j;
    }
    if k + 1 < |order| && SomeMeets(p, order, k + 1, alpha) {
      var j: nat :| k + 1 <= j && Meets(p, order, j, alpha);
      assert k <= j;
    }
  }

  lemma MeetsScaled(p: seq<Option<real>>, order: seq<nat>, k: nat, alpha: real)
    requires IsOrder(p, order) && k < |order|
    ensures Meets(p, order, k, alpha) <==> Scaled(At(p, order, k), |order|, k) <= alpha
  {
    hide Scaled;
    ScaledOrder(At(p, order, k), |order|, k, alpha);
  }

  lemma {:induction false} SuffixMeets(p: seq<Option<real>>, order: seq<nat>, k: nat, alpha: real)
    requires IsOrder(p, order) && k < |order|
    ensures SuffixLeast(p, order, k) <= alpha <==> SomeMeets(p, order, k, alpha)
    decreases |order| - k
  {
    hide Scaled, Meets, SomeMeets;
    SuffixStep(p, order, k);
    MeetsScaled(p, order, k, alpha);
    SomeMeetsStep(p, order, k, alpha);
    if k + 1 < |order| { SuffixMeets(p, order, k + 1, alpha); }
  }

  ghost predicate Probabilities(p: seq<Option<real>>) {
    forall i :: 0 <= i < |p| && p[i].Some? ==> 0.0 <= p[i].value <= 1.0
  }

  /** The step-up theorem: a position is significant at `alpha` exactly when some rank meets the bound with a
      p-value at least its own. */
  lemma SignificantExactly(p: seq<Option<real>>, order: seq<nat>, k: nat, alpha: real)
    requires IsOrder(p, order) && k < |order| && (0.0 <= alpha < 1.0 || Probabilities(p))
    ensures Adjusted(p, order, k) <= alpha <==>
              exists j: nat :: j < |order| && Meets(p, order, j, alpha) && At(p, order, k) <= At(p, order, j)
  {
    hide SuffixLeast, Meets;
    SuffixMeets(p, order, k, alpha);
    ClipMatters(p, order, k, alpha);
    if Adjusted(p, order, k) <= alpha {
      var j := Witness(p, order, k, alpha);
    }
    if j: nat :| j < |order| && Meets(p, order, j, alpha) && At(p, order, k) <= At(p, order, j) {
      if j < k {
        EarlierTie(p, order, j, k, alpha);
        assert k <= k;
      } else {
        assert k <= j;
      }
    }
  }

  lemma Witness(p: seq<Option<real>>, order: seq<nat>, k: nat, alpha: real) returns (j: nat)
    requires IsOrder(p, order) && k < |order| && SomeMeets(p, order, k, alpha)
    ensures j < |order| && Meets(p, order, j, alpha) && At(p, order, k) <= At(p, order, j)
  {
    j :| k <= j && Meets(p, order, j, alpha);
  }

  /** Clipping only matters at levels where every position is significant, or none. */
  lemma ClipMatters(p: seq<Option<real>>, order: seq<nat>, k: nat, alpha: real)
    requires IsOrder(p, order) && k < |order| && (0.0 <= alpha < 1.0 || Probabilities(p))
    ensures Adjusted(p, order, k) <= alpha <==> SuffixLeast(p, order, k) <= alpha
  {
    hide SuffixLeast;
    if Probabilities(p) { SuffixBounds(p, order, k); }
  }

  /** An earlier tie that meets the bound brings the later rank under it too. */
  lemma EarlierTie(p: seq<Option<real>>, order: seq<nat>, j: nat, k: nat, alpha: real)
    requires IsOrder(p, order) && j < k < |order| && Meets(p, order, j, alpha) && At(p, order, k) <= At(p, order, j)
    requires 0.0 <= alpha < 1.0 || Probabilities(p)
    ensures Meets(p, order, k, alpha)
  {
    var x, m := At(p, order, j), |order| as real;
    assert At(p, order, k) == x;
    if alpha >= 0.0 {
      MulLe(alpha, (j + 1) as real, (k + 1) as real);
    } else {
      MulLe(m, 0.0, x);
      MulLt((j + 1) as real, alpha, 0.0);
      assert false;
    }
  }

  /** For probabilities the scaled values lie between the p-value and one at the last rank. */
  lemma {:induction false} SuffixBounds(p: seq<Option<real>>, order: seq<nat>, k: nat)
    requires IsOrder(p, order) && k < |order| && Probabilities(p)
    ensures At(p, order, k) <= SuffixLeast(p, order, k) <= 1.0
    decreases |order| - k
  {
    hide Scaled;
    SuffixStep(p, order, k);
    ScaledAtLeast(At(p, order, k), |order|, k);
    if k + 1 == |order| {
      ScaledLast(At(p, order, k), |order|, k);
    } else {
      SuffixBounds(p, order, k + 1);
    }
  }

  lemma ScaledAtLeast(x: real, m: nat, k: nat)
    requires x >= 0.0 && k < m
    ensures Scaled(x, m, k) >= x
  {
    QuotientOrder(x * m as real, (k + 1) as real, x);
    MulLe(x, (k + 1) as real, m as real);
  }

  lemma ScaledLast(x: real, m: nat, k: nat)
    requires k + 1 == m
    ensures Scaled(x, m, k) == x
  {
    QuotientOrder(x * m as real, (k + 1) as real, x);
  }

  /** Adjusted probabilities lie between the p-value and one. */
  lemma AdjustedBounds(p: seq<Option<real>>, order: seq<nat>, k: nat)
    requires IsOrder(p, order) && k < |order| && Probabilities(p)
    ensures At(p, order, k) <= Adjusted(p, order, k) <= 1.0
  {
    hide SuffixLeast;
    SuffixBounds(p, order, k);
  }

  /** Smaller p-values never get larger adjusted values; in particular ties get equal ones. */
  lemma OrderPreserved(p: seq<Option<real>>, order: seq<nat>, j: nat, k: nat)
    requires IsOrder(p, order) && j < |order| && k < |order| && At(p, order, j) <= At(p, order, k)
    ensures Adjusted(p, order, j) <= Adjusted(p, order, k)
  {
    hide SuffixLeast, Meets, Adjusted;
    var alpha := Adjusted(p, order, k);
    assert 0.0 <= alpha <= 1.0 && Adjusted(p, order, j) <= 1.0 by { AdjustedClipped(p, order, j); AdjustedClipped(p, order, k); }
    if alpha < 1.0 {
      SignificantExactly(p, order, k, alpha);
      SignificantExactly(p, order, j, alpha);
      var r: nat :| r < |order| && Meets(p, order, r, alpha) && At(p, order, k) <= At(p, order, r);
      assert Meets(p, order, r, alpha) && At(p, order, j) <= At(p, order, r);
    }
  }

  lemma AdjustedClipped(p: seq<Option<real>>, order: seq<nat>, k: nat)
    requires IsOrder(p, order) && k < |order|
    ensures 0.0 <= Adjusted(p, order, k) <= 1.0
  {
    hide SuffixLeast;
  }

  // ---- ties may be sorted either way ----

  lemma {:induction false} DistinctSize(xs: seq<nat>)
    requires Distinct(xs)
    ensures |SetOf(xs)| == |xs|
  {
    if xs != [] {
      var n := |xs| - 1;
      DistinctSize(xs[..n]);
      assert SetOf(xs) == SetOf(xs[..n]) + {xs[n]};
    }
  }

  ghost function SetOf(xs: seq<nat>): set<nat> {
    set x | x in xs
  }

  lemma SubsetSize(a: set<nat>, b: set<nat>)
    requires a <= b
    ensures |a| <= |b|
  {
    assert b == a + (b - a);
  }

  /** Two sorting permutations give the same sorted values. */
  lemma SortedNotAbove(p: seq<Option<real>>, order: seq<nat>, other: seq<nat>, k: nat)
    requires IsOrder(p, order) && IsOrder(p, other) && k < |order| && k < |other|
    ensures At(p, order, k) >= At(p, other, k)
  {
    if At(p, order, k) < At(p, other, k) {
      var mine, theirs := order[..k + 1], other[..k];
      forall i | i in mine ensures i in theirs {
        var a :| 0 <= a < k + 1 && order[a] == i;
        assert i in other;
        var b :| 0 <= b < |other| && other[b] == i;
        assert b < k;
        assert theirs[b] == i;
      }
      DistinctSize(mine);
      DistinctSize(theirs);
      SubsetSize(SetOf(mine), SetOf(theirs));
      assert false;
    }
  }

  lemma SameSize(p: seq<Option<real>>, order: seq<nat>, other: seq<nat>)
    requires IsOrder(p, order) && IsOrder(p, other)
    ensures |order| == |other|
  {
    forall i: nat ensures i in order <==> i in other {}
    DistinctSize(order);
    DistinctSize(other);
    assert SetOf(order) == SetOf(other);
  }

  lemma {:induction false} SuffixSame(p: seq<Option<real>>, order: seq<nat>, other: seq<nat>, k: nat)
    requires IsOrder(p, order) && IsOrder(p, other) && |order| == |other| && k < |order|
    ensures SuffixLeast(p, order, k) == SuffixLeast(p, other, k)
    decreases |order| - k
  {
    hide Scaled;
    SuffixStep(p, order, k);
    SuffixStep(p, other, k);
    SortedNotAbove(p, order, other, k);
    SortedNotAbove(p, other, order, k);
    if k + 1 < |order| { SuffixSame(p, order, other, k + 1); }
  }

  /** However the sort breaks ties, every position gets the same adjusted value. */
  lemma TieOrderIrrelevant(p: seq<Option<real>>, order: seq<nat>, other: seq<nat>, j: nat, k: nat)
    requires IsOrder(p, order) && IsOrder(p, other) && j < |order| && k < |other| && order[j] == other[k]
    ensures Adjusted(p, order, j) == Adjusted(p, other, k)
  {
    hide SuffixLeast;
    SameSize(p, order, other);
    SuffixSame(p, order, other, k);
    SortedNotAbove(p, order, other, k);
    SortedNotAbove(p, other, order, k);
    assert Adjusted(p, order, k) == Adjusted(p, other, k);
    OrderPreserved(p, order, j, k);
    OrderPreserved(p, order, k, j);
  }
}
