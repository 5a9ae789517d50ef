/** Running totals, and sums over sorted sequences. */
module PrefixSums {
  import opened StableSort
  import opened Sums

  lemma {:induction false} SumInsert<T>(v: T, rows: seq<T>, key: Key<T>, f: T -> real)
    ensures Sum(Insert(v, rows, key), f) == Sum(rows, f) + f(v)
  {
    if rows == [] || Before(key(rows[|rows|-1]), key(v)) {
      SumSnoc(rows, v, f);
    } else {
      var n := |rows| - 1;
      SumInsert(v, rows[..n], key, f);
      SumSnoc(Insert(v, rows[..n], key), rows[n], f);
      assert rows == rows[..n] + [rows[n]];
      SumSnoc(rows[..n], rows[n], f);
    }
  }

  lemma SumSnoc<T>(xs: seq<T>, v: T, f: T -> real)
    ensures Sum(xs + [v], f) == Sum(xs, f) + f(v)
  {
    SumAppend(xs, [v], f);
    assert [v][1..] == [];
  }

  /** Sorting leaves every sum as it was. */
  lemma {:induction false} SumSort<T>(rows: seq<T>, key: Key<T>, f: T -> real)
    ensures Sum(SortBy(rows, key), f) == Sum(rows, f)
  {
    hide Insert;
    if rows != [] {
      var n := |rows| - 1;
      SumSort(rows[..n], key, f);
      SumInsert(rows[n], SortBy(rows[..n], key), key, f);
      assert rows == rows[..n] + [rows[n]];
      SumSnoc(rows[..n], rows[n], f);
    }
  }

  /** The elements of a sorted sequence before the insertion point of a bound are what lies below it, sorted. */
  lemma PrefixIsBelow<T>(rows: seq<T>, key: Key<T>, bound: int, count: nat)
    requires var sorted := SortBy(rows, key);
      && count <= |sorted|
      && (forall i :: 0 <= i < count ==> key(sorted[i]).0 < bound)
      && (forall i :: count <= i < |sorted| ==> key(sorted[i]).0 >= bound)
    ensures SortBy(rows, key)[..count] == SortBy(Below(rows, key, bound), key)
  {
    hide SortBy, Below;
    var sorted := SortBy(rows, key);
    SortBySorts(rows, key);
    BelowSort(rows, key, bound);
    BelowPrefix(sorted, key, bound, count);
    BelowAll(sorted[..count], key, bound);
  }

  lemma SortedSize<T>(rows: seq<T>, key: Key<T>)
    ensures |SortBy(rows, key)| == |rows|
  {
    SortBySorts(rows, key);
    assert |multiset(SortBy(rows, key))| == |multiset(rows)|;
  }

  /** `[0] + cumsum` */
  method Cumulate<T>(xs: seq<T>, f: T -> real) returns (sums: seq<real>)
    ensures |sums| == |xs| + 1 && forall k :: 0 <= k <= |xs| ==> sums[k] == Sum(xs[..k], f)
  {
    sums := [0.0];
    for k := 0 to |xs|
      invariant |sums| == k + 1 && forall j :: 0 <= j <= k ==> sums[j] == Sum(xs[..j], f)
    {
      SumUpTo(xs, k, f);
      sums := sums + [sums[k] + f(xs[k])];
    }
  }
}
