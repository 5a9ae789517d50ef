/** Stable sorting by a pair of integers, and the part of a sequence below a bound. */
module StableSort {

  type Key<!T> = T -> (int, int)

  predicate Before(a: (int, int), b: (int, int)) {
    a.0 < b.0 || (a.0 == b.0 && a.1 <= b.1)
  }

  ghost predicate Sorted<T>(rows: seq<T>, key: Key<T>) {
    forall i, j :: 0 <= i <= j < |rows| ==> Before(key(rows[i]), key(rows[j]))
  }

  /** After everything not greater. */
  function Insert<T>(v: T, rows: seq<T>, key: Key<T>): seq<T> {
    if rows == [] || Before(key(rows[|rows|-1]), key(v)) then rows + [v]
    else Insert(v, rows[..|rows|-1], key) + [rows[|rows|-1]]
  }

  function SortBy<T>(rows: seq<T>, key: Key<T>): seq<T> {
    if rows == [] then [] else Insert(rows[|rows|-1], SortBy(rows[..|rows|-1], key), key)
  }

  /** The elements whose first key is below the bound, in order. */
  function Below<T>(rows: seq<T>, key: Key<T>, bound: int): seq<T> {
    if rows == [] then []
    else
      var below := Below(rows[..|rows|-1], key, bound);
      if key(rows[|rows|-1]).0 < bound then below + [rows[|rows|-1]] else below
  }

  // ---- sorting sorts ----

  lemma {:induction false} InsertMember<T>(v: T, rows: seq<T>, key: Key<T>, w: T)
    ensures w in Insert(v, rows, key) <==> w == v || w in rows
  {
    if rows != [] && !Before(key(rows[|rows|-1]), key(v)) {
      InsertMember(v, rows[..|rows|-1], key, w);
      assert rows == rows[..|rows|-1] + [rows[|rows|-1]];
    }
  }

  lemma {:induction false} InsertSorted<T>(v: T, rows: seq<T>, key: Key<T>)
    requires Sorted(rows, key)
    ensures Sorted(Insert(v, rows, key), key)
  {
    if rows != [] && !Before(key(rows[|rows|-1]), key(v)) {
      var n := |rows| - 1;
      InsertSorted(v, rows[..n], key);
      var s := Insert(v, rows[..n], key);
      forall i | 0 <= i < |s| ensures Before(key(s[i]), key(rows[n])) {
        assert s[i] in s;
        if s[i] != v {
          InsertMember(v, rows[..n], key, s[i]);
          var j :| 0 <= j < n && rows[..n][j] == s[i];
          assert Before(key(rows[j]), key(rows[n]));
        }
      }
    }
  }

  lemma {:induction false} InsertCounts<T>(v: T, rows: seq<T>, key: Key<T>)
    ensures multiset(Insert(v, rows, key)) == multiset(rows) + multiset{v}
  {
    if rows != [] && !Before(key(rows[|rows|-1]), key(v)) {
      var n := |rows| - 1;
      InsertCounts(v, rows[..n], key);
      assert rows == rows[..n] + [rows[n]];
    }
  }

  lemma {:induction false} SortBySorts<T>(rows: seq<T>, key: Key<T>)
    ensures Sorted(SortBy(rows, key), key)
    ensures multiset(SortBy(rows, key)) == multiset(rows)
  {
    if rows != [] {
      var n := |rows| - 1;
      SortBySorts(rows[..n], key);
      InsertSorted(rows[n], SortBy(rows[..n], key), key);
      InsertCounts(rows[n], SortBy(rows[..n], key), key);
      assert rows == rows[..n] + [rows[n]];
    }
  }

  lemma SortByMember<T>(rows: seq<T>, key: Key<T>, w: T)
    ensures w in SortBy(rows, key) <==> w in rows
  {
    SortBySorts(rows, key);
    assert w in SortBy(rows, key) <==> w in multiset(SortBy(rows, key));
    assert w in rows <==> w in multiset(rows);
  }

  // ---- the part below a bound ----

  lemma BelowSnoc<T>(rows: seq<T>, v: T, key: Key<T>, bound: int)
    ensures Below(rows + [v], key, bound) == if key(v).0 < bound then Below(rows, key, bound) + [v] else Below(rows, key, bound)
  {}

  lemma {:induction false} BelowMember<T>(rows: seq<T>, key: Key<T>, bound: int, v: T)
    ensures v in Below(rows, key, bound) <==> v in rows && key(v).0 < bound
  {
    if rows != [] {
      BelowMember(rows[..|rows|-1], key, bound, v);
      assert rows == rows[..|rows|-1] + [rows[|rows|-1]];
    }
  }

  lemma {:induction false} BelowAll<T>(rows: seq<T>, key: Key<T>, bound: int)
    requires forall i :: 0 <= i < |rows| ==> key(rows[i]).0 < bound
    ensures Below(rows, key, bound) == rows
  {
    if rows != [] { BelowAll(rows[..|rows|-1], key, bound); }
  }

  /** In a sorted sequence it is a prefix, ending before the first element that is not below. */
  lemma {:induction false} BelowPrefix<T>(rows: seq<T>, key: Key<T>, bound: int, n: nat)
    requires Sorted(rows, key) && n <= |rows| && (n < |rows| ==> key(rows[n]).0 >= bound)
    ensures Below(rows, key, bound) == Below(rows[..n], key, bound)
  {
    if n == |rows| {
      assert rows[..n] == rows;
    } else {
      var m := |rows| - 1;
      assert Before(key(rows[n]), key(rows[m]));
      assert rows[..m][..n] == rows[..n];
      BelowPrefix(rows[..m], key, bound, n);
    }
  }

  lemma InsertBeforeLast<T>(v: T, rows: seq<T>, last: T, key: Key<T>)
    requires !Before(key(last), key(v))
    ensures Insert(v, rows + [last], key) == Insert(v, rows, key) + [last]
  {}

  lemma {:induction false} BelowInsert<T>(v: T, rows: seq<T>, key: Key<T>, bound: int)
    requires Sorted(rows, key)
    ensures Below(Insert(v, rows, key), key, bound)
         == if key(v).0 < bound then Insert(v, Below(rows, key, bound), key) else Below(rows, key, bound)
  {
    hide Below;
    var n := |rows| - 1;
    if rows == [] || Before(key(rows[n]), key(v)) {
      BelowSnoc(rows, v, key, bound);
      var below := Below(rows, key, bound);
      if key(v).0 < bound {
        if below != [] {
          assert below[|below|-1] in below;
          BelowMember(rows, key, bound, below[|below|-1]);
          var j :| 0 <= j < |rows| && rows[j] == below[|below|-1];
          assert Before(key(rows[j]), key(rows[n]));
        }
      }
    } else {
      BelowInsert(v, rows[..n], key, bound);
      BelowSnoc(Insert(v, rows[..n], key), rows[n], key, bound);
      assert rows == rows[..n] + [rows[n]];
      BelowSnoc(rows[..n], rows[n], key, bound);
      if key(rows[n]).0 < bound { InsertBeforeLast(v, Below(rows[..n], key, bound), rows[n], key); }
    }
  }

  /** Sorting and keeping what is below a bound commute. */
  lemma {:induction false} BelowSort<T>(rows: seq<T>, key: Key<T>, bound: int)
    ensures Below(SortBy(rows, key), key, bound) == SortBy(Below(rows, key, bound), key)
  {
    hide Insert;
    if rows != [] {
      var n := |rows| - 1;
      BelowSort(rows[..n], key, bound);
      SortBySorts(rows[..n], key);
      BelowInsert(rows[n], SortBy(rows[..n], key), key, bound);
    }
  }
}
