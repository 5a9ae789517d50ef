/** Finite sums of reals over sequences: the arithmetic behind every probability total. */
module Sums {

  function Sum<T>(xs: seq<T>, f: T -> real): real {
    if xs == [] then 0.0 else f(xs[0]) + Sum(xs[1..], f)
  }

  predicate Distinct<T(==)>(xs: seq<T>) {
    forall i, j :: 0 <= i < j < |xs| ==> xs[i] != xs[j]
  }

  /** `xs` without the first occurrence of `x` (Python's `list.remove`). */
  function Remove<T(==)>(xs: seq<T>, x: T): seq<T> {
    if xs == [] then []
    else if xs[0] == x then xs[1..]
    else [xs[0]] + Remove(xs[1..], x)
  }

  lemma DistinctCons<T>(x: T, xs: seq<T>)
    ensures Distinct([x] + xs) <==> Distinct(xs) && x !in xs
  {
    var all := [x] + xs;
    if Distinct(all) {
      forall i, j | 0 <= i < j < |xs| ensures xs[i] != xs[j] {
        assert all[i+1] != all[j+1];
      }
      forall i | 0 <= i < |xs| ensures xs[i] != x {
        assert all[0] != all[i+1];
      }
    }
  }

  lemma {:induction false} DistinctAppend<T>(xs: seq<T>, ys: seq<T>)
    requires Distinct(xs) && Distinct(ys)
    requires forall x :: x in xs ==> x !in ys
    ensures Distinct(xs + ys)
  {
    if xs == [] {
      assert xs + ys == ys;
    } else {
      assert xs == [xs[0]] + xs[1..];
      assert xs + ys == [xs[0]] + (xs[1..] + ys);
      DistinctCons(xs[0], xs[1..]);
      DistinctAppend(xs[1..], ys);
      DistinctCons(xs[0], xs[1..] + ys);
    }
  }

  lemma {:induction false} RemoveMembers<T>(xs: seq<T>, x: T)
    requires Distinct(xs)
    ensures Distinct(Remove(xs, x))
    ensures forall y :: y in Remove(xs, x) <==> y in xs && y != x
    ensures |Remove(xs, x)| == if x in xs then |xs| - 1 else |xs|
  {
    if xs == [] {
    } else {
      assert xs == [xs[0]] + xs[1..];
      if xs[0] != x {
        RemoveMembers(xs[1..], x);
        DistinctCons(xs[0], Remove(xs[1..], x));
      }
    }
  }

  lemma {:induction false} RemoveKeeps<T>(xs: seq<T>, x: T, y: T)
    requires Distinct(xs) && y in Remove(xs, x)
    ensures y in xs && y != x
  {
    RemoveMembers(xs, x);
  }

  lemma {:induction false} SumCongruent<T>(xs: seq<T>, f: T -> real, g: T -> real)
    requires forall x :: x in xs ==> f(x) == g(x)
    ensures Sum(xs, f) == Sum(xs, g)
  {
    if xs != [] {
      SumCongruent(xs[1..], f, g);
    }
  }

  lemma {:induction false} SumAppend<T>(xs: seq<T>, ys: seq<T>, f: T -> real)
    ensures Sum(xs + ys, f) == Sum(xs, f) + Sum(ys, f)
  {
    if xs == [] {
      assert xs + ys == ys;
    } else {
      assert (xs + ys)[1..] == xs[1..] + ys;
      SumAppend(xs[1..], ys, f);
    }
  }

  /** One more loop iteration adds one more term. */
  lemma SumUpTo<T>(xs: seq<T>, k: nat, f: T -> real)
    requires k < |xs|
    ensures Sum(xs[..k+1], f) == Sum(xs[..k], f) + f(xs[k])
  {
    assert xs[..k+1] == xs[..k] + [xs[k]];
    SumAppend(xs[..k], [xs[k]], f);
  }

  lemma {:induction false} SumZero<T>(xs: seq<T>, f: T -> real)
    requires forall x :: x in xs ==> f(x) == 0.0
    ensures Sum(xs, f) == 0.0
  {
    if xs != [] {
      SumZero(xs[1..], f);
    }
  }

  lemma {:induction false} SumLinear<T>(xs: seq<T>, c: real, f: T -> real, g: T -> real, h: T -> real)
    requires forall x :: x in xs ==> h(x) == c * f(x) + g(x)
    ensures Sum(xs, h) == c * Sum(xs, f) + Sum(xs, g)
  {
    if xs != [] {
      SumLinear(xs[1..], c, f, g, h);
    }
  }

  lemma SumScale<T>(xs: seq<T>, c: real, f: T -> real, h: T -> real)
    requires forall x :: x in xs ==> h(x) == c * f(x)
    ensures Sum(xs, h) == c * Sum(xs, f)
  {
    var zero := (x: T) => 0.0;
    SumZero(xs, zero);
    SumLinear(xs, c, f, zero, h);
  }

  /** Exactly one term is nonzero. */
  lemma {:induction false} SumSingle<T>(xs: seq<T>, t: T, f: T -> real)
    requires Distinct(xs)
    requires forall x :: x in xs && x != t ==> f(x) == 0.0
    ensures Sum(xs, f) == if t in xs then f(t) else 0.0
  {
    if xs != [] {
      assert xs == [xs[0]] + xs[1..];
      DistinctCons(xs[0], xs[1..]);
      SumSingle(xs[1..], t, f);
    }
  }

  /** Pulling one member out of a sum. */
  lemma {:induction false} SumRemove<T>(xs: seq<T>, x: T, f: T -> real)
    requires Distinct(xs) && x in xs
    ensures Sum(xs, f) == f(x) + Sum(Remove(xs, x), f)
  {
    assert xs == [xs[0]] + xs[1..];
    if xs[0] != x {
      SumRemove(xs[1..], x, f);
      assert Remove(xs, x)[1..] == Remove(xs[1..], x);
    }
  }

  /** Summing over a selection equals summing over the whole pool with the rest zeroed. */
  lemma {:induction false} SumSelection<T>(sel: seq<T>, pool: seq<T>, f: T -> real, g: T -> real)
    requires Distinct(sel) && Distinct(pool)
    requires forall x :: x in sel ==> x in pool
    requires forall x :: x in pool ==> g(x) == if x in sel then f(x) else 0.0
    ensures Sum(pool, g) == Sum(sel, f)
  {
    if sel == [] {
      SumZero(pool, g);
    } else {
      var s, rest := sel[0], sel[1..];
      assert sel == [s] + rest;
      assert forall x :: x in sel <==> x == s || x in rest;
      DistinctCons(s, rest);
      RemoveMembers(pool, s);
      SumRemove(pool, s, g);
      var g' := x => if x in rest then f(x) else 0.0;
      forall x: T | x in Remove(pool, s) ensures g(x) == g'(x) {
        RemoveKeeps(pool, s, x);
      }
      SumCongruent(Remove(pool, s), g, g');
      SumSelection(rest, Remove(pool, s), f, g');
    }
  }
}
