/** The index enumerations of Python's `itertools`, as sequences in the order they are produced. */
module Enumerations {
  import opened Sums

  /** `list(range(n))` */
  function Range(n: nat): seq<nat> {
    seq(n, i => i)
  }

  /** The position of `x` in `xs`. */
  function Index<T(==)>(xs: seq<T>, x: T): (i: nat)
    requires x in xs
    ensures i < |xs| && xs[i] == x
  {
    if xs[0] == x then 0 else 1 + Index(xs[1..], x)
  }

  predicate Within<T(==)>(order: seq<T>, pool: seq<T>) {
    forall x :: x in order ==> x in pool
  }

  /** An order is a choice of `r` distinct members of the pool. */
  predicate IsOrder<T(==)>(pool: seq<T>, r: nat, order: seq<T>) {
    |order| == r && Distinct(order) && Within(order, pool)
  }

  function Prepend<T>(x: T, orders: seq<seq<T>>): (r: seq<seq<T>>)
    ensures |r| == |orders|
    ensures forall i :: 0 <= i < |r| ==> r[i] == [x] + orders[i]
  {
    seq(|orders|, i requires 0 <= i < |orders| => [x] + orders[i])
  }

  /** `itertools.permutations(pool, r)` */
  function Permutations<T(==)>(pool: seq<T>, r: nat): seq<seq<T>>
    decreases r, |pool| + 1
  {
    if r == 0 then [[]] else PermutationsFrom(pool, pool, r)
  }

  /** The permutations that start with one of `heads`, in order. */
  function PermutationsFrom<T(==)>(heads: seq<T>, pool: seq<T>, r: nat): seq<seq<T>>
    requires r > 0
    decreases r, |heads|
  {
    if heads == [] then []
    else Prepend(heads[0], Permutations(Remove(pool, heads[0]), r - 1)) + PermutationsFrom(heads[1..], pool, r)
  }

  /** `itertools.combinations(pool, r)` */
  function Combinations<T>(pool: seq<T>, r: nat): seq<seq<T>> {
    if r == 0 then [[]]
    else if pool == [] then []
    else Prepend(pool[0], Combinations(pool[1..], r - 1)) + Combinations(pool[1..], r)
  }

  lemma {:induction false} PrependMembers<T>(x: T, orders: seq<seq<T>>, o: seq<T>)
    ensures o in Prepend(x, orders) <==> |o| > 0 && o[0] == x && o[1..] in orders
  {
    if |o| > 0 && o[0] == x && o[1..] in orders {
      var i :| 0 <= i < |orders| && orders[i] == o[1..];
      assert Prepend(x, orders)[i] == o;
    }
    if o in Prepend(x, orders) {
      var i :| 0 <= i < |orders| && Prepend(x, orders)[i] == o;
      assert o[1..] == orders[i];
    }
  }

  /** The enumeration yields exactly the orders: nothing invented, nothing missed. */
  lemma {:induction false} PermutationsAreOrders<T>(pool: seq<T>, r: nat, o: seq<T>)
    requires Distinct(pool)
    ensures o in Permutations(pool, r) <==> IsOrder(pool, r, o)
    decreases r, |pool| + 1
  {
    if r > 0 {
      PermutationsFromAreOrders(pool, pool, r, o);
    } else if o in Permutations(pool, r) || IsOrder(pool, r, o) {
      assert o == [];
    }
  }

  lemma {:induction false} PermutationsFromAreOrders<T>(heads: seq<T>, pool: seq<T>, r: nat, o: seq<T>)
    requires Distinct(pool) && Within(heads, pool) && r > 0
    ensures o in PermutationsFrom(heads, pool, r) <==> IsOrder(pool, r, o) && o[0] in heads
    decreases r, |heads|
  {
    if heads != [] {
      var rest := Remove(pool, heads[0]);
      RemoveMembers(pool, heads[0]);
      PermutationsFromAreOrders(heads[1..], pool, r, o);
      PrependMembers(heads[0], Permutations(rest, r - 1), o);
      if |o| > 0 && o[0] == heads[0] {
        assert o == [o[0]] + o[1..];
        PermutationsAreOrders(rest, r - 1, o[1..]);
        assert IsOrder(pool, r, o) <==> IsOrder(rest, r - 1, o[1..]);
      }
    }
  }

  function After<T>(x: T, f: seq<T> -> real): seq<T> -> real {
    (o: seq<T>) => f([x] + o)
  }

  lemma {:induction false} SumPrepend<T>(x: T, orders: seq<seq<T>>, f: seq<T> -> real)
    ensures Sum(Prepend(x, orders), f) == Sum(orders, After(x, f))
  {
    if orders != [] {
      assert Prepend(x, orders)[1..] == Prepend(x, orders[1..]);
      SumPrepend(x, orders[1..], f);
    }
  }

  /** Splitting a sum over all orders by the first choice. */
  lemma SumPermutations<T>(pool: seq<T>, r: nat, f: seq<T> -> real, byHead: T -> real)
    requires r > 0
    requires forall x :: x in pool ==> byHead(x) == Sum(Permutations(Remove(pool, x), r - 1), After(x, f))
    ensures Sum(Permutations(pool, r), f) == Sum(pool, byHead)
  {
    SumPermutationsFrom(pool, pool, r, f, byHead);
  }

  lemma {:induction false} SumPermutationsFrom<T>(heads: seq<T>, pool: seq<T>, r: nat, f: seq<T> -> real, byHead: T -> real)
    requires r > 0
    requires forall x :: x in heads ==> byHead(x) == Sum(Permutations(Remove(pool, x), r - 1), After(x, f))
    ensures Sum(PermutationsFrom(heads, pool, r), f) == Sum(heads, byHead)
  {
    if heads != [] {
      var first := Permutations(Remove(pool, heads[0]), r - 1);
      SumPermutationsFrom(heads[1..], pool, r, f, byHead);
      SumAppend(Prepend(heads[0], first), PermutationsFrom(heads[1..], pool, r), f);
      SumPrepend(heads[0], first, f);
    }
  }

  predicate SameSet<T(==)>(a: seq<T>, b: seq<T>) {
    Within(a, b) && Within(b, a)
  }

  lemma {:induction false} CombinationsAreOrders<T>(pool: seq<T>, r: nat, c: seq<T>)
    requires c in Combinations(pool, r) && Distinct(pool)
    ensures IsOrder(pool, r, c)
  {
    hide Combinations, IsOrder, Distinct;
    if r == 0 || pool == [] {
      NoChoice(pool, r, c);
    } else {
      var x, rest := pool[0], pool[1..];
      assert pool == [x] + rest;
      DistinctCons(x, rest);
      CombinationSplit(pool, r, c);
      if c in Combinations(rest, r) {
        CombinationsAreOrders(rest, r, c);
        OrderInLarger(x, rest, r, c);
      } else {
        CombinationsAreOrders(rest, r - 1, c[1..]);
        assert c == [x] + c[1..];
        OrderWithHead(x, rest, r - 1, c[1..]);
      }
    }
  }

  lemma NoChoice<T>(pool: seq<T>, r: nat, c: seq<T>)
    requires c in Combinations(pool, r) && (r == 0 || pool == [])
    ensures IsOrder(pool, r, c)
  {
    assert r == 0 && Combinations(pool, r)[0] == [];
    assert c == [];
  }

  lemma OrderInLarger<T>(x: T, rest: seq<T>, r: nat, c: seq<T>)
    requires IsOrder(rest, r, c)
    ensures IsOrder([x] + rest, r, c)
  {
    hide Distinct;
    forall y | y in c ensures y in [x] + rest {
      assert y in rest;
    }
  }

  lemma CombinationSplit<T>(pool: seq<T>, r: nat, c: seq<T>)
    requires r > 0 && pool != [] && c in Combinations(pool, r)
    ensures c in Combinations(pool[1..], r) || (|c| > 0 && c[0] == pool[0] && c[1..] in Combinations(pool[1..], r - 1))
  {
    PrependMembers(pool[0], Combinations(pool[1..], r - 1), c);
  }

  lemma OrderWithHead<T>(x: T, rest: seq<T>, r: nat, c: seq<T>)
    requires x !in rest && IsOrder(rest, r, c)
    ensures IsOrder([x] + rest, r + 1, [x] + c)
  {
    assert x !in c;
    DistinctCons(x, c);
    forall y | y in [x] + c ensures y in [x] + rest {
      assert y == x || y in c;
    }
  }

  lemma SameSetWithoutHead<T>(x: T, c: seq<T>, o: seq<T>)
    requires x !in c && x in o && Distinct(o)
    ensures SameSet([x] + c, o) <==> SameSet(c, Remove(o, x))
  {
    RemoveMembers(o, x);
    var all, o' := [x] + c, Remove(o, x);
    assert forall y :: y in all <==> y == x || y in c;
    assert Within(c, o') ==> Within(all, o);
    assert Within(all, o) ==> Within(c, o') by {
      if Within(all, o) {
        forall y | y in c ensures y in o' {
          assert y in all;
        }
      }
    }
    assert Within(o, all) <==> Within(o', c);
  }

  function SetMatch<T(==)>(o: seq<T>): seq<T> -> real {
    c => if SameSet(c, o) then 1.0 else 0.0
  }

  lemma SumMatchesWithHead<T>(x: T, rest: seq<T>, r: nat, o: seq<T>)
    requires Distinct(rest) && x !in rest && Distinct(o)
    ensures Sum(Prepend(x, Combinations(rest, r)), SetMatch(o))
         == if x in o then Sum(Combinations(rest, r), SetMatch(Remove(o, x))) else 0.0
  {
    var shorter := Combinations(rest, r);
    var extended := After(x, SetMatch(o));
    SumPrepend(x, shorter, SetMatch(o));
    if x in o {
      forall c | c in shorter ensures extended(c) == SetMatch(Remove(o, x))(c) {
        CombinationsAreOrders(rest, r, c);
        SameSetWithoutHead(x, c, o);
      }
      SumCongruent(shorter, extended, SetMatch(Remove(o, x)));
    } else {
      forall c | c in shorter ensures extended(c) == 0.0 {
        assert ([x] + c)[0] == x;
      }
      SumZero(shorter, extended);
    }
  }

  lemma NoMatchWithoutHead<T>(x: T, rest: seq<T>, r: nat, o: seq<T>)
    requires Distinct(rest) && x !in rest && x in o
    ensures Sum(Combinations(rest, r), SetMatch(o)) == 0.0
  {
    forall c | c in Combinations(rest, r) ensures SetMatch(o)(c) == 0.0 {
      CombinationsAreOrders(rest, r, c);
    }
    SumZero(Combinations(rest, r), SetMatch(o));
  }

  lemma SplitMatches<T>(x: T, rest: seq<T>, r: nat, o: seq<T>)
    requires Distinct(rest) && x !in rest && Distinct(o) && r > 0
    ensures Sum(Combinations([x] + rest, r), SetMatch(o))
         == (if x in o then Sum(Combinations(rest, r - 1), SetMatch(Remove(o, x))) else 0.0)
          + Sum(Combinations(rest, r), SetMatch(o))
  {
    hide Sum, Within, Remove;
    assert ([x] + rest)[1..] == rest;
    SumAppend(Prepend(x, Combinations(rest, r - 1)), Combinations(rest, r), SetMatch(o));
    SumMatchesWithHead(x, rest, r - 1, o);
  }

  lemma OrderOfTail<T>(x: T, rest: seq<T>, r: nat, o: seq<T>)
    requires r > 0 && IsOrder([x] + rest, r, o)
    ensures x in o ==> IsOrder(rest, r - 1, Remove(o, x))
    ensures x !in o ==> IsOrder(rest, r, o)
  {
    RemoveMembers(o, x);
    if x in o {
      forall y | y in Remove(o, x) ensures y in rest {
        RemoveKeeps(o, x, y);
        TailMember(x, rest, o, y);
      }
    } else {
      forall y | y in o ensures y in rest {
        TailMember(x, rest, o, y);
      }
    }
  }

  lemma TailMember<T>(x: T, rest: seq<T>, o: seq<T>, y: T)
    requires Within(o, [x] + rest) && y in o && y != x
    ensures y in rest
  {
    assert y in [x] + rest;
  }

  /** Every set of `r` pool members is listed by exactly one combination. */
  lemma {:induction false} ExactlyOneCombination<T>(pool: seq<T>, r: nat, o: seq<T>)
    requires Distinct(pool) && IsOrder(pool, r, o)
    ensures Sum(Combinations(pool, r), SetMatch(o)) == 1.0
  {
    if r == 0 {
    } else {
      assert o[0] in pool;
      var x, rest := pool[0], pool[1..];
      assert pool == [x] + rest;
      DistinctCons(x, rest);
      SplitMatches(x, rest, r, o);
      OrderOfTail(x, rest, r, o);
      if x in o {
        ExactlyOneCombination(rest, r - 1, Remove(o, x));
        NoMatchWithoutHead(x, rest, r, o);
      } else {
        ExactlyOneCombination(rest, r, o);
      }
    }
  }

  function Match<T(==)>(o: seq<T>): seq<T> -> real {
    p => if p == o then 1.0 else 0.0
  }

  lemma MatchesWithHead<T>(x: T, orders: seq<seq<T>>, o: seq<T>)
    requires o != []
    ensures Sum(Prepend(x, orders), Match(o)) == if x == o[0] then Sum(orders, Match(o[1..])) else 0.0
  {
    SumPrepend(x, orders, Match(o));
    if x == o[0] {
      forall p | p in orders ensures After(x, Match(o))(p) == Match(o[1..])(p) {
        assert ([x] + p)[1..] == p && o == [o[0]] + o[1..];
      }
      SumCongruent(orders, After(x, Match(o)), Match(o[1..]));
    } else {
      forall p | p in orders ensures After(x, Match(o))(p) == 0.0 {
        assert ([x] + p)[0] == x;
      }
      SumZero(orders, After(x, Match(o)));
    }
  }

  /** Every order of `r` pool members is listed by exactly one permutation. */
  lemma {:induction false} ExactlyOnePermutation<T>(pool: seq<T>, r: nat, o: seq<T>)
    requires Distinct(pool) && IsOrder(pool, r, o)
    ensures Sum(Permutations(pool, r), Match(o)) == 1.0
    decreases r, |pool| + 1
  {
    if r > 0 {
      assert o[0] in o;
      PermutationsMatch(pool, pool, r, o);
    } else {
      assert Permutations(pool, 0)[1..] == [];
    }
  }

  lemma {:induction false} PermutationsMatch<T>(heads: seq<T>, pool: seq<T>, r: nat, o: seq<T>)
    requires Distinct(pool) && Distinct(heads) && r > 0 && IsOrder(pool, r, o)
    ensures Sum(PermutationsFrom(heads, pool, r), Match(o)) == if o[0] in heads then 1.0 else 0.0
    decreases r, |heads|
  {
    hide Sum;
    if heads == [] {
      SumZero(PermutationsFrom(heads, pool, r), Match(o));
    } else {
      var x, rest := heads[0], heads[1..];
      assert heads == [x] + rest;
      DistinctCons(x, rest);
      PermutationsMatch(rest, pool, r, o);
      var first := Permutations(Remove(pool, x), r - 1);
      SumAppend(Prepend(x, first), PermutationsFrom(rest, pool, r), Match(o));
      MatchesWithHead(x, first, o);
      if x == o[0] {
        TailOfOrder(pool, r, o);
        RemoveMembers(pool, x);
        ExactlyOnePermutation(Remove(pool, x), r - 1, o[1..]);
      }
    }
  }

  lemma TailOfOrder<T>(pool: seq<T>, r: nat, o: seq<T>)
    requires Distinct(pool) && r > 0 && IsOrder(pool, r, o)
    ensures IsOrder(Remove(pool, o[0]), r - 1, o[1..])
  {
    assert o == [o[0]] + o[1..];
    DistinctCons(o[0], o[1..]);
    RemoveMembers(pool, o[0]);
    forall y | y in o[1..] ensures y in Remove(pool, o[0]) {
      assert y in o && y != o[0];
    }
  }
}
