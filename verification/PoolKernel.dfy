/** Sequential choice without replacement: the kernel behind every pool probability (ima/pools.py). */
module PoolKernel {
  import opened Sums
  import opened Enumerations

  datatype OrderExponents = OrderExponents(second: real, third: real)

  /** A race field: one strength per runner, the exponents applied to later places, and the power function
      that applies them. */
  datatype Field = Field(strengths: seq<real>, exponents: OrderExponents, pow: (real, real) -> real) {

    function Size(): nat { |strengths| }

    function Exponent(place: nat): real {
      if place == 0 then 1.0 else if place == 1 then exponents.second else exponents.third
    }

    /** `strengths[i] ** exponent` for the place being decided. */
    function Weight(place: nat, i: nat): real {
      if i < |strengths| then pow(strengths[i], Exponent(place)) else 0.0
    }

    function Denominator(place: nat, remaining: seq<nat>): real {
      Sum(remaining, (i: nat) => Weight(place, i))
    }

    function Share(place: nat, remaining: seq<nat>, i: nat): real {
      if Denominator(place, remaining) == 0.0 then 0.0 else Weight(place, i) / Denominator(place, remaining)
    }

    /** Powers are nonnegative and vanish exactly where the strength does. */
    ghost predicate Valid() {
      && (forall i :: 0 <= i < |strengths| ==> strengths[i] >= 0.0)
      && (forall place: nat, i: nat :: i < |strengths| ==>
          Weight(place, i) >= 0.0 && (Weight(place, i) > 0.0 <==> strengths[i] > 0.0))
    }

    ghost predicate Positive() {
      Valid() && forall i :: 0 <= i < |strengths| ==> strengths[i] > 0.0
    }

    /** How many of the remaining runners still have a positive strength. */
    function Live(remaining: seq<nat>): nat {
      if remaining == [] then 0
      else (if remaining[0] < |strengths| && strengths[remaining[0]] > 0.0 then 1 else 0) + Live(remaining[1..])
    }
  }

  /** Probability that the next places are filled in this order, `remaining` still to run. */
  function OrderProbability(fd: Field, place: nat, remaining: seq<nat>, order: seq<nat>): real
    decreases |order|
  {
    if order == [] then 1.0
    else if order[0] !in remaining then 0.0
    else
      fd.Share(place, remaining, order[0])
      * OrderProbability(fd, place + 1, Remove(remaining, order[0]), order[1..])
  }

  datatype Quotient = Value(value: real) | ZeroDivision

  /** A runner is picked with no strength left to divide by. */
  predicate Undefined(fd: Field, place: nat, remaining: seq<nat>, order: seq<nat>)
    decreases |order|
  {
    order != [] && order[0] in remaining &&
    (fd.Denominator(place, remaining) == 0.0
     || Undefined(fd, place + 1, Remove(remaining, order[0]), order[1..]))
  }

  method BenterOrderProbability(order: seq<nat>, fd: Field) returns (q: Quotient)
    ensures q == if Undefined(fd, 0, Range(fd.Size()), order) then ZeroDivision
                 else Value(OrderProbability(fd, 0, Range(fd.Size()), order))
  {
    var remaining := Range(fd.Size());
    var probability := 1.0;
    for place := 0 to |order|
      invariant Undefined(fd, 0, Range(fd.Size()), order) == Undefined(fd, place, remaining, order[place..])
      invariant OrderProbability(fd, 0, Range(fd.Size()), order)
             == probability * OrderProbability(fd, place, remaining, order[place..])
    {
      var selected := order[place];
      if selected !in remaining {
        return Value(0.0);
      }
      var denominator := fd.Denominator(place, remaining);
      if denominator == 0.0 {
        return ZeroDivision;
      }
      assert order[place..][1..] == order[place+1..];
      probability := probability * (fd.Weight(place, selected) / denominator);
      remaining := Remove(remaining, selected);
    }
    return Value(probability);
  }

  /** The expected value of `f` over the outcome of the next `r` places: one branch per remaining
      runner, weighted by its share. Every enumeration in the program is compared with this tree. */
  ghost function Expect(fd: Field, place: nat, remaining: seq<nat>, r: nat, f: seq<nat> -> real): real
    decreases r, |remaining| + 1
  {
    if r == 0 then f([]) else Over(fd, place, remaining, remaining, r, f)
  }

  ghost function Over(fd: Field, place: nat, remaining: seq<nat>, heads: seq<nat>, r: nat, f: seq<nat> -> real): real
    requires r > 0
    decreases r, |heads|
  {
    if heads == [] then 0.0
    else Branch(fd, place, remaining, r, f, heads[0]) + Over(fd, place, remaining, heads[1..], r, f)
  }

  ghost function Branch(fd: Field, place: nat, remaining: seq<nat>, r: nat, f: seq<nat> -> real, x: nat): real
    requires r > 0
    decreases r, 0
  {
    fd.Share(place, remaining, x) * Expect(fd, place + 1, Remove(remaining, x), r - 1, After(x, f))
  }

  // ---- algebra of Expect ----

  lemma {:induction false} OverIsSum(fd: Field, place: nat, remaining: seq<nat>, heads: seq<nat>, r: nat,
                                     f: seq<nat> -> real, h: nat -> real)
    requires r > 0
    requires forall x :: x in heads ==> Branch(fd, place, remaining, r, f, x) == h(x)
    ensures Over(fd, place, remaining, heads, r, f) == Sum(heads, h)
  {
    if heads != [] {
      OverIsSum(fd, place, remaining, heads[1..], r, f, h);
    }
  }

  lemma {:induction false} OverAgree(fd: Field, place: nat, remaining: seq<nat>, heads: seq<nat>, r: nat,
                                     f: seq<nat> -> real, s: nat, g: seq<nat> -> real)
    requires r > 0 && s > 0
    requires forall x :: x in heads ==> Branch(fd, place, remaining, r, f, x) == Branch(fd, place, remaining, s, g, x)
    ensures Over(fd, place, remaining, heads, r, f) == Over(fd, place, remaining, heads, s, g)
  {
    if heads != [] {
      OverAgree(fd, place, remaining, heads[1..], r, f, s, g);
    }
  }

  lemma ExtendOrder(remaining: seq<nat>, x: nat, r: nat, o: seq<nat>)
    requires Distinct(remaining) && x in remaining && IsOrder(Remove(remaining, x), r, o)
    ensures IsOrder(remaining, r + 1, [x] + o) && x !in o
  {
    RemoveMembers(remaining, x);
    DistinctCons(x, o);
  }

  lemma {:induction false} ExpectCongruent(fd: Field, place: nat, remaining: seq<nat>, r: nat,
                                           f: seq<nat> -> real, g: seq<nat> -> real)
    requires Distinct(remaining)
    requires forall o :: IsOrder(remaining, r, o) ==> f(o) == g(o)
    ensures Expect(fd, place, remaining, r, f) == Expect(fd, place, remaining, r, g)
    decreases r, 1
  {
    if r == 0 {
      assert IsOrder(remaining, r, []);
    } else {
      forall x | x in remaining
        ensures Branch(fd, place, remaining, r, f, x) == Branch(fd, place, remaining, r, g, x)
      {
        BranchCongruent(fd, place, remaining, r, f, g, x);
      }
      OverAgree(fd, place, remaining, remaining, r, f, r, g);
    }
  }

  lemma {:induction false} BranchCongruent(fd: Field, place: nat, remaining: seq<nat>, r: nat,
                                           f: seq<nat> -> real, g: seq<nat> -> real, x: nat)
    requires Distinct(remaining) && x in remaining && r > 0
    requires forall o :: IsOrder(remaining, r, o) ==> f(o) == g(o)
    ensures Branch(fd, place, remaining, r, f, x) == Branch(fd, place, remaining, r, g, x)
    decreases r, 0
  {
    RemoveMembers(remaining, x);
    forall o | IsOrder(Remove(remaining, x), r - 1, o) ensures After(x, f)(o) == After(x, g)(o) {
      ExtendOrder(remaining, x, r - 1, o);
    }
    ExpectCongruent(fd, place + 1, Remove(remaining, x), r - 1, After(x, f), After(x, g));
  }

  lemma Distribute(share: real, c: real, e: real, e': real)
    ensures share * (c * e + e') == c * (share * e) + share * e'
  {}

  /** Expectation is linear. */
  lemma {:induction false} ExpectLinear(fd: Field, place: nat, remaining: seq<nat>, r: nat, c: real,
                                        f: seq<nat> -> real, g: seq<nat> -> real, h: seq<nat> -> real)
    requires forall o :: h(o) == c * f(o) + g(o)
    ensures Expect(fd, place, remaining, r, h)
         == c * Expect(fd, place, remaining, r, f) + Expect(fd, place, remaining, r, g)
    decreases r, |remaining| + 1
  {
    if r > 0 {
      OverLinear(fd, place, remaining, remaining, r, c, f, g, h);
    }
  }

  lemma {:induction false} OverLinear(fd: Field, place: nat, remaining: seq<nat>, heads: seq<nat>, r: nat, c: real,
                                      f: seq<nat> -> real, g: seq<nat> -> real, h: seq<nat> -> real)
    requires r > 0
    requires forall o :: h(o) == c * f(o) + g(o)
    ensures Over(fd, place, remaining, heads, r, h)
         == c * Over(fd, place, remaining, heads, r, f) + Over(fd, place, remaining, heads, r, g)
    decreases r, |heads|
  {
    hide Branch, Expect;
    if heads != [] {
      BranchLinear(fd, place, remaining, r, c, f, g, h, heads[0]);
      OverLinear(fd, place, remaining, heads[1..], r, c, f, g, h);
      Spread(c, Branch(fd, place, remaining, r, f, heads[0]), Over(fd, place, remaining, heads[1..], r, f));
    }
  }

  lemma Spread(c: real, a: real, b: real)
    ensures c * (a + b) == c * a + c * b
  {}

  lemma {:induction false} BranchLinear(fd: Field, place: nat, remaining: seq<nat>, r: nat, c: real,
                                        f: seq<nat> -> real, g: seq<nat> -> real, h: seq<nat> -> real, x: nat)
    requires r > 0
    requires forall o :: h(o) == c * f(o) + g(o)
    ensures Branch(fd, place, remaining, r, h, x)
         == c * Branch(fd, place, remaining, r, f, x) + Branch(fd, place, remaining, r, g, x)
    decreases r, 0
  {
    hide Expect, Over;
    var left := Remove(remaining, x);
    ExpectLinear(fd, place + 1, left, r - 1, c, After(x, f), After(x, g), After(x, h));
    Distribute(fd.Share(place, remaining, x), c, Expect(fd, place + 1, left, r - 1, After(x, f)),
      Expect(fd, place + 1, left, r - 1, After(x, g)));
  }

  lemma ExpectZero(fd: Field, place: nat, remaining: seq<nat>, r: nat, f: seq<nat> -> real)
    requires Distinct(remaining)
    requires forall o :: IsOrder(remaining, r, o) ==> f(o) == 0.0
    ensures Expect(fd, place, remaining, r, f) == 0.0
  {
    var zero := (o: seq<nat>) => 0.0;
    ExpectCongruent(fd, place, remaining, r, f, zero);
    ExpectLinear(fd, place, remaining, r, 1.0, zero, zero, zero);
  }

  function At<T>(h: T -> seq<nat> -> real, o: seq<nat>): T -> real {
    y => h(y)(o)
  }

  /** Expectation commutes with a finite sum of outcomes. */
  lemma {:induction false} ExpectSum<T>(fd: Field, place: nat, remaining: seq<nat>, r: nat,
                                        ys: seq<T>, h: T -> seq<nat> -> real, each: T -> real, total: seq<nat> -> real)
    requires forall y :: y in ys ==> each(y) == Expect(fd, place, remaining, r, h(y))
    requires forall o :: total(o) == Sum(ys, At(h, o))
    ensures Sum(ys, each) == Expect(fd, place, remaining, r, total)
  {
    if ys == [] {
      ExpectLinear(fd, place, remaining, r, 1.0, total, total, total);
    } else {
      var tail := (o: seq<nat>) => Sum(ys[1..], At(h, o));
      ExpectSum(fd, place, remaining, r, ys[1..], h, each, tail);
      ExpectLinear(fd, place, remaining, r, 1.0, h(ys[0]), tail, total);
    }
  }

  // ---- total mass and depth ----

  lemma {:induction false} LiveRemove(fd: Field, remaining: seq<nat>, x: nat)
    requires x in remaining
    ensures fd.Live(Remove(remaining, x)) >= fd.Live(remaining) - 1
  {
    if remaining[0] != x {
      assert remaining == [remaining[0]] + remaining[1..];
      LiveRemove(fd, remaining[1..], x);
      assert Remove(remaining, x)[1..] == Remove(remaining[1..], x);
    }
  }

  lemma {:induction false} DenominatorPositive(fd: Field, place: nat, remaining: seq<nat>)
    requires fd.Valid()
    ensures fd.Denominator(place, remaining) >= 0.0
    ensures fd.Denominator(place, remaining) > 0.0 <==> fd.Live(remaining) > 0
  {
    if remaining != [] {
      DenominatorPositive(fd, place, remaining[1..]);
      var w := (i: nat) => fd.Weight(place, i);
      SumCongruent(remaining[1..], w, (i: nat) => fd.Weight(place, i));
      assert fd.Denominator(place, remaining) == w(remaining[0]) + fd.Denominator(place, remaining[1..]) by {
        SumCongruent(remaining, w, (i: nat) => fd.Weight(place, i));
      }
    }
  }

  lemma SharesSumToOne(fd: Field, place: nat, remaining: seq<nat>, share: nat -> real)
    requires fd.Denominator(place, remaining) != 0.0
    requires forall x :: share(x) == fd.Share(place, remaining, x)
    ensures Sum(remaining, share) == 1.0
  {
    var d := fd.Denominator(place, remaining);
    var w := (i: nat) => fd.Weight(place, i);
    forall x ensures share(x) == (1.0 / d) * w(x) {}
    SumScale(remaining, 1.0 / d, w, share);
    SumCongruent(remaining, w, (i: nat) => fd.Weight(place, i));
  }

  /** The tree carries mass exactly one as long as enough strengths are nonzero. */
  lemma {:induction false} TotalMass(fd: Field, place: nat, remaining: seq<nat>, r: nat, one: seq<nat> -> real)
    requires fd.Valid() && fd.Live(remaining) >= r
    requires forall o :: one(o) == 1.0
    ensures Expect(fd, place, remaining, r, one) == 1.0
    decreases r
  {
    if r > 0 {
      DenominatorPositive(fd, place, remaining);
      var share := (x: nat) => fd.Share(place, remaining, x);
      forall x | x in remaining ensures Branch(fd, place, remaining, r, one, x) == share(x) {
        LiveRemove(fd, remaining, x);
        TotalMass(fd, place + 1, Remove(remaining, x), r - 1, After(x, one));
      }
      OverIsSum(fd, place, remaining, remaining, r, one, share);
      SharesSumToOne(fd, place, remaining, share);
    }
  }

  function Prefix(o: seq<nat>, d: nat): seq<nat> {
    if d <= |o| then o[..d] else o
  }

  /** A quantity decided by the first `d` places does not depend on how much deeper one enumerates. */
  lemma {:induction false} DepthIndependent(fd: Field, place: nat, remaining: seq<nat>, d: nat, r: nat,
                                            f: seq<nat> -> real, deep: seq<nat> -> real)
    requires fd.Valid() && d <= r <= fd.Live(remaining)
    requires forall o :: deep(o) == f(Prefix(o, d))
    ensures Expect(fd, place, remaining, r, deep) == Expect(fd, place, remaining, d, f)
    decreases d, 1
  {
    if d == 0 {
      var one, zero := (o: seq<nat>) => 1.0, (o: seq<nat>) => 0.0;
      TotalMass(fd, place, remaining, r, one);
      ExpectLinear(fd, place, remaining, r, f([]), one, zero, deep);
      ExpectLinear(fd, place, remaining, r, 1.0, zero, zero, zero);
    } else {
      forall x | x in remaining
        ensures Branch(fd, place, remaining, r, deep, x) == Branch(fd, place, remaining, d, f, x)
      {
        DepthBranch(fd, place, remaining, d, r, f, deep, x);
      }
      OverAgree(fd, place, remaining, remaining, r, deep, d, f);
    }
  }

  lemma {:induction false} DepthBranch(fd: Field, place: nat, remaining: seq<nat>, d: nat, r: nat,
                                       f: seq<nat> -> real, deep: seq<nat> -> real, x: nat)
    requires fd.Valid() && 0 < d <= r <= fd.Live(remaining) && x in remaining
    requires forall o :: deep(o) == f(Prefix(o, d))
    ensures Branch(fd, place, remaining, r, deep, x) == Branch(fd, place, remaining, d, f, x)
    decreases d, 0
  {
    LiveRemove(fd, remaining, x);
    forall o ensures After(x, deep)(o) == After(x, f)(Prefix(o, d - 1)) {
      assert Prefix([x] + o, d) == [x] + Prefix(o, d - 1);
    }
    hide Expect, Field.Share, Field.Valid, Remove, Prefix, After;
    DepthIndependent(fd, place + 1, Remove(remaining, x), d - 1, r - 1, After(x, f), After(x, deep));
  }

  // ---- enumerations equal the tree ----

  /** The fixed order `t` has the probability of the tree's leaf `t`. */
  lemma {:induction false} OrderIsLeaf(fd: Field, place: nat, remaining: seq<nat>, t: seq<nat>, c: real,
                                       leaf: seq<nat> -> real)
    requires Distinct(remaining)
    requires forall o :: leaf(o) == if o == t then c else 0.0
    ensures Expect(fd, place, remaining, |t|, leaf) == OrderProbability(fd, place, remaining, t) * c
    decreases |t|, 1
  {
    if t != [] {
      LeafOver(fd, place, remaining, t, c, leaf);
    }
  }

  lemma {:induction false} LeafOver(fd: Field, place: nat, remaining: seq<nat>, t: seq<nat>, c: real,
                                    leaf: seq<nat> -> real)
    requires Distinct(remaining) && t != []
    requires forall o :: leaf(o) == if o == t then c else 0.0
    ensures Over(fd, place, remaining, remaining, |t|, leaf) == OrderProbability(fd, place, remaining, t) * c
    decreases |t|, 0, 1
  {
    hide Sum, Expect, Over, OrderProbability;
    var h := (x: nat) => if x in remaining then Branch(fd, place, remaining, |t|, leaf, x) else 0.0;
    forall x | x in remaining && x != t[0] ensures h(x) == 0.0 {
      LeafBranch(fd, place, remaining, t, c, leaf, x);
    }
    OverIsSum(fd, place, remaining, remaining, |t|, leaf, h);
    SumSingle(remaining, t[0], h);
    if t[0] in remaining {
      LeafBranch(fd, place, remaining, t, c, leaf, t[0]);
    }
    HeadProbability(fd, place, remaining, t, c);
  }

  lemma HeadProbability(fd: Field, place: nat, remaining: seq<nat>, t: seq<nat>, c: real)
    requires t != []
    ensures OrderProbability(fd, place, remaining, t) * c
         == if t[0] in remaining
            then fd.Share(place, remaining, t[0]) * (OrderProbability(fd, place + 1, Remove(remaining, t[0]), t[1..]) * c)
            else 0.0
  {
    hide Field.Share, Remove;
    if t[0] in remaining {
      Regroup(fd.Share(place, remaining, t[0]), OrderProbability(fd, place + 1, Remove(remaining, t[0]), t[1..]), c);
    }
  }

  lemma {:induction false} LeafBranch(fd: Field, place: nat, remaining: seq<nat>, t: seq<nat>, c: real,
                                      leaf: seq<nat> -> real, x: nat)
    requires Distinct(remaining) && x in remaining && t != []
    requires forall o :: leaf(o) == if o == t then c else 0.0
    ensures Branch(fd, place, remaining, |t|, leaf, x)
         == if x == t[0] then fd.Share(place, remaining, x)
                            * (OrderProbability(fd, place + 1, Remove(remaining, t[0]), t[1..]) * c)
            else 0.0
    decreases |t|, 0, 0
  {
    hide Expect, OrderProbability, Field.Share, Remove;
    RemoveMembers(remaining, x);
    if x == t[0] {
      forall o ensures After(x, leaf)(o) == if o == t[1..] then c else 0.0 {
        assert ([x] + o)[1..] == o;
        assert t == [x] + t[1..];
      }
      hide After;
      OrderIsLeaf(fd, place + 1, Remove(remaining, x), t[1..], c, After(x, leaf));
    } else {
      forall o ensures After(x, leaf)(o) == 0.0 {
        assert ([x] + o)[0] != t[0];
      }
      hide After;
      ExpectZero(fd, place + 1, Remove(remaining, x), |t| - 1, After(x, leaf));
    }
  }

  /** `f` on the orders of `sel` that are followed by exactly `t`, zero elsewhere. */
  function Followed(sel: seq<nat>, r: nat, t: seq<nat>, f: seq<nat> -> real, o: seq<nat>): real {
    if |o| == r + |t| && Within(o[..r], sel) && o[r..] == t then f(o[..r]) else 0.0
  }

  function Term(fd: Field, place: nat, remaining: seq<nat>, t: seq<nat>, f: seq<nat> -> real, o: seq<nat>): real {
    OrderProbability(fd, place, remaining, o + t) * f(o)
  }

  /** Summing over the permutations of a selection, each followed by a fixed tail, is an expectation. */
  lemma {:induction false} EnumerationIsExpectation(
    fd: Field, place: nat, remaining: seq<nat>, sel: seq<nat>, r: nat, t: seq<nat>, f: seq<nat> -> real,
    term: seq<nat> -> real, goal: seq<nat> -> real)
    requires Distinct(remaining) && Distinct(sel) && Within(sel, remaining)
    requires forall o :: term(o) == Term(fd, place, remaining, t, f, o)
    requires forall o :: goal(o) == Followed(sel, r, t, f, o)
    ensures Sum(Permutations(sel, r), term) == Expect(fd, place, remaining, r + |t|, goal)
    decreases r, 1
  {
    if r == 0 {
      forall o ensures goal(o) == if o == t then f([]) else 0.0 {
        assert o[..0] == [] && o[0..] == o;
      }
      OrderIsLeaf(fd, place, remaining, t, f([]), goal);
      assert [] + t == t;
      assert Permutations(sel, 0) == [[]] && Permutations(sel, 0)[1..] == [];
    } else {
      var outer := (x: nat) => Sum(Permutations(Remove(sel, x), r - 1), After(x, term));
      SumPermutations(sel, r, term, outer);
      EnumerationOver(fd, place, remaining, sel, r, t, f, term, goal, outer);
    }
  }

  lemma {:induction false} EnumerationOver(
    fd: Field, place: nat, remaining: seq<nat>, sel: seq<nat>, r: nat, t: seq<nat>, f: seq<nat> -> real,
    term: seq<nat> -> real, goal: seq<nat> -> real, outer: nat -> real)
    requires Distinct(remaining) && Distinct(sel) && Within(sel, remaining) && r > 0
    requires forall o :: term(o) == Term(fd, place, remaining, t, f, o)
    requires forall o :: goal(o) == Followed(sel, r, t, f, o)
    requires forall x :: outer(x) == Sum(Permutations(Remove(sel, x), r - 1), After(x, term))
    ensures Over(fd, place, remaining, remaining, r + |t|, goal) == Sum(sel, outer)
    decreases r, 0, 2
  {
    var h := (x: nat) => if x in sel then outer(x) else 0.0;
    forall x | x in remaining ensures Branch(fd, place, remaining, r + |t|, goal, x) == h(x) {
      EnumerationBranch(fd, place, remaining, sel, r, t, f, term, goal, x);
    }
    OverIsSum(fd, place, remaining, remaining, r + |t|, goal, h);
    SumSelection(sel, remaining, outer, h);
  }

  lemma {:induction false} EnumerationBranch(
    fd: Field, place: nat, remaining: seq<nat>, sel: seq<nat>, r: nat, t: seq<nat>, f: seq<nat> -> real,
    term: seq<nat> -> real, goal: seq<nat> -> real, x: nat)
    requires Distinct(remaining) && Distinct(sel) && Within(sel, remaining) && x in remaining && r > 0
    requires forall o :: term(o) == Term(fd, place, remaining, t, f, o)
    requires forall o :: goal(o) == Followed(sel, r, t, f, o)
    ensures Branch(fd, place, remaining, r + |t|, goal, x)
         == if x in sel then Sum(Permutations(Remove(sel, x), r - 1), After(x, term)) else 0.0
    decreases r, 0, 1
  {
    RemoveMembers(remaining, x);
    if x in sel {
      EnumerationInside(fd, place, remaining, sel, r, t, f, term, goal, x);
    } else {
      forall o ensures After(x, goal)(o) == 0.0 {
        assert |o| == r - 1 + |t| ==> ([x] + o)[..r][0] == x;
      }
      ExpectZero(fd, place + 1, Remove(remaining, x), r - 1 + |t|, After(x, goal));
    }
  }

  lemma {:induction false} EnumerationInside(
    fd: Field, place: nat, remaining: seq<nat>, sel: seq<nat>, r: nat, t: seq<nat>, f: seq<nat> -> real,
    term: seq<nat> -> real, goal: seq<nat> -> real, x: nat)
    requires Distinct(remaining) && Distinct(sel) && Within(sel, remaining) && x in sel && r > 0
    requires forall o :: term(o) == Term(fd, place, remaining, t, f, o)
    requires forall o :: goal(o) == Followed(sel, r, t, f, o)
    ensures Branch(fd, place, remaining, r + |t|, goal, x)
         == Sum(Permutations(Remove(sel, x), r - 1), After(x, term))
    decreases r, 0, 0
  {
    hide Sum, Expect, Over, OrderProbability, Permutations, Followed, Term;
    var rest, sel' := Remove(remaining, x), Remove(sel, x);
    var inner := (o: seq<nat>) => Term(fd, place + 1, rest, t, After(x, f), o);
    var goal' := (o: seq<nat>) => Followed(sel', r - 1, t, After(x, f), o);
    RemoveMembers(remaining, x);
    RemoveMembers(sel, x);
    ScaledTerms(fd, place, remaining, Permutations(sel', r - 1), t, f, term, inner, x);
    EnumerationIsExpectation(fd, place + 1, rest, sel', r - 1, t, After(x, f), inner, goal');
    FollowedExpect(fd, place + 1, rest, sel, r, t, f, goal, goal', x);
    BranchIs(fd, place, remaining, r + |t|, goal, x, Expect(fd, place + 1, rest, r - 1 + |t|, goal'));
  }

  lemma ScaledTerms(fd: Field, place: nat, remaining: seq<nat>, orders: seq<seq<nat>>, t: seq<nat>,
                    f: seq<nat> -> real, term: seq<nat> -> real, inner: seq<nat> -> real, x: nat)
    requires x in remaining
    requires forall o :: term(o) == Term(fd, place, remaining, t, f, o)
    requires forall o :: inner(o) == Term(fd, place + 1, Remove(remaining, x), t, After(x, f), o)
    ensures Sum(orders, After(x, term)) == fd.Share(place, remaining, x) * Sum(orders, inner)
  {
    hide Sum, Term;
    var share := fd.Share(place, remaining, x);
    forall o ensures After(x, term)(o) == share * inner(o) {
      TermStep(fd, place, remaining, x, o, t, f);
    }
    SumScale(orders, share, inner, After(x, term));
  }

  lemma FollowedExpect(fd: Field, place: nat, rest: seq<nat>, sel: seq<nat>, r: nat, t: seq<nat>,
                       f: seq<nat> -> real, goal: seq<nat> -> real, goal': seq<nat> -> real, x: nat)
    requires Distinct(rest) && Distinct(sel) && x in sel && x !in rest && r > 0
    requires forall o :: goal(o) == Followed(sel, r, t, f, o)
    requires forall o :: goal'(o) == Followed(Remove(sel, x), r - 1, t, After(x, f), o)
    ensures Expect(fd, place, rest, r - 1 + |t|, After(x, goal)) == Expect(fd, place, rest, r - 1 + |t|, goal')
  {
    forall o | IsOrder(rest, r - 1 + |t|, o) ensures After(x, goal)(o) == goal'(o) {
      FollowedStep(sel, r, t, f, x, o);
    }
    ExpectCongruent(fd, place, rest, r - 1 + |t|, After(x, goal), goal');
  }

  lemma BranchIs(fd: Field, place: nat, remaining: seq<nat>, r: nat, f: seq<nat> -> real, x: nat, e: real)
    requires r > 0 && Expect(fd, place + 1, Remove(remaining, x), r - 1, After(x, f)) == e
    ensures Branch(fd, place, remaining, r, f, x) == fd.Share(place, remaining, x) * e
  {}

  lemma TermStep(fd: Field, place: nat, remaining: seq<nat>, x: nat, o: seq<nat>, t: seq<nat>, f: seq<nat> -> real)
    requires x in remaining
    ensures Term(fd, place, remaining, t, f, [x] + o)
         == fd.Share(place, remaining, x) * Term(fd, place + 1, Remove(remaining, x), t, After(x, f), o)
  {
    assert (([x] + o) + t)[1..] == o + t && (([x] + o) + t)[0] == x;
    hide Remove;
    Regroup(fd.Share(place, remaining, x), OrderProbability(fd, place + 1, Remove(remaining, x), o + t), After(x, f)(o));
  }

  lemma Regroup(a: real, b: real, c: real)
    ensures (a * b) * c == a * (b * c)
  {}

  lemma FollowedStep(sel: seq<nat>, r: nat, t: seq<nat>, f: seq<nat> -> real, x: nat, o: seq<nat>)
    requires Distinct(sel) && x in sel && x !in o && r > 0 && |o| == r - 1 + |t|
    ensures Followed(sel, r, t, f, [x] + o) == Followed(Remove(sel, x), r - 1, t, After(x, f), o)
  {
    RemoveMembers(sel, x);
    var front := o[..r-1];
    assert ([x] + o)[..r] == [x] + front && ([x] + o)[r..] == o[r-1..];
    assert forall y :: y in front ==> y in o;
    assert Within(front, Remove(sel, x)) ==> Within([x] + front, sel);
    assert Within([x] + front, sel) ==> Within(front, Remove(sel, x)) by {
      if Within([x] + front, sel) {
        forall y | y in front ensures y in Remove(sel, x) {
          assert y in [x] + front;
        }
      }
    }
  }

  // ---- the product written out ----

  /** A runner's strength raised to an exponent. */
  function Raised(fd: Field, exponent: real): nat -> real {
    (i: nat) => if i < |fd.strengths| then fd.pow(fd.strengths[i], exponent) else 0.0
  }

  /** The chance of being picked among these, strengths raised to an exponent; nothing without strength to divide by. */
  function PickedAmong(fd: Field, runners: seq<nat>, exponent: real, x: nat): real {
    if x !in runners || Sum(runners, Raised(fd, exponent)) == 0.0 then 0.0
    else Raised(fd, exponent)(x) / Sum(runners, Raised(fd, exponent))
  }

  lemma ShareIsPicked(fd: Field, place: nat, runners: seq<nat>, exponent: real, x: nat)
    requires exponent == (match place case 0 => 1.0 case 1 => fd.exponents.second case _ => fd.exponents.third)
    ensures (if x in runners then fd.Share(place, runners, x) else 0.0) == PickedAmong(fd, runners, exponent, x)
  {
    hide Sum;
    SumCongruent(runners, (i: nat) => fd.Weight(place, i), Raised(fd, exponent));
  }

  lemma {:induction false} OneMorePlace(fd: Field, place: nat, runners: seq<nat>, exponent: real, order: seq<nat>)
    requires order != []
    requires exponent == (match place case 0 => 1.0 case 1 => fd.exponents.second case _ => fd.exponents.third)
    ensures OrderProbability(fd, place, runners, order)
         == PickedAmong(fd, runners, exponent, order[0]) * OrderProbability(fd, place + 1, Remove(runners, order[0]), order[1..])
  {
    hide PickedAmong;
    ShareIsPicked(fd, place, runners, exponent, order[0]);
    ZeroTimes(OrderProbability(fd, place + 1, Remove(runners, order[0]), order[1..]));
  }

  lemma ZeroTimes(x: real)
    ensures 0.0 * x == 0.0
  {}

  lemma NoMorePlaces(fd: Field, place: nat, runners: seq<nat>, order: seq<nat>)
    requires order == []
    ensures OrderProbability(fd, place, runners, order) == 1.0
  {}

  /** The first four places of any field: the winner by plain strengths, the second by the second exponent, the others
      by the third, each among those left. */
  lemma FirstFour(fd: Field, runners: seq<nat>, a: nat, b: nat, c: nat, d: nat)
    ensures OrderProbability(fd, 0, runners, [a, b, c, d])
         == PickedAmong(fd, runners, 1.0, a)
            * (PickedAmong(fd, Remove(runners, a), fd.exponents.second, b)
               * (PickedAmong(fd, Remove(Remove(runners, a), b), fd.exponents.third, c)
                  * PickedAmong(fd, Remove(Remove(Remove(runners, a), b), c), fd.exponents.third, d)))
  {
    hide PickedAmong, Remove, OrderProbability;
    OneMorePlace(fd, 0, runners, 1.0, [a, b, c, d]);
    OneMorePlace(fd, 1, Remove(runners, a), fd.exponents.second, [b, c, d]);
    OneMorePlace(fd, 2, Remove(Remove(runners, a), b), fd.exponents.third, [c, d]);
    OneMorePlace(fd, 3, Remove(Remove(Remove(runners, a), b), c), fd.exponents.third, [d]);
    NoMorePlaces(fd, 4, Remove(Remove(Remove(Remove(runners, a), b), c), d), [d][1..]);
    assert [a, b, c, d][1..] == [b, c, d] && [b, c, d][1..] == [c, d] && [c, d][1..] == [d];
  }
}
