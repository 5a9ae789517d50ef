/** Pool probabilities and the paid-position accumulation (ima/pools.py). */
module PoolProbabilities {
  import opened Sums
  import opened Enumerations
  import opened PoolKernel

  function Ind(b: bool): real {
    if b then 1.0 else 0.0
  }

  /** Three places from seven runners on, otherwise two, as far as there are runners. */
  function PaidPlaceCount(fieldSize: nat): (places: nat)
    ensures places <= fieldSize && places <= 3
    ensures places == 3 <==> fieldSize >= 7
    ensures places < 2 ==> places == fieldSize
  {
    var standard := if fieldSize >= 7 then 3 else 2;
    if fieldSize < standard then fieldSize else standard
  }

  // ---- the direct formulas ----

  function Ordered(fd: Field): seq<nat> -> real {
    (o: seq<nat>) => OrderProbability(fd, 0, Range(fd.Size()), o)
  }

  /** Ordered probability of `o` followed by the fixed tail `t`. */
  function OrderedThen(fd: Field, t: seq<nat>): seq<nat> -> real {
    (o: seq<nat>) => OrderProbability(fd, 0, Range(fd.Size()), o + t)
  }

  function UnorderedProbability(fd: Field, selected: seq<nat>): real {
    Sum(Permutations(selected, |selected|), Ordered(fd))
  }

  function PlaceProbability(fd: Field, selected: nat, places: nat): real {
    var others := Remove(Range(fd.Size()), selected);
    Ordered(fd)([selected])
    + (if places >= 2 then Sum(others, FirstThen(fd, selected)) else 0.0)
    + (if places >= 3 then Sum(Permutations(others, 2), OrderedThen(fd, [selected])) else 0.0)
  }

  function FirstThen(fd: Field, selected: nat): nat -> real {
    (first: nat) => OrderProbability(fd, 0, Range(fd.Size()), [first, selected])
  }

  function QplProbability(fd: Field, a: nat, b: nat, places: nat): real {
    if places == 2 then UnorderedProbability(fd, [a, b])
    else Sum(Others(fd.Size(), a, b), WithThird(fd, a, b))
  }

  function WithThird(fd: Field, a: nat, b: nat): nat -> real {
    (other: nat) => UnorderedProbability(fd, [a, b, other])
  }

  // ---- the events they are meant to measure ----

  function Exactly(t: seq<nat>): seq<nat> -> real {
    (o: seq<nat>) => Ind(o == t)
  }

  function Fills(selected: seq<nat>): seq<nat> -> real {
    (o: seq<nat>) => Ind(SameSet(o, selected))
  }

  function Holds(i: nat): seq<nat> -> real {
    (o: seq<nat>) => Ind(i in o)
  }

  function HoldsBoth(a: nat, b: nat): seq<nat> -> real {
    (o: seq<nat>) => Ind(a in o && b in o)
  }

  function PlacedAt(k: nat, i: nat): seq<nat> -> real {
    (o: seq<nat>) => Ind(k < |o| && o[k] == i)
  }

  /** Probability that the first `depth` finishers satisfy `event`. */
  ghost function Chance(fd: Field, depth: nat, event: seq<nat> -> real): real {
    Expect(fd, 0, Range(fd.Size()), depth, event)
  }

  lemma RangeFacts(n: nat)
    ensures Distinct(Range(n)) && |Range(n)| == n
    ensures forall i: nat :: i in Range(n) <==> i < n
  {
    forall i: nat | i < n ensures i in Range(n) {
      assert Range(n)[i] == i;
    }
  }

  lemma {:induction false} LiveAll(fd: Field, runners: seq<nat>)
    requires forall i: nat :: i in runners ==> i < fd.Size() && fd.strengths[i] > 0.0
    ensures fd.Live(runners) == |runners|
  {
    if runners != [] {
      assert runners[0] in runners;
      assert forall i: nat :: i in runners[1..] ==> i in runners;
      LiveAll(fd, runners[1..]);
    }
  }

  /** Enumerating permutations of `selected` measures the event "these runners fill the top places". */
  lemma EnumerationChance(fd: Field, selected: seq<nat>, r: nat, t: seq<nat>, term: seq<nat> -> real, event: seq<nat> -> real)
    requires Distinct(selected) && Within(selected, Range(fd.Size()))
    requires forall o :: term(o) == OrderProbability(fd, 0, Range(fd.Size()), o + t)
    requires forall o :: IsOrder(Range(fd.Size()), r + |t|, o) ==>
               event(o) == Ind(Within(o[..r], selected) && o[r..] == t)
    ensures Sum(Permutations(selected, r), term) == Chance(fd, r + |t|, event)
  {
    hide Sum, Expect, OrderProbability, Permutations;
    var one := (o: seq<nat>) => 1.0;
    var goal := (o: seq<nat>) => Followed(selected, r, t, one, o);
    var all := Range(fd.Size());
    RangeFacts(fd.Size());
    EnumerationIsExpectation(fd, 0, all, selected, r, t, one, term, goal);
    ExpectCongruent(fd, 0, all, r + |t|, goal, event);
  }

  /** Every order is a permutation of itself, so an ordered ticket is one leaf of the tree. */
  lemma OrderedIsChance(fd: Field, t: seq<nat>)
    ensures Ordered(fd)(t) == Chance(fd, |t|, Exactly(t))
  {
    RangeFacts(fd.Size());
    OrderIsLeaf(fd, 0, Range(fd.Size()), t, 1.0, Exactly(t));
  }

  /** A repetition-free order of the right length drawn from a set of that size fills it. */
  lemma {:induction false} FillsAll(o: seq<nat>, selected: seq<nat>)
    requires Distinct(o) && Distinct(selected) && |o| == |selected| && Within(o, selected)
    ensures SameSet(o, selected)
  {
    if o != [] {
      var x := o[0];
      var rest := o[1..];
      assert o == [x] + rest;
      DistinctCons(x, rest);
      RemoveMembers(selected, x);
      FillsAll(rest, Remove(selected, x));
      forall y: nat | y in selected ensures y in o {
        assert y == x || y in Remove(selected, x);
      }
    }
  }

  lemma FillsWhole(o: seq<nat>, selected: seq<nat>)
    requires Distinct(selected) && Distinct(o) && |o| == |selected|
    ensures Fills(selected)(o) == Ind(Within(o[..|selected|], selected) && o[|selected|..] == [])
  {
    assert o[..|selected|] == o && o[|selected|..] == [];
    if Within(o, selected) {
      FillsAll(o, selected);
    }
  }

  lemma UnorderedIsChance(fd: Field, selected: seq<nat>)
    requires Distinct(selected) && Within(selected, Range(fd.Size()))
    ensures UnorderedProbability(fd, selected) == Chance(fd, |selected|, Fills(selected))
  {
    hide Sum, Permutations, Expect;
    forall o: seq<nat> | IsOrder(Range(fd.Size()), |selected|, o)
      ensures Fills(selected)(o) == Ind(Within(o[..|selected|], selected) && o[|selected|..] == [])
    {
      FillsWhole(o, selected);
    }
    hide Fills;
    forall o: seq<nat> ensures Ordered(fd)(o) == OrderProbability(fd, 0, Range(fd.Size()), o + []) {
      assert o + [] == o;
    }
    EnumerationChance(fd, selected, |selected|, [], Ordered(fd), Fills(selected));
  }

  /** The three sums of the place formula are the chances of finishing first, second and third. */
  lemma PositionIsChance(fd: Field, k: nat, i: nat)
    requires i < fd.Size()
    ensures Sum(Permutations(Remove(Range(fd.Size()), i), k), OrderedThen(fd, [i])) == Chance(fd, k + 1, PlacedAt(k, i))
  {
    var all := Range(fd.Size());
    RangeFacts(fd.Size());
    RemoveMembers(all, i);
    forall o: seq<nat> | IsOrder(all, k + 1, o)
      ensures PlacedAt(k, i)(o) == Ind(Within(o[..k], Remove(all, i)) && o[k..] == [i])
    {
      assert o[k..] == [o[k]];
      forall x: nat | x in o[..k] && o[k] == i ensures x in Remove(all, i) {
        assert x in o;
      }
    }
    EnumerationChance(fd, Remove(all, i), k, [i], OrderedThen(fd, [i]), PlacedAt(k, i));
  }

  lemma PositionAtDepth(fd: Field, k: nat, i: nat, places: nat)
    requires fd.Valid() && k < places <= fd.Live(Range(fd.Size()))
    ensures Chance(fd, places, PlacedAt(k, i)) == Chance(fd, k + 1, PlacedAt(k, i))
  {
    DepthIndependent(fd, 0, Range(fd.Size()), k + 1, places, PlacedAt(k, i), PlacedAt(k, i));
  }

  lemma SecondIsPermutation(fd: Field, others: seq<nat>, i: nat)
    ensures Sum(others, FirstThen(fd, i)) == Sum(Permutations(others, 1), OrderedThen(fd, [i]))
  {
    forall x: nat | x in others
      ensures FirstThen(fd, i)(x) == Sum(Permutations(Remove(others, x), 0), After(x, OrderedThen(fd, [i])))
    {
      var none: seq<seq<nat>> := Permutations(Remove(others, x), 0);
      assert none == [[]] && none[1..] == [];
      var e: seq<nat> := [x] + none[0];
      assert e + [i] == [x, i];
      assert OrderedThen(fd, [i])(e) == OrderProbability(fd, 0, Range(fd.Size()), [x, i]);
      assert FirstThen(fd, i)(x) == OrderProbability(fd, 0, Range(fd.Size()), [x, i]);
      assert After(x, OrderedThen(fd, [i]))(none[0]) == OrderedThen(fd, [i])(e);
      assert Sum(none[1..], After(x, OrderedThen(fd, [i]))) == 0.0;
    }
    SumPermutations(others, 1, OrderedThen(fd, [i]), FirstThen(fd, i));
  }

  /** The place formula is the chance of finishing in the paid places. */
  lemma PlaceIsChance(fd: Field, i: nat, places: nat)
    requires fd.Valid() && i < fd.Size() && 1 <= places <= 3 && places <= fd.Live(Range(fd.Size()))
    ensures PlaceProbability(fd, i, places) == Chance(fd, places, Holds(i))
  {
    hide Sum, Expect, OrderProbability, Permutations;
    var others := Remove(Range(fd.Size()), i);
    OrderedIsChance(fd, [i]);
    SecondIsPermutation(fd, others, i);
    PositionIsChance(fd, 1, i);
    PositionIsChance(fd, 2, i);
    PositionAtDepth(fd, 0, i, places);
    if places >= 2 { PositionAtDepth(fd, 1, i, places); }
    if places >= 3 { PositionAtDepth(fd, 2, i, places); }
    FirstPlace(fd, i);
    SumOfPositions(fd, i, places);
  }

  lemma FirstPlace(fd: Field, i: nat)
    ensures Chance(fd, 1, Exactly([i])) == Chance(fd, 1, PlacedAt(0, i))
  {
    RangeFacts(fd.Size());
    forall o: seq<nat> | IsOrder(Range(fd.Size()), 1, o) ensures Exactly([i])(o) == PlacedAt(0, i)(o) {
      assert o == [o[0]];
    }
    ExpectCongruent(fd, 0, Range(fd.Size()), 1, Exactly([i]), PlacedAt(0, i));
  }

  /** A runner of a short order fills exactly one of its places. */
  lemma OneOfThree(i: nat, places: nat, o: seq<nat>)
    requires 1 <= places <= 3 && |o| == places && Distinct(o)
    ensures Holds(i)(o) == PlacedAt(0, i)(o) + (if places >= 2 then PlacedAt(1, i)(o) else 0.0)
                         + if places >= 3 then PlacedAt(2, i)(o) else 0.0
  {
    assert o == if places == 1 then [o[0]] else if places == 2 then [o[0], o[1]] else [o[0], o[1], o[2]];
  }

  /** A runner holds at most one of the paid places. */
  lemma SumOfPositions(fd: Field, i: nat, places: nat)
    requires 1 <= places <= 3
    ensures Chance(fd, places, Holds(i))
         == Chance(fd, places, PlacedAt(0, i))
          + (if places >= 2 then Chance(fd, places, PlacedAt(1, i)) else 0.0)
          + (if places >= 3 then Chance(fd, places, PlacedAt(2, i)) else 0.0)
  {
    hide Expect;
    var all := Range(fd.Size());
    RangeFacts(fd.Size());
    var two := (o: seq<nat>) => PlacedAt(0, i)(o) + PlacedAt(1, i)(o);
    var three := (o: seq<nat>) => two(o) + PlacedAt(2, i)(o);
    ExpectLinear(fd, 0, all, places, 1.0, PlacedAt(0, i), PlacedAt(1, i), two);
    ExpectLinear(fd, 0, all, places, 1.0, two, PlacedAt(2, i), three);
    var total := if places == 1 then PlacedAt(0, i) else if places == 2 then two else three;
    forall o: seq<nat> | IsOrder(all, places, o) ensures Holds(i)(o) == total(o) {
      OneOfThree(i, places, o);
    }
    hide Holds, PlacedAt, IsOrder;
    ExpectCongruent(fd, 0, all, places, Holds(i), total);
  }

  /** The pair formula is the chance of both finishing in the paid places. */
  lemma QplIsChance(fd: Field, a: nat, b: nat, places: nat)
    requires a < fd.Size() && b < fd.Size() && a != b && 2 <= places <= 3
    ensures QplProbability(fd, a, b, places) == Chance(fd, places, HoldsBoth(a, b))
  {
    var all := Range(fd.Size());
    RangeFacts(fd.Size());
    if places == 2 {
      UnorderedIsChance(fd, [a, b]);
      forall o: seq<nat> | IsOrder(all, 2, o) ensures Fills([a, b])(o) == HoldsBoth(a, b)(o) {
        assert o == [o[0], o[1]];
      }
      ExpectCongruent(fd, 0, all, 2, Fills([a, b]), HoldsBoth(a, b));
    } else {
      QplThird(fd, a, b);
    }
  }

  function ThirdFills(a: nat, b: nat): nat -> seq<nat> -> real {
    (y: nat) => Fills([a, b, y])
  }

  function Others(n: nat, a: nat, b: nat): seq<nat> {
    Remove(Remove(Range(n), a), b)
  }

  lemma OthersFacts(n: nat, a: nat, b: nat)
    ensures Distinct(Others(n, a, b))
    ensures forall y: nat :: y in Others(n, a, b) <==> y in Range(n) && y != a && y != b
  {
    RangeFacts(n);
    RemoveMembers(Range(n), a);
    RemoveMembers(Remove(Range(n), a), b);
  }

  lemma WithThirdIsChance(fd: Field, a: nat, b: nat, y: nat)
    requires a < fd.Size() && b < fd.Size() && y < fd.Size() && a != b && y != a && y != b
    ensures WithThird(fd, a, b)(y) == Chance(fd, 3, ThirdFills(a, b)(y))
  {
    RangeFacts(fd.Size());
    UnorderedIsChance(fd, [a, b, y]);
  }

  lemma QplThird(fd: Field, a: nat, b: nat)
    requires a < fd.Size() && b < fd.Size() && a != b
    ensures Sum(Others(fd.Size(), a, b), WithThird(fd, a, b)) == Chance(fd, 3, HoldsBoth(a, b))
  {
    hide Sum, Expect, Others;
    var others := Others(fd.Size(), a, b);
    OthersFacts(fd.Size(), a, b);
    RangeFacts(fd.Size());
    var total := (o: seq<nat>) => Sum(others, At(ThirdFills(a, b), o));
    forall y: nat | y in others
      ensures WithThird(fd, a, b)(y) == Expect(fd, 0, Range(fd.Size()), 3, ThirdFills(a, b)(y))
    {
      WithThirdIsChance(fd, a, b, y);
    }
    ExpectSum(fd, 0, Range(fd.Size()), 3, others, ThirdFills(a, b), WithThird(fd, a, b), total);
    TotalIsBoth(fd, a, b, others, total);
  }

  lemma TotalIsBoth(fd: Field, a: nat, b: nat, others: seq<nat>, total: seq<nat> -> real)
    requires a != b && Distinct(others)
    requires forall y: nat :: y in others <==> y in Range(fd.Size()) && y != a && y != b
    requires forall o :: total(o) == Sum(others, At(ThirdFills(a, b), o))
    ensures Chance(fd, 3, total) == Chance(fd, 3, HoldsBoth(a, b))
  {
    hide Sum, Expect;
    var all := Range(fd.Size());
    RangeFacts(fd.Size());
    forall o: seq<nat> | IsOrder(all, 3, o) ensures total(o) == HoldsBoth(a, b)(o) {
      OneThird(all, a, b, others, o);
    }
    ExpectCongruent(fd, 0, all, 3, total, HoldsBoth(a, b));
  }

  lemma ThirdIs(a: nat, b: nat, c: nat, o: seq<nat>, y: nat)
    requires IsOrder(o, 3, [a, b, c])
    requires |o| == 3
    ensures SameSet(o, [a, b, y]) <==> y == c
  {
    var t := [a, b, c];
    assert t[0] != t[1] && t[0] != t[2] && t[1] != t[2];
    assert a in t && b in t && c in t;
    FillsAll(t, o);
    assert c in [a, b, y] <==> y == c;
  }

  lemma OneThird(all: seq<nat>, a: nat, b: nat, others: seq<nat>, o: seq<nat>)
    requires IsOrder(all, 3, o) && a != b && Distinct(others)
    requires forall y: nat :: y in others <==> y in all && y != a && y != b
    ensures Sum(others, At(ThirdFills(a, b), o)) == Ind(a in o && b in o)
  {
    hide Sum;
    if a in o && b in o {
      var c := ThirdMember(a, b, o);
      forall y: nat ensures At(ThirdFills(a, b), o)(y) == Ind(y == c) {
        ThirdIs(a, b, c, o, y);
      }
      SumSingle(others, c, At(ThirdFills(a, b), o));
    } else {
      forall y: nat ensures At(ThirdFills(a, b), o)(y) == 0.0 {
        assert a in [a, b, y] && b in [a, b, y];
      }
      SumZero(others, At(ThirdFills(a, b), o));
    }
  }

  lemma ThirdMember(a: nat, b: nat, o: seq<nat>) returns (c: nat)
    requires |o| == 3 && Distinct(o) && a in o && b in o && a != b
    ensures IsOrder(o, 3, [a, b, c]) && c in o && c != a && c != b
  {
    assert o[0] != o[1] && o[0] != o[2] && o[1] != o[2];
    c := if o[0] != a && o[0] != b then o[0] else if o[1] != a && o[1] != b then o[1] else o[2];
  }
}
