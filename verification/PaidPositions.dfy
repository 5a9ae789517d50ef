/** Totals of every pool, and the shared enumeration for PLACE and QPL (ima/pools.py). */
module PaidPositions {
  import opened Sums
  import opened Enumerations
  import opened PoolKernel
  import opened PoolProbabilities

  // ---- totals ----

  lemma WholeField(fd: Field)
    requires fd.Positive()
    ensures fd.Live(Range(fd.Size())) == fd.Size()
  {
    RangeFacts(fd.Size());
    LiveAll(fd, Range(fd.Size()));
  }

  /** WIN, TIERCE, QUARTET: the listed orders exhaust the outcomes. */
  lemma OrderedTotal(fd: Field, k: nat)
    requires fd.Positive() && k <= fd.Size()
    ensures Sum(Permutations(Range(fd.Size()), k), Ordered(fd)) == 1.0
  {
    hide Sum, Expect, OrderProbability, Permutations;
    var one := (o: seq<nat>) => 1.0;
    var all := Range(fd.Size());
    RangeFacts(fd.Size());
    forall o ensures Ordered(fd)(o) == OrderProbability(fd, 0, all, o + []) {
      assert o + [] == o;
    }
    forall o: seq<nat> | IsOrder(all, k, o) ensures one(o) == Ind(Within(o[..k], all) && o[k..] == []) {
      assert o[..k] == o;
    }
    EnumerationChance(fd, all, k, [], Ordered(fd), one);
    WholeField(fd);
    TotalMass(fd, 0, all, k, one);
  }

  function FillsEach(): seq<nat> -> seq<nat> -> real {
    (c: seq<nat>) => Fills(c)
  }

  function Unordered(fd: Field): seq<nat> -> real {
    (c: seq<nat>) => UnorderedProbability(fd, c)
  }

  /** QIN, TRI, FIRST4: each outcome fills exactly one listed combination. */
  lemma UnorderedTotal(fd: Field, k: nat)
    requires fd.Positive() && k <= fd.Size()
    ensures Sum(Combinations(Range(fd.Size()), k), Unordered(fd)) == 1.0
  {
    hide Sum, Expect, OrderProbability, Permutations, Combinations, UnorderedProbability;
    var all, combos := Range(fd.Size()), Combinations(Range(fd.Size()), k);
    var total := (o: seq<nat>) => Sum(combos, At(FillsEach(), o));
    var one := (o: seq<nat>) => 1.0;
    RangeFacts(fd.Size());
    forall c: seq<nat> | c in combos ensures Unordered(fd)(c) == Expect(fd, 0, all, k, FillsEach()(c)) {
      CombinationsAreOrders(all, k, c);
      UnorderedIsChance(fd, c);
    }
    ExpectSum(fd, 0, all, k, combos, FillsEach(), Unordered(fd), total);
    forall o: seq<nat> | IsOrder(all, k, o) ensures total(o) == one(o) {
      SumCongruent(combos, At(FillsEach(), o), SetMatch(o));
      ExactlyOneCombination(all, k, o);
    }
    ExpectCongruent(fd, 0, all, k, total, one);
    WholeField(fd);
    TotalMass(fd, 0, all, k, one);
  }

  function HoldsEach(): nat -> seq<nat> -> real {
    (i: nat) => Holds(i)
  }

  function Placed(fd: Field, places: nat): nat -> real {
    (i: nat) => PlaceProbability(fd, i, places)
  }

  lemma {:induction false} CountMembers(pool: seq<nat>, o: seq<nat>)
    requires Distinct(pool) && IsOrder(pool, |o|, o)
    ensures Sum(pool, At(HoldsEach(), o)) == |o| as real
  {
    var one := (i: nat) => 1.0;
    SumSelection(o, pool, one, At(HoldsEach(), o));
    SumOnes(o, one);
  }

  lemma {:induction false} SumOnes<T>(xs: seq<T>, one: T -> real)
    requires forall x :: x in xs ==> one(x) == 1.0
    ensures Sum(xs, one) == |xs| as real
  {
    if xs != [] {
      SumOnes(xs[1..], one);
    }
  }

  /** A constant outcome has that constant as its expectation. */
  lemma ConstantChance(fd: Field, depth: nat, event: seq<nat> -> real, c: real)
    requires fd.Positive() && depth <= fd.Size()
    requires forall o :: IsOrder(Range(fd.Size()), depth, o) ==> event(o) == c
    ensures Chance(fd, depth, event) == c
  {
    hide Expect;
    var one, zero := (o: seq<nat>) => 1.0, (o: seq<nat>) => 0.0;
    var constant := (o: seq<nat>) => c;
    RangeFacts(fd.Size());
    ExpectCongruent(fd, 0, Range(fd.Size()), depth, event, constant);
    WholeField(fd);
    TotalMass(fd, 0, Range(fd.Size()), depth, one);
    ExpectZero(fd, 0, Range(fd.Size()), depth, zero);
    ExpectLinear(fd, 0, Range(fd.Size()), depth, c, one, zero, constant);
  }

  /** PLACE probabilities add up to the number of paid places. */
  lemma PlaceTotal(fd: Field, places: nat)
    requires fd.Positive() && 1 <= places <= 3 && places <= fd.Size()
    ensures Sum(Range(fd.Size()), Placed(fd, places)) == places as real
  {
    hide Sum, Expect, PlaceProbability;
    var all := Range(fd.Size());
    var total := (o: seq<nat>) => Sum(all, At(HoldsEach(), o));
    RangeFacts(fd.Size());
    WholeField(fd);
    forall i: nat | i in all ensures Placed(fd, places)(i) == Expect(fd, 0, all, places, HoldsEach()(i)) {
      PlaceIsChance(fd, i, places);
    }
    ExpectSum(fd, 0, all, places, all, HoldsEach(), Placed(fd, places), total);
    forall o: seq<nat> | IsOrder(all, places, o) ensures total(o) == places as real {
      CountMembers(all, o);
    }
    ConstantChance(fd, places, total, places as real);
  }

  function PairsHeld(): seq<nat> -> seq<nat> -> real {
    (c: seq<nat>) => if |c| == 2 then HoldsBoth(c[0], c[1]) else Holds(0)
  }

  function PairPlaced(fd: Field, places: nat): seq<nat> -> real {
    (c: seq<nat>) => if |c| == 2 then QplProbability(fd, c[0], c[1], places) else 0.0
  }

  lemma {:induction false} SumSingletons(pool: seq<nat>, f: seq<nat> -> real, g: nat -> real)
    requires forall x: nat :: x in pool ==> g(x) == f([x])
    ensures Sum(Combinations(pool, 1), f) == Sum(pool, g)
  {
    if pool != [] {
      assert pool[0] in pool;
      assert forall x: nat :: x in pool[1..] ==> x in pool;
      SumSingletons(pool[1..], f, g);
      var none: seq<seq<nat>> := Combinations(pool[1..], 0);
      assert none == [[]] && none[1..] == [];
      SumPrepend(pool[0], none, f);
      SumAppend(Prepend(pool[0], none), Combinations(pool[1..], 1), f);
      assert [pool[0]] + none[0] == [pool[0]];
      assert Sum(none, After(pool[0], f)) == f([pool[0]]) + Sum(none[1..], After(pool[0], f));
    }
  }

  lemma SplitPairs(x: nat, rest: seq<nat>, o: seq<nat>)
    ensures Sum(Combinations([x] + rest, 2), At(PairsHeld(), o))
         == Sum(Prepend(x, Combinations(rest, 1)), At(PairsHeld(), o)) + Sum(Combinations(rest, 2), At(PairsHeld(), o))
    ensures Sum([x] + rest, At(HoldsEach(), o)) == Ind(x in o) + Sum(rest, At(HoldsEach(), o))
  {
    assert ([x] + rest)[1..] == rest;
    SumAppend(Prepend(x, Combinations(rest, 1)), Combinations(rest, 2), At(PairsHeld(), o));
  }

  /** `m` members of a pool form `m(m-1)/2` of its pairs. */
  lemma {:induction false} CountPairs(pool: seq<nat>, o: seq<nat>)
    ensures Sum(Combinations(pool, 2), At(PairsHeld(), o)) == HalfProduct(Sum(pool, At(HoldsEach(), o)))
  {
    if pool != [] {
      assert pool == [pool[0]] + pool[1..];
      CountPairs(pool[1..], o);
      CountPairsStep(pool[0], pool[1..], o);
    }
  }

  lemma CountPairsStep(x: nat, rest: seq<nat>, o: seq<nat>)
    requires Sum(Combinations(rest, 2), At(PairsHeld(), o)) == HalfProduct(Sum(rest, At(HoldsEach(), o)))
    ensures Sum(Combinations([x] + rest, 2), At(PairsHeld(), o)) == HalfProduct(Sum([x] + rest, At(HoldsEach(), o)))
  {
    hide Sum, Combinations, HalfProduct;
    PairsWithHead(x, rest, o);
    SplitPairs(x, rest, o);
    HalfSquare(Ind(x in o), Sum(rest, At(HoldsEach(), o)));
  }

  function HalfProduct(m: real): real {
    m * (m - 1.0) / 2.0
  }

  lemma HalfSquare(b: real, m: real)
    requires b == 0.0 || b == 1.0
    ensures b * m + HalfProduct(m) == HalfProduct(b + m)
  {}

  lemma PairsWithHead(x: nat, rest: seq<nat>, o: seq<nat>)
    ensures Sum(Prepend(x, Combinations(rest, 1)), At(PairsHeld(), o)) == Ind(x in o) * Sum(rest, At(HoldsEach(), o))
  {
    hide Sum, Combinations;
    var paired := (y: nat) => HoldsBoth(x, y)(o);
    forall y: nat ensures paired(y) == After(x, At(PairsHeld(), o))([y]) && paired(y) == Ind(x in o) * At(HoldsEach(), o)(y) {
      PairAt(x, y, o);
    }
    hide Ind, At, PairsHeld, HoldsEach, HoldsBoth, After;
    PairsBy(x, rest, At(PairsHeld(), o), At<nat>(HoldsEach(), o), Ind(x in o), paired);
  }

  lemma PairsBy(x: nat, rest: seq<nat>, pairs: seq<nat> -> real, each: nat -> real, c: real, paired: nat -> real)
    requires forall y: nat :: paired(y) == After(x, pairs)([y])
    requires forall y: nat :: paired(y) == c * each(y)
    ensures Sum(Prepend(x, Combinations(rest, 1)), pairs) == c * Sum(rest, each)
  {
    hide Sum, Combinations, After;
    SumPrepend(x, Combinations(rest, 1), pairs);
    SumSingletons(rest, After(x, pairs), paired);
    SumScale(rest, c, each, paired);
  }

  lemma PairAt(x: nat, y: nat, o: seq<nat>)
    ensures HoldsBoth(x, y)(o) == After(x, At(PairsHeld(), o))([y])
    ensures HoldsBoth(x, y)(o) == Ind(x in o) * At(HoldsEach(), o)(y)
  {
    assert [x] + [y] == [x, y];
  }

  /** QPL probabilities add up to the number of pairs of paid places. */
  lemma QplTotal(fd: Field, places: nat)
    requires fd.Positive() && 2 <= places <= 3 && places <= fd.Size()
    ensures Sum(Combinations(Range(fd.Size()), 2), PairPlaced(fd, places)) == (places * (places - 1) / 2) as real
  {
    hide Sum, Expect, QplProbability, Combinations;
    var all, combos := Range(fd.Size()), Combinations(Range(fd.Size()), 2);
    var total := (o: seq<nat>) => Sum(combos, At(PairsHeld(), o));
    RangeFacts(fd.Size());
    forall c: seq<nat> | c in combos ensures PairPlaced(fd, places)(c) == Expect(fd, 0, all, places, PairsHeld()(c)) {
      CombinationsAreOrders(all, 2, c);
      assert c[0] in c && c[1] in c;
      QplIsChance(fd, c[0], c[1], places);
    }
    ExpectSum(fd, 0, all, places, combos, PairsHeld(), PairPlaced(fd, places), total);
    forall o: seq<nat> | IsOrder(all, places, o) ensures total(o) == (places * (places - 1) / 2) as real {
      CountMembers(all, o);
      CountPairs(all, o);
    }
    ConstantChance(fd, places, total, (places * (places - 1) / 2) as real);
  }

  // ---- the shared accumulation ----

  type Pair = (nat, nat)

  function SortedPair(a: nat, b: nat): Pair {
    if a <= b then (a, b) else (b, a)
  }

  /** What the enumeration adds to one runner, and to one pair. */
  function RunnerTerm(fd: Field, i: nat): seq<nat> -> real {
    (o: seq<nat>) => Ordered(fd)(o) * Ind(i in o)
  }

  function PairTerm(fd: Field, pair: Pair): seq<nat> -> real {
    (o: seq<nat>) => Ordered(fd)(o) * Ind(pair.0 in o && pair.1 in o)
  }

  ghost predicate Pairs(n: nat, m: map<Pair, real>) {
    forall pair: Pair :: pair in m <==> pair.0 < pair.1 < n
  }

  function AllPairs(n: nat): map<Pair, real> {
    map a: nat, b: nat | 0 <= a < n && 0 <= b < n && a < b :: (a, b) := 0.0
  }

  /** One order adds its probability to every runner it contains. */
  method AddRunners(order: seq<nat>, probability: real, before: seq<real>) returns (after: seq<real>)
    requires Distinct(order) && forall x: nat :: x in order ==> x < |before|
    ensures |after| == |before|
    ensures forall i: nat :: i < |before| ==> after[i] == before[i] + probability * Ind(i in order)
  {
    after := before;
    for k := 0 to |order|
      invariant |after| == |before|
      invariant forall i: nat :: i < |before| ==> after[i] == before[i] + probability * Ind(i in order[..k])
    {
      var index := order[k];
      assert index in order;
      assert index !in order[..k];
      assert order[..k+1] == order[..k] + [index];
      after := after[index := after[index] + probability];
    }
    assert order[..|order|] == order;
  }

  /** What the first `k` pairs of an order have added to `pair`. */
  ghost function Tally(probability: real, combos: seq<seq<nat>>, k: nat, pair: Pair): real
    requires k <= |combos|
  {
    probability * Sum(combos[..k], SetMatch([pair.0, pair.1]))
  }

  lemma AddIfTarget(probability: real, total: real, b: bool)
    ensures probability * (total + Ind(b)) == probability * total + (if b then probability else 0.0)
  {}

  lemma TallyStep(order: seq<nat>, probability: real, k: nat, pair: Pair)
    requires Distinct(order) && k < |Combinations(order, 2)| && pair.0 < pair.1
    ensures var combo := Combinations(order, 2)[k];
            IsOrder(order, 2, combo) &&
            Tally(probability, Combinations(order, 2), k + 1, pair)
            == Tally(probability, Combinations(order, 2), k, pair)
             + (if pair == SortedPair(combo[0], combo[1]) then probability else 0.0)
  {
    hide Combinations, Sum;
    var combos := Combinations(order, 2);
    CombinationsAreOrders(order, 2, combos[k]);
    SumUpTo(combos, k, SetMatch([pair.0, pair.1]));
    SamePair(combos[k], pair);
    AddIfTarget(probability, Sum(combos[..k], SetMatch([pair.0, pair.1])), pair == SortedPair(combos[k][0], combos[k][1]));
  }

  lemma TallyEnds(order: seq<nat>, probability: real, pair: Pair)
    requires Distinct(order) && pair.0 < pair.1
    ensures Tally(probability, Combinations(order, 2), 0, pair) == 0.0
    ensures Tally(probability, Combinations(order, 2), |Combinations(order, 2)|, pair)
         == probability * Ind(pair.0 in order && pair.1 in order)
  {
    hide Combinations;
    var combos := Combinations(order, 2);
    assert combos[..|combos|] == combos;
    PairMatches(order, pair);
  }

  /** One order adds its probability to every pair it contains. */
  method AddPairs(n: nat, order: seq<nat>, probability: real, before: map<Pair, real>) returns (after: map<Pair, real>)
    requires Distinct(order) && Pairs(n, before) && forall x: nat :: x in order ==> x < n
    ensures Pairs(n, after)
    ensures forall pair: Pair :: pair in before ==>
              after[pair] == before[pair] + probability * Ind(pair.0 in order && pair.1 in order)
  {
    hide Combinations, Tally;
    after := before;
    var combos := Combinations(order, 2);
    forall pair: Pair | pair in before ensures Tally(probability, combos, 0, pair) == 0.0 {
      TallyEnds(order, probability, pair);
    }
    for k := 0 to |combos|
      invariant after.Keys == before.Keys
      invariant forall pair: Pair :: pair in before ==> after[pair] == before[pair] + Tally(probability, combos, k, pair)
    {
      var target := TargetPair(n, order, k);
      forall pair: Pair | pair in before
        ensures Tally(probability, combos, k + 1, pair)
             == Tally(probability, combos, k, pair) + (if pair == target then probability else 0.0)
      {
        TallyStep(order, probability, k, pair);
      }
      after := after[target := after[target] + probability];
    }
    forall pair: Pair | pair in before
      ensures Tally(probability, combos, |combos|, pair) == probability * Ind(pair.0 in order && pair.1 in order)
    {
      TallyEnds(order, probability, pair);
    }
  }

  /** The dictionary key a combination of an order contributes to. */
  method TargetPair(n: nat, order: seq<nat>, k: nat) returns (target: Pair)
    requires Distinct(order) && k < |Combinations(order, 2)| && forall x: nat :: x in order ==> x < n
    ensures var combo := Combinations(order, 2)[k]; |combo| == 2 && target == SortedPair(combo[0], combo[1])
    ensures target.0 < target.1 < n
  {
    var combo := Combinations(order, 2)[k];
    CombinationsAreOrders(order, 2, combo);
    assert combo[0] in combo && combo[1] in combo;
    target := SortedPair(combo[0], combo[1]);
  }

  lemma SamePair(combo: seq<nat>, pair: Pair)
    requires |combo| == 2 && combo[0] != combo[1] && pair.0 < pair.1
    ensures SameSet(combo, [pair.0, pair.1]) <==> SortedPair(combo[0], combo[1]) == pair
  {
    var p := [pair.0, pair.1];
    assert pair.0 in p && pair.1 in p && combo[0] in combo && combo[1] in combo;
  }

  lemma PairMatches(order: seq<nat>, pair: Pair)
    requires Distinct(order) && pair.0 < pair.1
    ensures Sum(Combinations(order, 2), SetMatch([pair.0, pair.1])) == Ind(pair.0 in order && pair.1 in order)
  {
    hide Sum, Combinations;
    var p := [pair.0, pair.1];
    if pair.0 in order && pair.1 in order {
      ExactlyOneCombination(order, 2, p);
    } else {
      forall c: seq<nat> | c in Combinations(order, 2) ensures SetMatch(p)(c) == 0.0 {
        CombinationsAreOrders(order, 2, c);
        assert pair.0 in p && pair.1 in p;
      }
      SumZero(Combinations(order, 2), SetMatch(p));
    }
  }

  /** What the first `k` orders have added to runner `i`, and to a pair. */
  ghost function RunnerSum(fd: Field, k: nat, i: nat): real
    requires k <= |PaidOrders(fd)|
  {
    Sum(PaidOrders(fd)[..k], RunnerTerm(fd, i))
  }

  ghost function PairSum(fd: Field, k: nat, pair: Pair): real
    requires k <= |PaidOrders(fd)|
  {
    Sum(PaidOrders(fd)[..k], PairTerm(fd, pair))
  }

  function PaidOrders(fd: Field): seq<seq<nat>> {
    Permutations(Range(fd.Size()), PaidPlaceCount(fd.Size()))
  }

  lemma RunningSums(fd: Field, k: nat)
    requires k < |PaidOrders(fd)|
    ensures var order := PaidOrders(fd)[k];
            && (forall i: nat {:trigger RunnerSum(fd, k + 1, i)} ::
                RunnerSum(fd, k + 1, i) == RunnerSum(fd, k, i) + Ordered(fd)(order) * Ind(i in order))
            && (forall pair: Pair {:trigger PairSum(fd, k + 1, pair)} ::
                PairSum(fd, k + 1, pair) == PairSum(fd, k, pair) + Ordered(fd)(order) * Ind(pair.0 in order && pair.1 in order))
  {
    hide Sum, PaidOrders;
    forall i: nat
      ensures RunnerSum(fd, k + 1, i) == RunnerSum(fd, k, i) + Ordered(fd)(PaidOrders(fd)[k]) * Ind(i in PaidOrders(fd)[k])
    {
      SumUpTo(PaidOrders(fd), k, RunnerTerm(fd, i));
    }
    forall pair: Pair
      ensures PairSum(fd, k + 1, pair) == PairSum(fd, k, pair)
           + Ordered(fd)(PaidOrders(fd)[k]) * Ind(pair.0 in PaidOrders(fd)[k] && pair.1 in PaidOrders(fd)[k])
    {
      SumUpTo(PaidOrders(fd), k, PairTerm(fd, pair));
    }
  }

  lemma SumsStart(fd: Field)
    ensures forall i: nat :: RunnerSum(fd, 0, i) == 0.0
    ensures forall pair: Pair :: PairSum(fd, 0, pair) == 0.0
  {}

  lemma SumsEnd(fd: Field)
    requires fd.Positive()
    ensures forall i: nat :: i < fd.Size() ==>
              RunnerSum(fd, |PaidOrders(fd)|, i) == PlaceProbability(fd, i, PaidPlaceCount(fd.Size()))
    ensures forall pair: Pair :: pair.0 < pair.1 < fd.Size() ==>
              PairSum(fd, |PaidOrders(fd)|, pair) == QplProbability(fd, pair.0, pair.1, PaidPlaceCount(fd.Size()))
  {
    hide Sum, Permutations, PlaceProbability, QplProbability;
    var orders := PaidOrders(fd);
    assert orders[..|orders|] == orders;
    forall i: nat | i < fd.Size()
      ensures RunnerSum(fd, |orders|, i) == PlaceProbability(fd, i, PaidPlaceCount(fd.Size()))
    {
      AccumulatedPlace(fd, i);
    }
    forall pair: Pair | pair.0 < pair.1 < fd.Size()
      ensures PairSum(fd, |orders|, pair) == QplProbability(fd, pair.0, pair.1, PaidPlaceCount(fd.Size()))
    {
      AccumulatedPair(fd, pair);
    }
  }

  /** Accumulating over each finish order once gives exactly the direct PLACE and QPL formulas. */
  method PaidPositionRankings(fd: Field) returns (place: seq<real>, pairs: map<Pair, real>)
    requires fd.Positive()
    ensures |place| == fd.Size()
    ensures forall i: nat :: i < fd.Size() ==> place[i] == PlaceProbability(fd, i, PaidPlaceCount(fd.Size()))
    ensures Pairs(fd.Size(), pairs)
    ensures forall pair: Pair :: pair in pairs ==>
              pairs[pair] == QplProbability(fd, pair.0, pair.1, PaidPlaceCount(fd.Size()))
  {
    hide PaidOrders, RunnerSum, PairSum, QplProbability, PlaceProbability;
    var n := fd.Size();
    place := seq(n, _ => 0.0);
    pairs := AllPairs(n);
    var orders := PaidOrders(fd);
    SumsStart(fd);
    for k := 0 to |orders|
      invariant |place| == n && Pairs(n, pairs)
      invariant forall i: nat :: i < n ==> place[i] == RunnerSum(fd, k, i)
      invariant forall pair: Pair :: pair in pairs ==> pairs[pair] == PairSum(fd, k, pair)
    {
      PaidOrdersInRange(fd, k);
      var q := OrderedByKernel(fd, orders[k]);
      RunningSums(fd, k);
      place := AddRunners(orders[k], q, place);
      pairs := AddPairs(n, orders[k], q, pairs);
    }
    SumsEnd(fd);
  }

  lemma PaidOrdersInRange(fd: Field, k: nat)
    requires k < |PaidOrders(fd)|
    ensures Distinct(PaidOrders(fd)[k]) && forall x: nat :: x in PaidOrders(fd)[k] ==> x < fd.Size()
  {
    OrdersInRange(fd.Size(), PaidPlaceCount(fd.Size()), PaidOrders(fd)[k]);
  }

  /** With positive strengths the kernel loop always returns a value. */
  method OrderedByKernel(fd: Field, order: seq<nat>) returns (p: real)
    requires fd.Positive()
    ensures p == Ordered(fd)(order)
  {
    NeverUndefined(fd, order);
    var q := BenterOrderProbability(order, fd);
    p := q.value;
  }

  lemma OrdersInRange(n: nat, r: nat, o: seq<nat>)
    requires o in Permutations(Range(n), r)
    ensures Distinct(o) && forall x: nat :: x in o ==> x < n
  {
    RangeFacts(n);
    PermutationsAreOrders(Range(n), r, o);
  }

  /** With every strength positive the kernel never divides by zero. */
  lemma NeverUndefined(fd: Field, order: seq<nat>)
    requires fd.Positive()
    ensures !Undefined(fd, 0, Range(fd.Size()), order)
  {
    RangeFacts(fd.Size());
    DefinedWhileRunnersRemain(fd, 0, Range(fd.Size()), order);
  }

  lemma {:induction false} DefinedWhileRunnersRemain(fd: Field, place: nat, remaining: seq<nat>, order: seq<nat>)
    requires fd.Positive() && Distinct(remaining) && forall x: nat :: x in remaining ==> x < fd.Size()
    ensures !Undefined(fd, place, remaining, order)
    decreases |order|
  {
    if order != [] && order[0] in remaining {
      LiveAll(fd, remaining);
      DenominatorPositive(fd, place, remaining);
      RemoveMembers(remaining, order[0]);
      DefinedWhileRunnersRemain(fd, place + 1, Remove(remaining, order[0]), order[1..]);
    }
  }

  /** Weighting an enumeration by an event measures the event. */
  lemma WeightedEnumeration(fd: Field, r: nat, event: seq<nat> -> real, term: seq<nat> -> real)
    requires forall o :: term(o) == Ordered(fd)(o) * event(o)
    ensures Sum(Permutations(Range(fd.Size()), r), term) == Chance(fd, r, event)
  {
    hide Sum, Expect, OrderProbability, Permutations;
    var all := Range(fd.Size());
    var goal := (o: seq<nat>) => Followed(all, r, [], event, o);
    RangeFacts(fd.Size());
    forall o ensures term(o) == Term(fd, 0, all, [], event, o) {
      assert o + [] == o;
    }
    EnumerationIsExpectation(fd, 0, all, all, r, [], event, term, goal);
    forall o: seq<nat> | IsOrder(all, r, o) ensures goal(o) == event(o) {
      assert o[..r] == o;
    }
    ExpectCongruent(fd, 0, all, r, goal, event);
  }

  lemma AccumulatedPlace(fd: Field, i: nat)
    requires fd.Positive() && i < fd.Size()
    ensures Sum(Permutations(Range(fd.Size()), PaidPlaceCount(fd.Size())), RunnerTerm(fd, i))
         == PlaceProbability(fd, i, PaidPlaceCount(fd.Size()))
  {
    hide Sum, Expect, OrderProbability, Permutations, PlaceProbability;
    WholeField(fd);
    WeightedEnumeration(fd, PaidPlaceCount(fd.Size()), Holds(i), RunnerTerm(fd, i));
    PlaceIsChance(fd, i, PaidPlaceCount(fd.Size()));
  }

  lemma AccumulatedPair(fd: Field, pair: Pair)
    requires fd.Positive() && pair.0 < pair.1 < fd.Size()
    ensures Sum(Permutations(Range(fd.Size()), PaidPlaceCount(fd.Size())), PairTerm(fd, pair))
         == QplProbability(fd, pair.0, pair.1, PaidPlaceCount(fd.Size()))
  {
    hide Sum, Expect, OrderProbability, Permutations, QplProbability;
    WeightedEnumeration(fd, PaidPlaceCount(fd.Size()), HoldsBoth(pair.0, pair.1), PairTerm(fd, pair));
    QplIsChance(fd, pair.0, pair.1, PaidPlaceCount(fd.Size()));
  }
}
