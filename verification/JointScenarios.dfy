/** Joint finish scenarios and ticket probabilities (ima/betting_ev.py). */
module JointScenarios {
  import opened Sums
  import opened Enumerations
  import opened PoolKernel
  import opened PoolProbabilities
  import opened PaidPositions
  import opened Settlement

  datatype Scenarios = Scenarios(finishes: seq<Finish>, probabilities: seq<real>, runnerIds: seq<Runner>)

  datatype Error =
    | InvalidStrengths | InvalidDepth | UnidentifiedRanks | BadMass
    | SeveralRaces | PrefixesTooShort | AbsentRunners

  datatype Result<+T> = Ok(value: T) | Err(error: Error)

  /** `math.perm(n, k)` */
  function Perm(n: nat, k: nat): nat {
    if k == 0 then 1 else if n == 0 then 0 else n * Perm(n - 1, k - 1)
  }

  /** The kernel with unit exponents. */
  function UnitField(strengths: seq<real>): Field {
    Field(strengths, OrderExponents(1.0, 1.0), (x: real, e: real) => x)
  }

  function NonZero(strengths: seq<real>): nat {
    UnitField(strengths).Live(Range(|strengths|))
  }

  function Names(ids: seq<Runner>, order: seq<nat>): seq<Runner>
    requires forall x: nat :: x in order ==> x < |ids|
  {
    seq(|order|, i requires 0 <= i < |order| => assert order[i] in order; ids[order[i]])
  }

  function StrictFinish(ids: seq<Runner>, order: seq<nat>): Finish
    requires forall x: nat :: x in order ==> x < |ids|
  {
    Finish(Singletons(Names(ids, order)), [], false)
  }

  predicate AllPositive(strengths: seq<real>, order: seq<nat>) {
    forall x: nat :: x in order ==> x < |strengths| && strengths[x] > 0.0
  }

  /** The orders that survive the zero-strength skip. */
  function KeepPositive(strengths: seq<real>, orders: seq<seq<nat>>): seq<seq<nat>> {
    if orders == [] then []
    else (if AllPositive(strengths, orders[0]) then [orders[0]] else []) + KeepPositive(strengths, orders[1..])
  }

  function Rejection(ids: seq<Runner>, strengths: seq<real>, depth: nat, maxOrders: nat): Result<()> {
    if |ids| != |strengths| || !Distinct(ids) || ids == []
      || (exists i :: 0 <= i < |strengths| && strengths[i] < 0.0)
      || (forall i :: 0 <= i < |strengths| ==> strengths[i] <= 0.0) then Err(InvalidStrengths)
    else if !(1 <= depth <= |ids|) || Perm(|ids|, depth) > maxOrders then Err(InvalidDepth)
    else if NonZero(strengths) < depth then Err(UnidentifiedRanks)
    else Ok(())
  }

  function ExpectedOrders(strengths: seq<real>, depth: nat): seq<seq<nat>> {
    KeepPositive(strengths, Permutations(Range(|strengths|), depth))
  }

  /** The scenarios the enumeration is meant to produce, from the unscaled strengths. */
  ghost predicate Describes(s: Scenarios, ids: seq<Runner>, strengths: seq<real>, depth: nat)
    requires |ids| == |strengths|
  {
    var orders := ExpectedOrders(strengths, depth);
    && |s.finishes| == |s.probabilities| == |orders|
    && s.runnerIds == ids
    && forall k :: 0 <= k < |orders| ==>
        && (forall x: nat :: x in orders[k] ==> x < |ids|)
        && s.finishes[k] == StrictFinish(ids, orders[k])
        && s.probabilities[k] == Ordered(UnitField(strengths))(orders[k])
  }

  // ---- scaling and skipped orders ----

  function Scaled(strengths: seq<real>, c: real): seq<real> {
    seq(|strengths|, i requires 0 <= i < |strengths| => strengths[i] * c)
  }

  lemma {:induction false} ScaledDenominator(strengths: seq<real>, c: real, place: nat, remaining: seq<nat>)
    ensures UnitField(Scaled(strengths, c)).Denominator(place, remaining)
         == c * UnitField(strengths).Denominator(place, remaining)
  {
    var w := (i: nat) => UnitField(strengths).Weight(place, i);
    var wc := (i: nat) => UnitField(Scaled(strengths, c)).Weight(place, i);
    SumScale(remaining, c, w, wc);
    SumCongruent(remaining, w, (i: nat) => UnitField(strengths).Weight(place, i));
    SumCongruent(remaining, wc, (i: nat) => UnitField(Scaled(strengths, c)).Weight(place, i));
  }

  lemma ScaledShare(strengths: seq<real>, c: real, place: nat, remaining: seq<nat>, i: nat)
    requires c != 0.0
    ensures UnitField(Scaled(strengths, c)).Share(place, remaining, i) == UnitField(strengths).Share(place, remaining, i)
  {
    var d := UnitField(strengths).Denominator(place, remaining);
    ScaledDenominator(strengths, c, place, remaining);
  }

  /** Rescaling every strength changes no order probability. */
  lemma {:induction false} ScaleInvariant(strengths: seq<real>, c: real, place: nat, remaining: seq<nat>, order: seq<nat>)
    requires c != 0.0
    ensures OrderProbability(UnitField(Scaled(strengths, c)), place, remaining, order)
         == OrderProbability(UnitField(strengths), place, remaining, order)
    decreases |order|
  {
    if order != [] && order[0] in remaining {
      ScaledShare(strengths, c, place, remaining, order[0]);
      ScaleInvariant(strengths, c, place + 1, Remove(remaining, order[0]), order[1..]);
    }
  }

  lemma {:induction false} ScaledLive(strengths: seq<real>, c: real, runners: seq<nat>)
    requires c > 0.0
    ensures UnitField(Scaled(strengths, c)).Live(runners) == UnitField(strengths).Live(runners)
  {
    if runners != [] {
      ScaledLive(strengths, c, runners[1..]);
    }
  }

  /** Enough nonzero strengths keep every denominator positive, whatever is picked. */
  lemma {:induction false} DefinedToDepth(fd: Field, place: nat, remaining: seq<nat>, order: seq<nat>)
    requires fd.Valid() && |order| <= fd.Live(remaining)
    ensures !Undefined(fd, place, remaining, order)
    decreases |order|
  {
    if order != [] && order[0] in remaining {
      DenominatorPositive(fd, place, remaining);
      LiveRemove(fd, remaining, order[0]);
      DefinedToDepth(fd, place + 1, Remove(remaining, order[0]), order[1..]);
    }
  }

  /** A skipped order would have contributed nothing. */
  lemma {:induction false} SkippedIsZero(strengths: seq<real>, place: nat, remaining: seq<nat>, order: seq<nat>)
    requires forall i :: 0 <= i < |strengths| ==> strengths[i] >= 0.0
    requires !AllPositive(strengths, order)
    ensures OrderProbability(UnitField(strengths), place, remaining, order) == 0.0
    decreases |order|
  {
    if order[0] in remaining {
      assert forall x: nat :: x in order <==> x == order[0] || x in order[1..];
      if order[0] < |strengths| && strengths[order[0]] > 0.0 {
        SkippedIsZero(strengths, place + 1, Remove(remaining, order[0]), order[1..]);
      } else {
        assert UnitField(strengths).Weight(place, order[0]) == 0.0;
      }
    }
  }

  lemma {:induction false} SumKept(strengths: seq<real>, orders: seq<seq<nat>>, f: seq<nat> -> real)
    requires forall o :: !AllPositive(strengths, o) ==> f(o) == 0.0
    ensures Sum(KeepPositive(strengths, orders), f) == Sum(orders, f)
  {
    if orders != [] {
      SumKept(strengths, orders[1..], f);
      SumAppend(if AllPositive(strengths, orders[0]) then [orders[0]] else [], KeepPositive(strengths, orders[1..]), f);
      assert Sum([orders[0]], f) == f(orders[0]) + Sum([orders[0]][1..], f);
    }
  }

  /** Skipping zero-strength orders loses nothing: any event keeps its full chance. */
  lemma KeptChance(strengths: seq<real>, depth: nat, event: seq<nat> -> real, term: seq<nat> -> real)
    requires forall i :: 0 <= i < |strengths| ==> strengths[i] >= 0.0
    requires forall o :: term(o) == Ordered(UnitField(strengths))(o) * event(o)
    ensures Sum(ExpectedOrders(strengths, depth), term) == Chance(UnitField(strengths), depth, event)
  {
    hide Sum, Permutations, Expect;
    forall o: seq<nat> | !AllPositive(strengths, o) ensures term(o) == 0.0 {
      SkippedIsZero(strengths, 0, Range(|strengths|), o);
    }
    SumKept(strengths, Permutations(Range(|strengths|), depth), term);
    WeightedEnumeration(UnitField(strengths), depth, event, term);
  }

  /** The kept orders carry mass exactly one, with no renormalisation. */
  lemma MassIsOne(strengths: seq<real>, depth: nat)
    requires forall i :: 0 <= i < |strengths| ==> strengths[i] >= 0.0
    requires depth <= NonZero(strengths)
    ensures Sum(ExpectedOrders(strengths, depth), Ordered(UnitField(strengths))) == 1.0
  {
    var one := (o: seq<nat>) => 1.0;
    KeptChance(strengths, depth, one, Ordered(UnitField(strengths)));
    TotalMass(UnitField(strengths), 0, Range(|strengths|), depth, one);
  }

  // ---- building the scenarios ----

  lemma {:induction false} KeptMembers(strengths: seq<real>, orders: seq<seq<nat>>, o: seq<nat>)
    ensures o in KeepPositive(strengths, orders) <==> o in orders && AllPositive(strengths, o)
  {
    if orders != [] {
      KeptMembers(strengths, orders[1..], o);
      assert orders == [orders[0]] + orders[1..];
    }
  }

  function Total(xs: seq<real>): real {
    Sum(xs, x => x)
  }

  lemma {:induction false} TotalIsSum<T>(xs: seq<T>, f: T -> real, values: seq<real>)
    requires |values| == |xs| && forall k :: 0 <= k < |xs| ==> values[k] == f(xs[k])
    ensures Total(values) == Sum(xs, f)
  {
    if xs != [] {
      TotalIsSum(xs[1..], f, values[1..]);
    }
  }

  function Max(xs: seq<real>): (m: real)
    requires xs != []
    ensures m in xs && forall x :: x in xs ==> x <= m
  {
    if |xs| == 1 then assert xs == [xs[0]]; xs[0] else
      var rest := Max(xs[1..]);
      assert xs == [xs[0]] + xs[1..];
      if xs[0] >= rest then xs[0] else rest
  }

  /** `JointScenarios.__post_init__`: nonnegative mass within 1e-10 of one. */
  predicate ValidMass(probabilities: seq<real>) {
    && probabilities != []
    && (forall k :: 0 <= k < |probabilities| ==> probabilities[k] >= 0.0)
    && -0.0000000001 <= Total(probabilities) - 1.0 <= 0.0000000001
  }

  lemma {:induction false} OrderNonNegative(fd: Field, place: nat, remaining: seq<nat>, order: seq<nat>)
    requires fd.Valid()
    ensures OrderProbability(fd, place, remaining, order) >= 0.0
    decreases |order|
  {
    if order != [] && order[0] in remaining {
      DenominatorPositive(fd, place, remaining);
      OrderNonNegative(fd, place + 1, Remove(remaining, order[0]), order[1..]);
      var share := fd.Share(place, remaining, order[0]);
      assert share >= 0.0 by {
        if order[0] < fd.Size() {
          assert fd.Weight(place, order[0]) >= 0.0;
        }
      }
    }
  }

  /** The mass check on the finished scenarios never fires. */
  lemma DescribedMass(s: Scenarios, ids: seq<Runner>, strengths: seq<real>, depth: nat)
    requires |ids| == |strengths| && Describes(s, ids, strengths, depth)
    requires forall i :: 0 <= i < |strengths| ==> strengths[i] >= 0.0
    requires depth <= NonZero(strengths)
    ensures Total(s.probabilities) == 1.0 && ValidMass(s.probabilities)
  {
    hide Sum, Permutations, OrderProbability;
    var orders := ExpectedOrders(strengths, depth);
    TotalIsSum(orders, Ordered(UnitField(strengths)), s.probabilities);
    MassIsOne(strengths, depth);
    forall k | 0 <= k < |orders| ensures s.probabilities[k] >= 0.0 {
      OrderNonNegative(UnitField(strengths), 0, Range(|strengths|), orders[k]);
    }
    if s.probabilities == [] {
      SumZero(orders, Ordered(UnitField(strengths)));
    }
  }

  lemma {:induction false} KeepPrefix(strengths: seq<real>, orders: seq<seq<nat>>, k: nat)
    requires k < |orders|
    ensures KeepPositive(strengths, orders[..k+1])
         == KeepPositive(strengths, orders[..k]) + (if AllPositive(strengths, orders[k]) then [orders[k]] else [])
  {
    KeepAppend(strengths, orders[..k], [orders[k]]);
    assert orders[..k+1] == orders[..k] + [orders[k]];
    var last := [orders[k]];
    assert last[1..] == [];
  }

  lemma {:induction false} KeepAppend(strengths: seq<real>, a: seq<seq<nat>>, b: seq<seq<nat>>)
    ensures KeepPositive(strengths, a + b) == KeepPositive(strengths, a) + KeepPositive(strengths, b)
  {
    if a == [] {
      assert a + b == b;
    } else {
      assert (a + b)[1..] == a[1..] + b;
      KeepAppend(strengths, a[1..], b);
    }
  }

  /** `p / p.max()`, with the nonzero pattern unchanged. */
  method Normalize(strengths: seq<real>) returns (p: seq<real>, ghost c: real)
    requires exists i :: 0 <= i < |strengths| && strengths[i] > 0.0
    ensures c > 0.0 && p == Scaled(strengths, c)
  {
    var m := Max(strengths);
    assert m > 0.0 by {
      var i :| 0 <= i < |strengths| && strengths[i] > 0.0;
      assert strengths[i] in strengths;
    }
    p := seq(|strengths|, i requires 0 <= i < |strengths| => strengths[i] / m);
    c := 1.0 / m;
    forall i | 0 <= i < |strengths| ensures p[i] == Scaled(strengths, c)[i] {}
    assert p == Scaled(strengths, c);
  }

  method ConditionalChoiceScenarios(ids: seq<Runner>, strengths: seq<real>, depth: nat, maxOrders: nat)
    returns (r: Result<Scenarios>)
    ensures Rejection(ids, strengths, depth, maxOrders).Err? ==> r == Err(Rejection(ids, strengths, depth, maxOrders).error)
    ensures Rejection(ids, strengths, depth, maxOrders).Ok? ==>
              r.Ok? && Describes(r.value, ids, strengths, depth) && ValidMass(r.value.probabilities)
  {
    hide Permutations, OrderProbability, KeepPositive, Undefined, Sum;
    var check := Rejection(ids, strengths, depth, maxOrders);
    if check.Err? {
      return Err(check.error);
    }
    var p, c := Normalize(strengths);
    var orders := Permutations(Range(|strengths|), depth);
    var finishes: seq<Finish>, mass: seq<real> := [], [];
    ghost var kept: seq<seq<nat>> := [];
    assert KeepPositive(strengths, orders[..0]) == [] by { KeepNone(strengths, orders); }
    for k := 0 to |orders|
      invariant kept == KeepPositive(strengths, orders[..k])
      invariant Describes'(finishes, mass, ids, strengths, kept)
    {
      KeepPrefix(strengths, orders, k);
      PositiveScaled(strengths, c, orders[k]);
      if AllPositive(p, orders[k]) {
        NotUndefined(strengths, c, depth, orders[k]);
        var q := BenterOrderProbability(orders[k], UnitField(p));
        assert q == Value(Ordered(UnitField(strengths))(orders[k]));
        finishes := finishes + [StrictFinish(ids, orders[k])];
        mass := mass + [q.value];
        kept := kept + [orders[k]];
      }
    }
    assert orders[..|orders|] == orders;
    var s := Scenarios(finishes, mass, ids);
    DescribedMass(s, ids, strengths, depth);
    if !ValidMass(mass) {
      return Err(BadMass);
    }
    r := Ok(s);
  }

  ghost predicate Describes'(finishes: seq<Finish>, mass: seq<real>, ids: seq<Runner>, strengths: seq<real>, orders: seq<seq<nat>>) {
    && |finishes| == |mass| == |orders|
    && forall k :: 0 <= k < |orders| ==>
        && (forall x: nat :: x in orders[k] ==> x < |ids|)
        && finishes[k] == StrictFinish(ids, orders[k])
        && mass[k] == Ordered(UnitField(strengths))(orders[k])
  }

  lemma KeepNone(strengths: seq<real>, orders: seq<seq<nat>>)
    ensures KeepPositive(strengths, orders[..0]) == []
  {}

  lemma PositiveScaled(strengths: seq<real>, c: real, order: seq<nat>)
    requires c > 0.0
    ensures AllPositive(Scaled(strengths, c), order) <==> AllPositive(strengths, order)
  {
    forall x: nat | x < |strengths| ensures strengths[x] > 0.0 <==> Scaled(strengths, c)[x] > 0.0 {}
  }

  lemma NotUndefined(strengths: seq<real>, c: real, depth: nat, order: seq<nat>)
    requires c > 0.0 && order in Permutations(Range(|strengths|), depth) && depth <= NonZero(strengths)
    requires forall i :: 0 <= i < |strengths| ==> strengths[i] >= 0.0
    ensures !Undefined(UnitField(Scaled(strengths, c)), 0, Range(|strengths|), order)
    ensures OrderProbability(UnitField(Scaled(strengths, c)), 0, Range(|strengths|), order)
         == Ordered(UnitField(strengths))(order)
  {
    hide Permutations, OrderProbability;
    RangeFacts(|strengths|);
    PermutationsAreOrders(Range(|strengths|), depth, order);
    ScaledLive(strengths, c, Range(|strengths|));
    DefinedToDepth(UnitField(Scaled(strengths, c)), 0, Range(|strengths|), order);
    ScaleInvariant(strengths, c, 0, Range(|strengths|), order);
  }
}
