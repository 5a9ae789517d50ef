/** Kelly fractions, physical stakes and the cash-cap repair (ima/betting_stakes.py). */
module Stakes {
  import opened Products

  /** A natural logarithm, as far as the growth argument needs it. */
  ghost predicate IsLog(ln: real -> real) {
    && (forall x: real {:trigger ln(x)} :: x > 0.0 ==> ln(x) <= x - 1.0)
    && (forall x: real, y: real {:trigger ln(x), ln(y)} :: x > 0.0 && y > 0.0 ==> ln(x * y) == ln(x) + ln(y))
  }

  datatype Option<+T> = None | Some(value: T)

  datatype Policy = Policy(
    bankroll: real, kellyFraction: real, maxRaceFraction: real, maxTicketFraction: real, minimumCashFraction: real,
    remainingDayBudget: Option<real>, maximumOpenExposure: Option<real>, currentOpenExposure: real, payoutMultiplier: real)
  {
    predicate Valid() {
      && bankroll > 0.0
      && 0.0 <= kellyFraction <= 1.0 && 0.0 <= maxRaceFraction <= 1.0 && 0.0 <= maxTicketFraction <= 1.0
      && 0.0 <= minimumCashFraction <= 1.0 && 0.0 <= payoutMultiplier <= 1.0
      && currentOpenExposure >= 0.0
      && (remainingDayBudget.Some? ==> remainingDayBudget.value >= 0.0)
      && (maximumOpenExposure.Some? ==> maximumOpenExposure.value >= 0.0)
    }

    function CapAmount(): real {
      CapOf(Portion(maxRaceFraction, bankroll), Portion(1.0 - minimumCashFraction, bankroll), Portion(0.9999999999, bankroll),
        remainingDayBudget, maximumOpenExposure, currentOpenExposure)
    }
  }

  /** Positive wager units, the minimum a whole number of increments. */
  datatype Units = Units(minimum: real, increment: real, perMinimum: nat) {
    predicate Valid() {
      increment > 0.0 && minimum > 0.0 && minimum == perMinimum as real * increment
    }

    /** A physical ticket: no bet, or a whole number of increments at least the minimum. */
    ghost predicate Legal(stake: real) {
      stake == 0.0 || (stake >= minimum && exists k: nat :: stake == Whole(k))
    }

    function Whole(k: int): real { k as real * increment }
  }

  function Min(a: real, b: real): real { if a <= b then a else b }

  function Least(a: real, b: real, c: real): (m: real)
    ensures m <= a && m <= b && m <= c && (m == a || m == b || m == c)
  {
    Min(Min(a, b), c)
  }

  function Max(a: real, b: real): real { if a >= b then a else b }

  function Portion(fraction: real, amount: real): real { fraction * amount }

  function CapOf(race: real, cash: real, residue: real, dayBudget: Option<real>, openMaximum: Option<real>, openNow: real): real {
    var base := Min(Min(race, cash), residue);
    var day := if dayBudget.Some? then Min(base, dayBudget.value) else base;
    var open := if openMaximum.Some? then Min(day, openMaximum.value - openNow) else day;
    Max(0.0, open)
  }

  function Ceiling(x: real): int { -((-x).Floor) }

  // ---- physical stakes ----

  function AmountFor(fraction: real, policy: Policy): real {
    Least(Portion(fraction, policy.bankroll), policy.CapAmount(), Portion(policy.maxTicketFraction, policy.bankroll))
  }

  function PhysicalStake(fraction: real, policy: Policy, units: Units): real
    requires units.Valid()
  {
    var rounded := units.Whole((AmountFor(fraction, policy) / units.increment).Floor);
    if rounded < units.minimum then 0.0 else rounded
  }

  lemma FloorOfQuotient(amount: real, units: Units)
    requires amount >= 0.0 && units.Valid()
    ensures var k := (amount / units.increment).Floor;
            k >= 0 && units.Whole(k) <= amount < units.Whole(k + 1)
  {
    var k := (amount / units.increment).Floor;
    QuotientOrder(amount, units.increment, 0.0);
    QuotientOrder(amount, units.increment, k as real);
    QuotientOrder(amount, units.increment, (k + 1) as real);
  }

  lemma WholeOrder(units: Units, j: int, k: int)
    requires units.Valid()
    ensures units.Whole(j) < units.Whole(k) <==> j < k
  {
    if j < k { MulLt(units.increment, j as real, k as real); } else { MulLe(units.increment, k as real, j as real); }
  }

  lemma AmountNonNegative(fraction: real, policy: Policy)
    requires policy.Valid() && fraction >= 0.0
    ensures 0.0 <= AmountFor(fraction, policy)
  {
    MulLe(policy.bankroll, 0.0, fraction);
    MulLe(policy.bankroll, 0.0, policy.maxTicketFraction);
  }

  /** The stake is a legal ticket within all three caps. */
  lemma LegalStake(fraction: real, policy: Policy, units: Units)
    requires policy.Valid() && units.Valid() && fraction >= 0.0
    ensures var stake := PhysicalStake(fraction, policy, units);
            && units.Legal(stake) && 0.0 <= stake <= AmountFor(fraction, policy)
  {
    hide AmountFor;
    AmountNonNegative(fraction, policy);
    FloorOfQuotient(AmountFor(fraction, policy), units);
  }

  /** ... and no legal ticket within them is larger. */
  lemma LargestLegalStake(fraction: real, policy: Policy, units: Units, other: real)
    requires policy.Valid() && units.Valid() && fraction >= 0.0
    requires units.Legal(other) && 0.0 <= other <= AmountFor(fraction, policy)
    ensures other <= PhysicalStake(fraction, policy, units)
  {
    hide AmountFor;
    LegalStake(fraction, policy, units);
    FloorOfQuotient(AmountFor(fraction, policy), units);
    if other != 0.0 {
      var k := (AmountFor(fraction, policy) / units.increment).Floor;
      var j: nat :| other == units.Whole(j);
      WholeOrder(units, j, k + 1);
      WholeOrder(units, k, j);
    }
  }

  // ---- Kelly ----

  function FullKelly(probability: real, decimalReturn: real): real
    requires decimalReturn > 1.0
  {
    Max(0.0, Min(1.0, (probability * decimalReturn - 1.0) / (decimalReturn - 1.0)))
  }

  /** Expectation over winning with probability `p`. */
  function Mix(p: real, win: real, lose: real): real { p * win + (1.0 - p) * lose }

  lemma MixDifference(p: real, a: real, a': real, c: real, c': real)
    ensures Mix(p, a, c) - Mix(p, a', c') == Mix(p, a - a', c - c')
  {}

  lemma MixMonotone(p: real, x': real, x: real, y': real, y: real)
    requires 0.0 <= p <= 1.0 && x' <= x && y' <= y
    ensures Mix(p, x', y') <= Mix(p, x, y)
  {
    MixDifference(p, x, x', y, y');
    MixNonNegative(p, x - x', y - y');
  }

  lemma MixNonNegative(p: real, a: real, b: real)
    requires 0.0 <= p <= 1.0 && a >= 0.0 && b >= 0.0
    ensures Mix(p, a, b) >= 0.0
  {
    MixSplit(p, 1.0 - p, a, b);
  }

  lemma MixSplit(p: real, q: real, a: real, b: real)
    requires p >= 0.0 && q >= 0.0 && p + q == 1.0 && a >= 0.0 && b >= 0.0
    ensures Mix(p, a, b) >= 0.0
  {
    assert p * a >= 0.0;
    assert q * b >= 0.0;
  }

  lemma MixConstant(p: real, x: real)
    ensures Mix(p, x, x) == x
  {}

  /** Wealth after a win and after a loss. */
  function Up(d: real, fraction: real): real { 1.0 + fraction * (d - 1.0) }

  function Down(fraction: real): real { 1.0 - fraction }

  ghost function LogGrowth(ln: real -> real, probability: real, decimalReturn: real, fraction: real): real {
    Mix(probability, ln(Up(decimalReturn, fraction)), ln(Down(fraction)))
  }

  lemma LogRules(ln: real -> real, x: real, y: real)
    requires IsLog(ln) && x > 0.0 && y > 0.0
    ensures ln(x) <= x - 1.0 && ln(x * y) == ln(x) + ln(y)
  {}

  lemma LogOfOne(ln: real -> real, one: real)
    requires IsLog(ln) && one == 1.0
    ensures ln(one) == 0.0
  {
    hide IsLog;
    LogRules(ln, one, one);
    assert one * one == one;
  }

  /** `ln a - ln b <= a/b - 1` */
  lemma LogDifference(ln: real -> real, a: real, b: real)
    requires IsLog(ln) && a > 0.0 && b > 0.0
    ensures ln(a) - ln(b) <= a / b - 1.0
  {
    hide IsLog;
    QuotientOrder(a, b, 0.0);
    LogOfProduct(ln, a / b, b, a);
  }

  lemma LogOfProduct(ln: real -> real, q: real, b: real, a: real)
    requires IsLog(ln) && q > 0.0 && b > 0.0 && b * q == a
    ensures ln(a) == ln(q) + ln(b) && ln(q) <= q - 1.0
  {
    hide IsLog;
    LogRules(ln, q, b);
    assert q * b == a;
  }

  lemma NoBetNoGrowth(ln: real -> real, p: real, d: real, f: real)
    requires IsLog(ln) && f == 0.0
    ensures LogGrowth(ln, p, d, f) == 0.0
  {
    hide IsLog, Mix;
    var u := Up(d, f);
    assert u == 1.0 && Down(f) == u;
    LogOfOne(ln, u);
    MixConstant(p, ln(u));
  }

  lemma WealthPositive(d: real, f: real)
    requires d > 1.0 && 0.0 <= f < 1.0
    ensures Up(d, f) > 0.0 && Down(f) > 0.0
  {
    MulLe(d - 1.0, 0.0, f);
  }

  /** Expected relative gain of betting `f` instead of `g`. */
  function Gain(p: real, d: real, f: real, g: real): real
    requires Up(d, g) > 0.0 && Down(g) > 0.0
  {
    Mix(p, Up(d, f) / Up(d, g) - 1.0, Down(f) / Down(g) - 1.0)
  }

  /** Log growth can exceed another fraction's by at most the expected relative gain. */
  lemma GrowthGap(ln: real -> real, p: real, d: real, f: real, g: real)
    requires IsLog(ln) && 0.0 <= p <= 1.0 && d > 1.0 && 0.0 <= f < 1.0 && 0.0 <= g < 1.0
    ensures Up(d, g) > 0.0 && Down(g) > 0.0
    ensures LogGrowth(ln, p, d, f) - LogGrowth(ln, p, d, g) <= Gain(p, d, f, g)
  {
    hide IsLog, Up, Down, Mix;
    WealthPositive(d, f);
    WealthPositive(d, g);
    LogDifference(ln, Up(d, f), Up(d, g));
    LogDifference(ln, Down(f), Down(g));
    MixDifference(p, ln(Up(d, f)), ln(Up(d, g)), ln(Down(f)), ln(Down(g)));
    MixMonotone(p, ln(Up(d, f)) - ln(Up(d, g)), Up(d, f) / Up(d, g) - 1.0,
      ln(Down(f)) - ln(Down(g)), Down(f) / Down(g) - 1.0);
  }

  /** Where `FullKelly` lands. */
  lemma KellyPoint(p: real, d: real) returns (k: real)
    requires 0.0 <= p <= 1.0 && d > 1.0
    ensures (d - 1.0) * k == p * d - 1.0 && k <= 1.0 && FullKelly(p, d) == Max(0.0, k)
    ensures p < 1.0 ==> k < 1.0
  {
    k := (p * d - 1.0) / (d - 1.0);
    MulLe(d, p, 1.0);
    if p < 1.0 { MulLt(d, p, 1.0); }
    QuotientOrder(p * d - 1.0, d - 1.0, 1.0);
  }

  /** Full Kelly maximises expected log growth over every admissible fraction. */
  lemma KellyMaximises(ln: real -> real, p: real, d: real, f: real)
    requires IsLog(ln) && 0.0 <= p < 1.0 && d > 1.0 && 0.0 <= f < 1.0
    ensures 0.0 <= FullKelly(p, d) < 1.0
    ensures LogGrowth(ln, p, d, f) <= LogGrowth(ln, p, d, FullKelly(p, d))
  {
    hide IsLog, LogGrowth, FullKelly, Gain;
    var k := KellyPoint(p, d);
    if k <= 0.0 {
      GrowthGap(ln, p, d, f, 0.0);
      GainOverCash(p, d, f, k);
    } else {
      GrowthGap(ln, p, d, f, k);
      BalancedGain(p, d, f, k);
    }
  }

  lemma GainOverCash(p: real, d: real, f: real, k: real)
    requires d > 1.0 && (d - 1.0) * k == p * d - 1.0 && k <= 0.0 && f >= 0.0
    ensures Up(d, 0.0) > 0.0 && Down(0.0) > 0.0 && Gain(p, d, f, 0.0) <= 0.0
  {
    assert Up(d, 0.0) == 1.0 && Down(0.0) == 1.0;
    MulLe(d - 1.0, k, 0.0);
    MulLe(f, p * d - 1.0, 0.0);
    assert Gain(p, d, f, 0.0) == p * (f * (d - 1.0)) + (1.0 - p) * (0.0 - f);
    assert p * (f * (d - 1.0)) + (1.0 - p) * (0.0 - f) == f * (p * d - 1.0);
  }

  /** At the Kelly point the expected relative gain of any other fraction is exactly zero. */
  lemma BalancedGain(p: real, d: real, f: real, k: real)
    requires 0.0 <= p < 1.0 && d > 1.0 && (d - 1.0) * k == p * d - 1.0 && 0.0 < k < 1.0
    ensures Up(d, k) > 0.0 && Down(k) > 0.0 && Gain(p, d, f, k) == 0.0
  {
    WealthPositive(d, k);
    var b, u, v := d - 1.0, Up(d, f) / Up(d, k), Down(f) / Down(k);
    assert Up(d, k) == p * d;
    assert (p * d) * u == 1.0 + f * b;
    assert (1.0 - k) * v == 1.0 - f;
    assert (1.0 - k) * b == d * (1.0 - p);
    SumToOne(p, d, b, f, u, v);
  }

  lemma SumToOne(p: real, d: real, b: real, f: real, u: real, v: real)
    requires d > 1.0 && b == d - 1.0
    requires (p * d) * u == 1.0 + f * b && v * (d * (1.0 - p)) == b * (1.0 - f)
    ensures Mix(p, u, v) == 1.0
  {
    ProductOrder(Mix(p, u, v), d, 1.0);
    ProductOrder(1.0, d, Mix(p, u, v));
    assert b * (1.0 - f) == b - f * b;
  }

  /** Betting no more than full Kelly never loses expected log growth. */
  lemma BelowKellyNonNegative(ln: real -> real, p: real, d: real, f: real)
    requires IsLog(ln) && 0.0 <= p <= 1.0 && d > 1.0 && 0.0 <= f < 1.0 && f <= FullKelly(p, d)
    ensures LogGrowth(ln, p, d, f) >= 0.0
  {
    hide IsLog, LogGrowth, FullKelly, Gain;
    NoBetNoGrowth(ln, p, d, 0.0);
    if f > 0.0 {
      var k := KellyPoint(p, d);
      GrowthGap(ln, p, d, 0.0, f);
      CashGain(p, d, f) by {
        MulBelow(d - 1.0, f, k, p * d - 1.0);
      }
    }
  }

  /** Giving up a bet no larger than full Kelly is no expected relative gain. */
  lemma CashGain(p: real, d: real, f: real)
    requires 0.0 <= p <= 1.0 && d > 1.0 && 0.0 < f < 1.0 && (d - 1.0) * f <= p * d - 1.0
    ensures Up(d, f) > 0.0 && Down(f) > 0.0 && Gain(p, d, 0.0, f) <= 0.0
  {
    WealthPositive(d, f);
    var a, c := Up(d, f), Down(f);
    assert Up(d, 0.0) == 1.0 && Down(0.0) == 1.0;
    CashWealth(p, d, f, a, c);
    MulLt(a, 0.0, c);
    Inverse(a);
    Inverse(c);
    hide Up, Down;
    MixLessOne(p, 1.0 / a, 1.0 / c);
    Cleared(p, 1.0 - p, a, c, 1.0 / a, 1.0 / c);
    ProductOrder(Mix(p, 1.0 / a, 1.0 / c), a * c, 1.0);
  }

  lemma Inverse(a: real)
    requires a > 0.0
    ensures a * (1.0 / a) == 1.0
  {}

  lemma MixLessOne(p: real, x: real, y: real)
    ensures Mix(p, x - 1.0, y - 1.0) == Mix(p, x, y) - 1.0
  {}

  /** Cleared of denominators. */
  lemma Cleared(p: real, q: real, a: real, c: real, x: real, y: real)
    requires a * x == 1.0 && c * y == 1.0
    ensures (a * c) * (p * x + q * y) == p * c + q * a
  {
    assert (a * c) * (p * x) == (p * c) * (a * x);
    assert (a * c) * (q * y) == (q * a) * (c * y);
  }

  /** Below full Kelly the product of both wealths exceeds their expectation with the outcomes exchanged. */
  lemma CashWealth(p: real, d: real, f: real, a: real, c: real)
    requires f >= 0.0 && (d - 1.0) * f <= p * d - 1.0
    requires a == 1.0 + f * (d - 1.0) && c == 1.0 - f
    ensures p * c + (1.0 - p) * a <= a * c
  {
    MulLe(f, 0.0, p * d - 1.0 - (d - 1.0) * f);
    assert a * c - (p * c + (1.0 - p) * a) == f * (p * d - 1.0 - (d - 1.0) * f);
  }

  /** `size_single` */
  function SizeFraction(probability: real, d: real, policy: Policy): real
    requires policy.Valid() && d > 1.0
  {
    Least(FullKelly(probability, d) * policy.kellyFraction, policy.CapAmount() / policy.bankroll, policy.maxTicketFraction)
  }

  function StressedReturn(quotedReturn: real, policy: Policy): real {
    quotedReturn * policy.payoutMultiplier
  }

  function SizeSingle(probability: real, quotedReturn: real, policy: Policy, units: Units): real
    requires policy.Valid() && units.Valid() && StressedReturn(quotedReturn, policy) > 1.0
  {
    PhysicalStake(SizeFraction(probability, StressedReturn(quotedReturn, policy), policy), policy, units)
  }

  /** Under every cap; no bet at all is always under those of the cash. */
  predicate UnderCaps(amount: real, kelly: real, ticket: real, race: real, cash: real, residue: real, dayBudget: Option<real>,
                      openMaximum: Option<real>, openNow: real)
  {
    && amount <= kelly && amount <= ticket
    && (amount == 0.0 ||
        (&& amount <= race && amount <= cash && amount <= residue
         && (dayBudget.Some? ==> amount <= dayBudget.value)
         && (openMaximum.Some? ==> amount + openNow <= openMaximum.value)))
  }

  /** What a policy allows a single bet: the fractional Kelly stake, the ticket, race and cash fractions of the bankroll,
      a residue of cash, the day's budget and the open exposure. */
  predicate Allowed(amount: real, probability: real, d: real, policy: Policy)
    requires d > 1.0
  {
    UnderCaps(amount, Portion(Portion(policy.kellyFraction, FullKelly(probability, d)), policy.bankroll),
      Portion(policy.maxTicketFraction, policy.bankroll), Portion(policy.maxRaceFraction, policy.bankroll),
      Portion(1.0 - policy.minimumCashFraction, policy.bankroll), Portion(0.9999999999, policy.bankroll),
      policy.remainingDayBudget, policy.maximumOpenExposure, policy.currentOpenExposure)
  }

  lemma CapBound(amount: real, kelly: real, ticket: real, race: real, cash: real, residue: real, dayBudget: Option<real>,
                 openMaximum: Option<real>, openNow: real)
    requires amount >= 0.0
    ensures amount <= Least(kelly, CapOf(race, cash, residue, dayBudget, openMaximum, openNow), ticket)
       <==> UnderCaps(amount, kelly, ticket, race, cash, residue, dayBudget, openMaximum, openNow)
  {}

  /** The single stake is the largest legal ticket that the policy allows at the stressed return. */
  lemma SingleStakeIsLargest(probability: real, quotedReturn: real, policy: Policy, units: Units)
    requires policy.Valid() && units.Valid() && quotedReturn * policy.payoutMultiplier > 1.0
    ensures StressedReturn(quotedReturn, policy) > 1.0
    ensures var stake, d := SizeSingle(probability, quotedReturn, policy, units), quotedReturn * policy.payoutMultiplier;
            && stake >= 0.0 && units.Legal(stake) && Allowed(stake, probability, d, policy)
            && forall other :: other >= 0.0 && units.Legal(other) && Allowed(other, probability, d, policy) ==> other <= stake
  {
    hide FullKelly, Policy.CapAmount, Units.Legal, Units.Valid, AmountFor, PhysicalStake, Allowed;
    var d := quotedReturn * policy.payoutMultiplier;
    assert StressedReturn(quotedReturn, policy) == d;
    hide StressedReturn, SizeFraction;
    var fraction := SizeFraction(probability, d, policy);
    SizeFractionFacts(probability, d, policy);
    LegalStake(fraction, policy, units);
    AmountIsAllowed(probability, d, policy, PhysicalStake(fraction, policy, units));
    forall other | other >= 0.0 && units.Legal(other) && Allowed(other, probability, d, policy)
      ensures other <= PhysicalStake(fraction, policy, units)
    {
      AmountIsAllowed(probability, d, policy, other);
      LargestLegalStake(fraction, policy, units, other);
    }
  }

  /** The amount that is rounded down is exactly the most that is allowed. */
  lemma AmountIsAllowed(probability: real, d: real, policy: Policy, amount: real)
    requires policy.Valid() && d > 1.0 && amount >= 0.0
    ensures amount <= AmountFor(SizeFraction(probability, d, policy), policy) <==> Allowed(amount, probability, d, policy)
  {
    hide FullKelly, AmountFor, SizeFraction, Least, CapOf, UnderCaps, Portion;
    AmountIsLeast(probability, d, policy);
    CapBound(amount, Portion(Portion(policy.kellyFraction, FullKelly(probability, d)), policy.bankroll),
      Portion(policy.maxTicketFraction, policy.bankroll), Portion(policy.maxRaceFraction, policy.bankroll),
      Portion(1.0 - policy.minimumCashFraction, policy.bankroll), Portion(0.9999999999, policy.bankroll),
      policy.remainingDayBudget, policy.maximumOpenExposure, policy.currentOpenExposure);
  }

  /** Dividing by the bankroll and multiplying by it again changes no cap. */
  lemma AmountIsLeast(probability: real, d: real, policy: Policy)
    requires policy.Valid() && d > 1.0
    ensures AmountFor(SizeFraction(probability, d, policy), policy)
         == Least(Portion(Portion(policy.kellyFraction, FullKelly(probability, d)), policy.bankroll), policy.CapAmount(),
                  Portion(policy.maxTicketFraction, policy.bankroll))
  {
    hide FullKelly, Policy.CapAmount, Least;
    UnfoldAmount(SizeFraction(probability, d, policy), policy);
    UnfoldFraction(probability, d, policy);
    hide AmountFor, SizeFraction, Policy.Valid, Portion;
    LeastOfFractions(FullKelly(probability, d), policy.kellyFraction, policy.CapAmount(), policy.maxTicketFraction, policy.bankroll);
  }

  lemma UnfoldAmount(fraction: real, policy: Policy)
    ensures AmountFor(fraction, policy)
         == Least(Portion(fraction, policy.bankroll), policy.CapAmount(), Portion(policy.maxTicketFraction, policy.bankroll))
  {
    hide Policy.CapAmount, Least, Portion;
  }

  lemma UnfoldFraction(probability: real, d: real, policy: Policy)
    requires policy.Valid() && d > 1.0
    ensures policy.bankroll > 0.0
    ensures SizeFraction(probability, d, policy)
         == Least(FullKelly(probability, d) * policy.kellyFraction, policy.CapAmount() / policy.bankroll, policy.maxTicketFraction)
  {
    hide Policy.CapAmount, Least, FullKelly;
  }

  lemma LeastOfFractions(kelly: real, part: real, cap: real, ticket: real, bankroll: real)
    requires bankroll > 0.0
    ensures Least(Portion(Least(kelly * part, cap / bankroll, ticket), bankroll), cap, Portion(ticket, bankroll))
         == Least(Portion(Portion(part, kelly), bankroll), cap, Portion(ticket, bankroll))
  {
    hide Least, Portion;
    LeastTimes(kelly * part, cap / bankroll, ticket, bankroll);
    PortionIs(part, kelly);
    DivideBack(cap, bankroll);
    LeastAgain(Portion(Portion(part, kelly), bankroll), cap, Portion(ticket, bankroll));
  }

  lemma PortionIs(a: real, b: real)
    ensures Portion(a, b) == b * a
  {}

  lemma DivideBack(a: real, b: real)
    requires b > 0.0
    ensures Portion(a / b, b) == a
  {}

  lemma LeastAgain(a: real, b: real, c: real)
    ensures Least(Least(a, b, c), b, c) == Least(a, b, c)
  {}

  lemma LeastTimes(a: real, b: real, c: real, k: real)
    requires k > 0.0
    ensures Portion(Least(a, b, c), k) == Least(Portion(a, k), Portion(b, k), Portion(c, k))
  {
    if a <= b { MulLe(k, a, b); } else { MulLe(k, b, a); }
    var m := Min(a, b);
    if m <= c { MulLe(k, m, c); } else { MulLe(k, c, m); }
  }

  /** The capped, fractional, rounded-down single stake is legal and never has negative expected growth. */
  lemma SingleStakeGrows(ln: real -> real, probability: real, quotedReturn: real, policy: Policy, units: Units)
    requires IsLog(ln) && 0.0 <= probability <= 1.0 && policy.Valid() && units.Valid()
    requires StressedReturn(quotedReturn, policy) > 1.0
    ensures var stake := SizeSingle(probability, quotedReturn, policy, units);
            var d := StressedReturn(quotedReturn, policy);
            policy.bankroll > 0.0
            && units.Legal(stake) && stake <= policy.CapAmount()
            && 0.0 <= stake / policy.bankroll < 1.0
            && LogGrowth(ln, probability, d, stake / policy.bankroll) >= 0.0
  {
    hide IsLog, LogGrowth, PhysicalStake, SizeFraction, Units.Legal, StressedReturn, FullKelly, Policy.CapAmount, Units.Valid, Policy.Valid;
    var d := StressedReturn(quotedReturn, policy);
    SizeFractionFacts(probability, d, policy);
    StakeFraction(SizeFraction(probability, d, policy), policy, units);
    BelowKellyNonNegative(ln, probability, d, SizeSingle(probability, quotedReturn, policy, units) / policy.bankroll);
  }

  lemma SizeFractionFacts(probability: real, d: real, policy: Policy)
    requires policy.Valid() && d > 1.0
    ensures 0.0 <= SizeFraction(probability, d, policy) <= FullKelly(probability, d)
    ensures SizeFraction(probability, d, policy) < 1.0
  {
    hide FullKelly, Policy.CapAmount, Least;
    FullKellyNonNegative(probability, d);
    Shrink(FullKelly(probability, d), policy.kellyFraction);
    CapFraction(policy);
  }

  lemma FullKellyNonNegative(p: real, d: real)
    requires d > 1.0
    ensures FullKelly(p, d) >= 0.0
  {}

  lemma StakeFraction(fraction: real, policy: Policy, units: Units)
    requires policy.Valid() && units.Valid() && fraction >= 0.0
    ensures var stake := PhysicalStake(fraction, policy, units);
            policy.bankroll > 0.0
            && units.Legal(stake) && stake <= policy.CapAmount() && 0.0 <= stake / policy.bankroll <= fraction
  {
    hide PhysicalStake, Units.Legal, Units.Valid, AmountFor, Policy.CapAmount;
    LegalStake(fraction, policy, units);
    StakeWithinCaps(fraction, policy, units);
  }

  lemma StakeWithinCaps(fraction: real, policy: Policy, units: Units)
    requires policy.Valid() && units.Valid() && fraction >= 0.0
    ensures PhysicalStake(fraction, policy, units) <= policy.CapAmount()
    ensures PhysicalStake(fraction, policy, units) <= policy.bankroll * fraction
    ensures PhysicalStake(fraction, policy, units) <= policy.bankroll * policy.maxTicketFraction
  {
    hide PhysicalStake, AmountFor, Policy.CapAmount, Units.Legal, Units.Valid, Policy.Valid;
    LegalStake(fraction, policy, units);
    AmountWithinCaps(fraction, policy);
  }

  lemma AmountWithinCaps(fraction: real, policy: Policy)
    ensures AmountFor(fraction, policy) <= policy.CapAmount()
    ensures AmountFor(fraction, policy) <= policy.bankroll * fraction
    ensures AmountFor(fraction, policy) <= policy.bankroll * policy.maxTicketFraction
  {
    hide Policy.CapAmount;
  }

  lemma CapFraction(policy: Policy)
    requires policy.Valid()
    ensures 0.0 <= policy.CapAmount() / policy.bankroll < 1.0
  {
    QuotientOrder(policy.CapAmount(), policy.bankroll, 0.0);
    QuotientOrder(policy.CapAmount(), policy.bankroll, 0.9999999999);
  }

  // ---- the cash-cap repair ----

  function Total(xs: seq<real>): real {
    if xs == [] then 0.0 else Total(xs[..|xs|-1]) + xs[|xs|-1]
  }

  lemma {:induction false} TotalUpdate(xs: seq<real>, j: nat, v: real)
    requires j < |xs|
    ensures Total(xs[j := v]) == Total(xs) - xs[j] + v
  {
    var n := |xs| - 1;
    if j < n {
      assert xs[j := v][..n] == xs[..n][j := v];
      TotalUpdate(xs[..n], j, v);
    } else {
      assert xs[j := v][..n] == xs[..n];
    }
  }

  lemma {:induction false} TotalOfZeros(xs: seq<real>)
    requires forall i :: 0 <= i < |xs| ==> xs[i] == 0.0
    ensures Total(xs) == 0.0
  {
    if xs != [] {
      TotalOfZeros(xs[..|xs|-1]);
    }
  }

  /** What one pass of the loop leaves of a stake when `excess` must go. */
  function Trimmed(stake: real, excess: real, units: Units): real
    requires units.Valid()
  {
    var cut := Max(0.0, stake - units.Whole(Ceiling(excess / units.increment)));
    if cut < units.minimum then 0.0 else cut
  }

  lemma CeilingCovers(excess: real, units: Units)
    requires units.Valid() && excess > 0.0
    ensures Ceiling(excess / units.increment) >= 1
    ensures units.Whole(Ceiling(excess / units.increment)) >= excess
  {
    var c := Ceiling(excess / units.increment);
    QuotientOrder(excess, units.increment, 0.0);
    QuotientOrder(excess, units.increment, c as real);
  }

  /** A trimmed stake is still a legal ticket, no larger, and either gone or cut by the whole excess. */
  lemma TrimmedFacts(stake: real, excess: real, units: Units)
    requires units.Valid() && units.Legal(stake) && stake >= 0.0 && excess > 0.0
    ensures units.Legal(Trimmed(stake, excess, units))
    ensures 0.0 <= Trimmed(stake, excess, units) <= stake
    ensures Trimmed(stake, excess, units) == 0.0 || Trimmed(stake, excess, units) <= stake - excess
  {
    CeilingCovers(excess, units);
    var c := Ceiling(excess / units.increment);
    if Trimmed(stake, excess, units) != 0.0 {
      var k: nat :| stake == units.Whole(k);
      WholeOrder(units, 0, k - c);
      assert units.Whole(0) == 0.0;
    }
  }

  /** Nothing larger among legal tickets would do: a trimmed stake gives up no more than the excess asks for. */
  lemma TrimmedIsLargest(stake: real, excess: real, units: Units, other: real)
    requires units.Valid() && units.Legal(stake) && excess > 0.0
    requires units.Legal(other) && 0.0 <= other <= stake - excess
    ensures other <= Trimmed(stake, excess, units)
  {
    if other != 0.0 {
      var k: nat :| stake == units.Whole(k);
      var m: nat :| other == units.Whole(m);
      var c := Ceiling(excess / units.increment);
      WholeMinus(units, k, m);
      WholeMinus(units, k, c);
      QuotientOrder(excess, units.increment, (k - m) as real);
      assert c <= k - m;
      if m < k - c { WholeOrder(units, m, k - c); }
    }
  }

  lemma WholeMinus(units: Units, k: int, m: int)
    ensures units.Whole(k - m) == units.Whole(k) - units.Whole(m)
  {
    assert (k - m) as real == k as real - m as real;
  }

  ghost predicate LegalStakes(units: Units, stakes: seq<real>) {
    forall i :: 0 <= i < |stakes| ==> stakes[i] >= 0.0 && units.Legal(stakes[i])
  }

  /** Untouched up to one position, at most trimmed there, zero beyond it. */
  ghost predicate CutFrom(before: seq<real>, after: seq<real>, at: nat) {
    && |after| == |before| && at <= |before|
    && (forall i :: 0 <= i < at && i < |before| ==> after[i] == before[i])
    && (forall i :: at < i < |before| ==> after[i] == 0.0)
  }

  /** The cut is needed and no deeper than needed: with the stake as it was the rest would still break the cap, and no
      larger legal ticket in its place would meet it. */
  ghost predicate Tight(units: Units, before: seq<real>, after: seq<real>, at: nat, cap: real)
    requires |after| == |before|
  {
    at < |before| ==>
      && Total(after[at := before[at]]) > cap
      && forall other :: 0.0 <= other <= before[at] && units.Legal(other) && Total(after[at := other]) <= cap ==> other <= after[at]
  }

  lemma NothingCut(units: Units, before: seq<real>, cap: real)
    ensures Tight(units, before, before, |before|, cap)
  {}

  lemma TrimIsTight(units: Units, before: seq<real>, now: seq<real>, j: nat, cap: real)
    requires units.Valid() && |now| == |before| && j < |now| && now[j] == before[j] && units.Legal(now[j]) && Total(now) > cap
    ensures Tight(units, before, now[j := Trimmed(now[j], Total(now) - cap, units)], j, cap)
  {
    hide Total, Trimmed, Units.Legal, Units.Valid;
    var after := now[j := Trimmed(now[j], Total(now) - cap, units)];
    assert after[j := before[j]] == now;
    forall other | 0.0 <= other <= before[j] && units.Legal(other) && Total(after[j := other]) <= cap ensures other <= after[j] {
      assert after[j := other] == now[j := other];
      TotalUpdate(now, j, other);
      TrimmedIsLargest(now[j], Total(now) - cap, units, other);
    }
  }

  /** The reverse loop of `size_portfolio`: afterwards the cap holds and every stake is a legal ticket no
      larger than before. Only a suffix is touched, all but its first stake are cancelled, and the first keeps the most
      the cap allows. */
  method RepairCap(stakes: array<real>, cap: real, units: Units) returns (ghost at: nat)
    requires units.Valid() && cap >= 0.0 && LegalStakes(units, stakes[..])
    modifies stakes
    ensures Total(stakes[..]) <= cap
    ensures LegalStakes(units, stakes[..])
    ensures forall i :: 0 <= i < stakes.Length ==> stakes[i] <= old(stakes[i])
    ensures Total(old(stakes[..])) <= cap ==> stakes[..] == old(stakes[..])
    ensures CutFrom(old(stakes[..]), stakes[..], at)
    ensures Tight(units, old(stakes[..]), stakes[..], at, cap)
  {
    hide Total, Trimmed, Tight;
    ghost var before := stakes[..];
    at := stakes.Length;
    NothingCut(units, before, cap);
    var j := stakes.Length;
    while j > 0
      invariant 0 <= j <= stakes.Length && at <= stakes.Length && LegalStakes(units, stakes[..])
      invariant forall i :: 0 <= i < stakes.Length ==> stakes[i] <= before[i]
      invariant forall i :: 0 <= i < j ==> stakes[i] == before[i]
      invariant CutFrom(before, stakes[..], at) && Tight(units, before, stakes[..], at, cap)
      invariant Total(stakes[..]) <= cap || (forall i :: j <= i < stakes.Length ==> stakes[i] == 0.0)
      invariant Total(before) <= cap ==> stakes[..] == before
    {
      j := j - 1;
      var excess := Total(stakes[..]) - cap;
      if excess <= 0.0 {
        break;
      }
      ghost var now := stakes[..];
      TrimmedFacts(stakes[j], excess, units);
      TrimIsTight(units, before, now, j, cap);
      stakes[j] := Trimmed(stakes[j], excess, units);
      at := j;
      assert stakes[..] == now[j := stakes[j]];
      TotalUpdate(now, j, stakes[j]);
    }
    if Total(stakes[..]) > cap {
      TotalOfZeros(stakes[..]);
    }
  }
}
