/** Unit expressions, their signatures, and what a unit is worth (ima/feature_expressions.py). */
module UnitSignatures {

  datatype Option<+T> = None | Some(value: T)

  /** The numerical library: `x ** e` where it is finite, square root of nonnegatives, logarithm of positives. */
  datatype Numerics = Numerics(pow: (real, real) -> Option<real>, root: real -> real, log: real -> real)

  // The laws of real powers the unit algebra relies on, one instance each.

  ghost predicate PositiveLaw(num: Numerics, k: real, e: real) {
    k > 0.0 ==> num.pow(k, e).Some? && num.pow(k, e).value > 0.0
  }

  ghost predicate ZeroLaw(num: Numerics, x: real, e: real) {
    e == 0.0 ==> num.pow(x, e) == Some(1.0)
  }

  ghost predicate ProductLaw(num: Numerics, k: real, x: real, kx: real, e: real) {
    k > 0.0 && kx == Times(k, x) ==>
      num.pow(kx, e) == if num.pow(x, e).None? then None else Some(Times(PowOr(num, k, e), num.pow(x, e).value))
  }

  ghost predicate SumLaw(num: Numerics, k: real, a: real, b: real, c: real) {
    k > 0.0 && c == a + b ==> PowOr(num, k, c) == Times(PowOr(num, k, a), PowOr(num, k, b))
  }

  ghost predicate TowerLaw(num: Numerics, k: real, a: real, b: real, c: real) {
    k > 0.0 && c == a * b ==> PowOr(num, PowOr(num, k, a), b) == PowOr(num, k, c)
  }

  ghost predicate RootLaw(num: Numerics, k: real, x: real, kx: real) {
    k > 0.0 && x >= 0.0 && kx == Times(k, x) ==> num.root(kx) == Times(PowOr(num, k, 0.5), num.root(x))
  }

  ghost predicate IsNumerics(num: Numerics) {
    && (forall k, e :: PositiveLaw(num, k, e))
    && (forall x, e :: ZeroLaw(num, x, e))
    && (forall k, x, kx, e :: ProductLaw(num, k, x, kx, e))
    && (forall k, a, b, c :: SumLaw(num, k, a, b, c))
    && (forall k, a, b, c :: TowerLaw(num, k, a, b, c))
    && (forall k, x, kx :: RootLaw(num, k, x, kx))
  }

  // ---- units ----

  /** Exponents of the base dimensions; zero exponents are never stored. */
  type Dims = map<string, real>

  datatype Unit = Unit(dims: Dims, scale: real)

  /** A parsed unit string; `Malformed` stands for any other syntax, with its number of syntax nodes. */
  datatype UnitTree =
    | Name(name: string) | One | Product(l: UnitTree, r: UnitTree) | Quotient(l: UnitTree, r: UnitTree)
    | Power(base: UnitTree, negative: bool, magnitude: real) | Malformed(nodes: nat)

  datatype Error =
    | Complexity | UnknownDependency | Taint | UnverifiedAvailability | UnitMismatch | NumericDomain
    | UnitSyntax | UnitComplexity | UnitExponent

  datatype Result<+T> = Ok(value: T) | Err(error: Error)

  const UNITS: map<string, Dims> := map[
    "m" := map["length" := 1.0], "km" := map["length" := 1.0],
    "s" := map["time" := 1.0], "sec" := map["time" := 1.0], "seconds" := map["time" := 1.0], "ms" := map["time" := 1.0],
    "day" := map["time" := 1.0], "days" := map["time" := 1.0],
    "kg" := map["mass" := 1.0], "g" := map["mass" := 1.0], "lb" := map["mass" := 1.0],
    "mps" := map["length" := 1.0, "time" := -1.0],
    "lengths" := map["beaten_lengths" := 1.0], "rating" := map["rating" := 1.0]]

  const SCALES: map<string, real> := map[
    "km" := 1000.0, "ms" := 0.001, "day" := 86400.0, "days" := 86400.0, "g" := 0.001, "lb" := 0.45359237]

  function Get(d: Dims, k: string): real {
    if k in d then d[k] else 0.0
  }

  function NameUnit(name: string): Unit {
    Unit(if name in UNITS then UNITS[name] else map[name := 1.0], if name in SCALES then SCALES[name] else 1.0)
  }

  /** Adding `sign` times the exponents of `b`, dropping what cancels. */
  function Merge(a: Dims, b: Dims, sign: real): Dims {
    map k | k in a.Keys + b.Keys && Get(a, k) + sign * Get(b, k) != 0.0 :: Get(a, k) + sign * Get(b, k)
  }

  function Stretch(d: Dims, e: real): Dims {
    map k | k in d && d[k] * e != 0.0 :: d[k] * e
  }

  /** Syntax nodes as the parser counts them: a name carries its context, an operation its operator. */
  function TreeNodes(t: UnitTree): nat {
    match t
    case Malformed(n) => n
    case One => 1
    case Name(_) => 2
    case Product(l, r) => 2 + TreeNodes(l) + TreeNodes(r)
    case Quotient(l, r) => 2 + TreeNodes(l) + TreeNodes(r)
    case Power(b, negative, _) => (if negative then 5 else 3) + TreeNodes(b)
  }

  function Exponent(negative: bool, magnitude: real): real {
    if negative then -magnitude else magnitude
  }

  /** The signature of a unit expression: exponents of base dimensions, and the scale to base units. */
  function VisitUnit(num: Numerics, t: UnitTree): Result<Unit> {
    match t
    case Malformed(_) => Err(UnitSyntax)
    case One => Ok(Unit(map[], 1.0))
    case Name(n) => Ok(NameUnit(n))
    case Product(l, r) =>
      var a := VisitUnit(num, l);
      var b := VisitUnit(num, r);
      if a.Err? then a else if b.Err? then b
      else Ok(Unit(Merge(a.value.dims, b.value.dims, 1.0), Times(a.value.scale, b.value.scale)))
    case Quotient(l, r) =>
      var a := VisitUnit(num, l);
      var b := VisitUnit(num, r);
      if a.Err? then a else if b.Err? then b
      else Ok(Unit(Merge(a.value.dims, b.value.dims, -1.0), Divide(a.value.scale, b.value.scale)))
    case Power(base, negative, magnitude) =>
      if magnitude > 8.0 || magnitude < -8.0 then Err(UnitExponent)
      else
        var a := VisitUnit(num, base);
        var e := Exponent(negative, magnitude);
        if a.Err? then a else Ok(Unit(Stretch(a.value.dims, e), PowOr(num, a.value.scale, e)))
  }

  function UnitSignature(num: Numerics, t: UnitTree): Result<Unit> {
    if TreeNodes(t) > 64 then Err(UnitComplexity) else VisitUnit(num, t)
  }

  /** The merging loop: the right exponents are added into a copy of the left, then zeros are dropped. */
  method MergeInto(a: Dims, b: Dims, sign: real) returns (r: Dims)
    ensures r == Merge(a, b, sign)
  {
    var d, left := a, b.Keys;
    while left != {}
      invariant left <= b.Keys && d.Keys == a.Keys + (b.Keys - left)
      invariant forall k | k in d :: d[k] == if k in b.Keys - left then Get(a, k) + sign * b[k] else Get(a, k)
    {
      var k :| k in left;
      d := d[k := Get(d, k) + sign * b[k]];
      left := left - {k};
    }
    r := map k | k in d && d[k] != 0.0 :: d[k];
    MergedEntries(a, b, sign, d);
  }

  /** The recursive visit, with the merging loop in place. */
  method Visit(num: Numerics, t: UnitTree) returns (r: Result<Unit>)
    ensures r == VisitUnit(num, t)
  {
    match t
    case Malformed(_) => return Err(UnitSyntax);
    case One => return Ok(Unit(map[], 1.0));
    case Name(n) => return Ok(NameUnit(n));
    case Product(l, r) =>
      var a := Visit(num, l);
      if a.Err? { return a; }
      var b := Visit(num, r);
      if b.Err? { return b; }
      var d := MergeInto(a.value.dims, b.value.dims, 1.0);
      return Ok(Unit(d, Times(a.value.scale, b.value.scale)));
    case Quotient(l, r) =>
      var a := Visit(num, l);
      if a.Err? { return a; }
      var b := Visit(num, r);
      if b.Err? { return b; }
      var d := MergeInto(a.value.dims, b.value.dims, -1.0);
      return Ok(Unit(d, Divide(a.value.scale, b.value.scale)));
    case Power(base, negative, magnitude) =>
      if magnitude > 8.0 || magnitude < -8.0 { return Err(UnitExponent); }
      var a := Visit(num, base);
      if a.Err? { return a; }
      var e := Exponent(negative, magnitude);
      return Ok(Unit(Stretch(a.value.dims, e), PowOr(num, a.value.scale, e)));
  }

  lemma MergedEntries(a: Dims, b: Dims, sign: real, d: Dims)
    requires d.Keys == a.Keys + b.Keys
    requires forall k | k in d :: d[k] == if k in b then Get(a, k) + sign * b[k] else Get(a, k)
    ensures (map k | k in d && d[k] != 0.0 :: d[k]) == Merge(a, b, sign)
  {
    forall k | k in d ensures d[k] == Get(a, k) + sign * Get(b, k) {
      if k !in b {
        assert sign * Get(b, k) == 0.0;
      }
    }
  }

  /** Products stand behind a name, so that proofs only unfold them where a product law is the point. */
  function Times(a: real, b: real): real {
    a * b
  }

  function Divide(a: real, b: real): real {
    if b == 0.0 then 0.0 else a / b
  }

  function PowOr(num: Numerics, x: real, e: real): real {
    var p := num.pow(x, e);
    if p.Some? then p.value else 0.0
  }

  // ---- what a unit is worth ----

  /** The size of the base units listed in `bases`, raised to the exponents of `d`. */
  ghost function Factor(num: Numerics, bases: seq<string>, size: string -> real, d: Dims): real {
    if bases == [] then 1.0
    else Times(PowOr(num, size(bases[0]), Get(d, bases[0])), Factor(num, bases[1..], size, d))
  }

  /** A change of units: to base scale, by resized base units, or both. */
  datatype Change = Change(toBase: bool, bases: seq<string>, size: string -> real)

  ghost predicate Sized(c: Change) {
    forall k :: c.size(k) > 0.0
  }

  ghost function Weight(num: Numerics, c: Change, u: Unit): real {
    Times(ScaleFactor(c.toBase, u.scale), Factor(num, c.bases, c.size, u.dims))
  }

  // laws, one at a time

  lemma PowPositive(num: Numerics, k: real, e: real)
    requires IsNumerics(num) && k > 0.0
    ensures num.pow(k, e) == Some(PowOr(num, k, e)) && PowOr(num, k, e) > 0.0
  {
    assert PositiveLaw(num, k, e);
  }

  lemma PowSum(num: Numerics, k: real, a: real, b: real, c: real)
    requires IsNumerics(num) && k > 0.0 && a + b == c
    ensures PowOr(num, k, c) == Times(PowOr(num, k, a), PowOr(num, k, b))
  {
    hide Times;
    assert SumLaw(num, k, a, b, c);
  }

  lemma PowPow(num: Numerics, k: real, a: real, b: real, c: real)
    requires IsNumerics(num) && k > 0.0 && a * b == c
    ensures PowOr(num, PowOr(num, k, a), b) == PowOr(num, k, c)
  {
    assert TowerLaw(num, k, a, b, c);
  }

  lemma PowProduct(num: Numerics, k: real, x: real, e: real, kx: real)
    requires IsNumerics(num) && k > 0.0 && Times(k, x) == kx
    ensures num.pow(kx, e) == if num.pow(x, e).None? then None else Some(Times(PowOr(num, k, e), num.pow(x, e).value))
  {
    hide Times;
    assert ProductLaw(num, k, x, kx, e);
  }

  lemma RootProduct(num: Numerics, k: real, x: real, kx: real)
    requires IsNumerics(num) && k > 0.0 && x >= 0.0 && Times(k, x) == kx
    ensures num.root(kx) == Times(PowOr(num, k, 0.5), num.root(x))
  {
    hide Times;
    assert RootLaw(num, k, x, kx);
  }

  lemma PowZero(num: Numerics, x: real, e: real)
    requires IsNumerics(num) && e == 0.0
    ensures num.pow(x, e) == Some(1.0)
  {
    assert ZeroLaw(num, x, e);
  }

  // products

  lemma MulPositive(a: real, b: real)
    requires a > 0.0 && b > 0.0
    ensures Times(a, b) > 0.0
  {}

  lemma MulSwap(a: real, b: real, c: real, d: real, ac: real, bd: real)
    requires ac == Times(a, c) && bd == Times(b, d)
    ensures Times(ac, bd) == Times(Times(a, b), Times(c, d))
  {}

  // ---- Factor turns the exponent algebra into multiplication ----

  lemma {:induction false} FactorPositive(num: Numerics, bases: seq<string>, size: string -> real, d: Dims)
    requires IsNumerics(num) && forall k :: size(k) > 0.0
    ensures Factor(num, bases, size, d) > 0.0
  {
    hide Times, IsNumerics;
    if bases != [] {
      FactorPositive(num, bases[1..], size, d);
      PowPositive(num, size(bases[0]), Get(d, bases[0]));
      MulPositive(PowOr(num, size(bases[0]), Get(d, bases[0])), Factor(num, bases[1..], size, d));
    }
  }

  lemma {:induction false} FactorSum(num: Numerics, bases: seq<string>, size: string -> real, a: Dims, b: Dims, c: Dims)
    requires IsNumerics(num) && forall k :: size(k) > 0.0
    requires forall k :: Get(c, k) == Get(a, k) + Get(b, k)
    ensures Factor(num, bases, size, c) == Times(Factor(num, bases, size, a), Factor(num, bases, size, b))
  {
    hide Times, IsNumerics, Get, PowOr;
    if bases == [] {
      TimesOne(1.0);
    } else {
      var k := bases[0];
      FactorSum(num, bases[1..], size, a, b, c);
      PowSum(num, size(k), Get(a, k), Get(b, k), Get(c, k));
      MulSwap(PowOr(num, size(k), Get(a, k)), Factor(num, bases[1..], size, a),
        PowOr(num, size(k), Get(b, k)), Factor(num, bases[1..], size, b),
        PowOr(num, size(k), Get(c, k)), Factor(num, bases[1..], size, c));
    }
  }

  lemma MergeGet(a: Dims, b: Dims, sign: real, k: string)
    ensures Get(Merge(a, b, sign), k) == Get(a, k) + sign * Get(b, k)
  {
    if k !in a && k !in b {
      assert sign * Get(b, k) == 0.0;
    }
  }

  lemma FactorMerge(num: Numerics, bases: seq<string>, size: string -> real, a: Dims, b: Dims)
    requires IsNumerics(num) && forall k :: size(k) > 0.0
    ensures Factor(num, bases, size, Merge(a, b, 1.0)) == Times(Factor(num, bases, size, a), Factor(num, bases, size, b))
  {
    hide Times, IsNumerics, Factor, Merge;
    forall k ensures Get(Merge(a, b, 1.0), k) == Get(a, k) + Get(b, k) { MergeGet(a, b, 1.0, k); }
    FactorSum(num, bases, size, a, b, Merge(a, b, 1.0));
  }

  /** Cancelling: the quotient's exponents, multiplied back, give the numerator's. */
  lemma FactorQuotient(num: Numerics, bases: seq<string>, size: string -> real, a: Dims, b: Dims)
    requires IsNumerics(num) && forall k :: size(k) > 0.0
    ensures Times(Factor(num, bases, size, Merge(a, b, -1.0)), Factor(num, bases, size, b)) == Factor(num, bases, size, a)
  {
    hide Times, IsNumerics, Factor, Merge;
    forall k ensures Get(a, k) == Get(Merge(a, b, -1.0), k) + Get(b, k) { MergeGet(a, b, -1.0, k); }
    FactorSum(num, bases, size, Merge(a, b, -1.0), b, a);
  }

  lemma {:induction false} FactorStretch(num: Numerics, bases: seq<string>, size: string -> real, d: Dims, e: real, de: Dims)
    requires IsNumerics(num) && forall k :: size(k) > 0.0
    requires forall k :: Get(de, k) == Get(d, k) * e
    ensures Factor(num, bases, size, de) == PowOr(num, Factor(num, bases, size, d), e)
  {
    hide Times, IsNumerics, Get, PowOr;
    if bases == [] {
      PowOfOne(num, 1.0, e);
    } else {
      var k := bases[0];
      FactorStretch(num, bases[1..], size, d, e, de);
      FactorPositive(num, bases[1..], size, d);
      PowPositive(num, size(k), Get(d, k));
      PowPow(num, size(k), Get(d, k), e, Get(de, k));
      PowOfProduct(num, PowOr(num, size(k), Get(d, k)), Factor(num, bases[1..], size, d), e, Factor(num, bases, size, d));
    }
  }

  lemma PowOfProduct(num: Numerics, x: real, y: real, e: real, xy: real)
    requires IsNumerics(num) && x > 0.0 && y > 0.0 && Times(x, y) == xy
    ensures PowOr(num, xy, e) == Times(PowOr(num, x, e), PowOr(num, y, e))
  {
    hide Times, IsNumerics;
    PowProduct(num, x, y, e, xy);
    PowPositive(num, y, e);
  }

  lemma PowOfOne(num: Numerics, one: real, e: real)
    requires IsNumerics(num) && one == 1.0
    ensures PowOr(num, one, e) == 1.0
  {
    hide Times, IsNumerics, PowOr;
    PowPositive(num, one, e);
    TimesOne(one);
    PowOfProduct(num, one, one, e, one);
    IdempotentIsOne(PowOr(num, one, e), Times(PowOr(num, one, e), PowOr(num, one, e)));
  }

  lemma TimesOne(one: real)
    requires one == 1.0
    ensures Times(one, one) == one
  {}

  lemma IdempotentIsOne(x: real, xx: real)
    requires x > 0.0 && xx == Times(x, x) && x == xx
    ensures x == 1.0
  {
    assert x * (x - 1.0) == 0.0;
  }

  // ---- the same for whole units ----

  function ScaleFactor(toBase: bool, scale: real): real {
    if toBase then scale else 1.0
  }

  lemma WeightPositive(num: Numerics, c: Change, u: Unit)
    requires IsNumerics(num) && Sized(c) && u.scale > 0.0
    ensures Weight(num, c, u) > 0.0
  {
    hide Times, IsNumerics, Factor;
    FactorPositive(num, c.bases, c.size, u.dims);
    MulPositive(ScaleFactor(c.toBase, u.scale), Factor(num, c.bases, c.size, u.dims));
  }

  lemma ScaleProduct(toBase: bool, s: real, t: real)
    ensures ScaleFactor(toBase, Times(s, t)) == Times(ScaleFactor(toBase, s), ScaleFactor(toBase, t))
  {}

  lemma WeightProduct(num: Numerics, c: Change, a: Unit, b: Unit)
    requires IsNumerics(num) && Sized(c)
    ensures Weight(num, c, Unit(Merge(a.dims, b.dims, 1.0), Times(a.scale, b.scale))) == Times(Weight(num, c, a), Weight(num, c, b))
  {
    hide Times, IsNumerics, Factor, Merge, ScaleFactor;
    FactorMerge(num, c.bases, c.size, a.dims, b.dims);
    ScaleProduct(c.toBase, a.scale, b.scale);
    MulSwap(ScaleFactor(c.toBase, a.scale), Factor(num, c.bases, c.size, a.dims),
      ScaleFactor(c.toBase, b.scale), Factor(num, c.bases, c.size, b.dims),
      ScaleFactor(c.toBase, Times(a.scale, b.scale)), Factor(num, c.bases, c.size, Merge(a.dims, b.dims, 1.0)));
  }

  lemma WeightQuotient(num: Numerics, c: Change, a: Unit, b: Unit)
    requires IsNumerics(num) && Sized(c) && b.scale > 0.0
    ensures Times(Weight(num, c, Unit(Merge(a.dims, b.dims, -1.0), Divide(a.scale, b.scale))), Weight(num, c, b))
         == Weight(num, c, a)
  {
    hide Times, IsNumerics, Factor, Merge, ScaleFactor, Divide;
    FactorQuotient(num, c.bases, c.size, a.dims, b.dims);
    DivideBack(a.scale, b.scale);
    ScaleProduct(c.toBase, Divide(a.scale, b.scale), b.scale);
    MulSwap(ScaleFactor(c.toBase, Divide(a.scale, b.scale)), Factor(num, c.bases, c.size, Merge(a.dims, b.dims, -1.0)),
      ScaleFactor(c.toBase, b.scale), Factor(num, c.bases, c.size, b.dims),
      ScaleFactor(c.toBase, a.scale), Factor(num, c.bases, c.size, a.dims));
  }

  lemma DivideBack(a: real, b: real)
    requires b > 0.0
    ensures Times(Divide(a, b), b) == a
  {}

  lemma ScalePower(num: Numerics, toBase: bool, s: real, e: real)
    requires IsNumerics(num)
    ensures ScaleFactor(toBase, PowOr(num, s, e)) == PowOr(num, ScaleFactor(toBase, s), e)
  {
    hide IsNumerics, PowOr;
    PowOfOne(num, 1.0, e);
  }

  /** `de` holds the exponents of `a` times `e`, with or without zeros. */
  lemma WeightPower(num: Numerics, c: Change, a: Unit, e: real, de: Dims)
    requires IsNumerics(num) && Sized(c) && a.scale > 0.0
    requires forall k :: Get(de, k) == Get(a.dims, k) * e
    ensures Weight(num, c, Unit(de, PowOr(num, a.scale, e))) == PowOr(num, Weight(num, c, a), e)
  {
    hide Times, IsNumerics, Factor, PowOr, Get, ScaleFactor;
    FactorStretch(num, c.bases, c.size, a.dims, e, de);
    FactorPositive(num, c.bases, c.size, a.dims);
    ScalePower(num, c.toBase, a.scale, e);
    assert ScaleFactor(c.toBase, a.scale) > 0.0 by { ScalePositive(c.toBase, a.scale); }
    PowOfProduct(num, ScaleFactor(c.toBase, a.scale), Factor(num, c.bases, c.size, a.dims), e, Weight(num, c, a));
  }

  lemma ScalePositive(toBase: bool, s: real)
    requires s > 0.0
    ensures ScaleFactor(toBase, s) > 0.0
  {}

  lemma WeightOne(num: Numerics, c: Change, one: Unit)
    requires IsNumerics(num) && Sized(c) && one == Unit(map[], 1.0)
    ensures Weight(num, c, one) == 1.0
  {
    hide IsNumerics, Factor;
    FactorEmpty(num, c.bases, c.size);
  }

  lemma {:induction false} FactorEmpty(num: Numerics, bases: seq<string>, size: string -> real)
    requires IsNumerics(num)
    ensures Factor(num, bases, size, map[]) == 1.0
  {
    hide IsNumerics;
    if bases != [] {
      FactorEmpty(num, bases[1..], size);
      PowZero(num, size(bases[0]), Get(map[], bases[0]));
    }
  }

  /** What the unit expression itself says one unit is worth. */
  ghost function Worth(num: Numerics, c: Change, t: UnitTree): real {
    match t
    case Malformed(_) => 0.0
    case One => 1.0
    case Name(n) => Weight(num, c, NameUnit(n))
    case Product(l, r) => Times(Worth(num, c, l), Worth(num, c, r))
    case Quotient(l, r) => Divide(Worth(num, c, l), Worth(num, c, r))
    case Power(b, negative, magnitude) => PowOr(num, Worth(num, c, b), Exponent(negative, magnitude))
  }

  lemma {:induction false} SignatureScalePositive(num: Numerics, t: UnitTree)
    requires IsNumerics(num)
    ensures VisitUnit(num, t).Ok? ==> VisitUnit(num, t).value.scale > 0.0
  {
    hide Times, IsNumerics, Merge, Stretch, Divide, PowOr;
    match t
    case Malformed(_) =>
    case One =>
    case Name(n) => NameScalePositive(n);
    case Product(l, r) =>
      SignatureScalePositive(num, l);
      SignatureScalePositive(num, r);
      if VisitUnit(num, t).Ok? {
        MulPositive(VisitUnit(num, l).value.scale, VisitUnit(num, r).value.scale);
      }
    case Quotient(l, r) =>
      SignatureScalePositive(num, l);
      SignatureScalePositive(num, r);
      if VisitUnit(num, t).Ok? {
        DividePositive(VisitUnit(num, l).value.scale, VisitUnit(num, r).value.scale);
      }
    case Power(b, negative, magnitude) =>
      SignatureScalePositive(num, b);
      if VisitUnit(num, t).Ok? {
        PowPositive(num, VisitUnit(num, b).value.scale, Exponent(negative, magnitude));
      }
  }

  /** The signature keeps the meaning of the unit: its scale times its base sizes is what the expression denotes. */
  lemma {:induction false} SignatureKeepsWorth(num: Numerics, c: Change, t: UnitTree)
    requires IsNumerics(num) && Sized(c) && VisitUnit(num, t).Ok?
    ensures Worth(num, c, t) == Weight(num, c, VisitUnit(num, t).value)
  {
    hide Times, IsNumerics, Weight, Merge, Stretch, Divide, PowOr;
    match t
    case Malformed(_) =>
    case One => WeightOne(num, c, Unit(map[], 1.0));
    case Name(n) =>
    case Product(l, r) =>
      SignatureKeepsWorth(num, c, l);
      SignatureKeepsWorth(num, c, r);
      WeightProduct(num, c, VisitUnit(num, l).value, VisitUnit(num, r).value);
    case Quotient(l, r) =>
      SignatureKeepsWorth(num, c, l);
      SignatureKeepsWorth(num, c, r);
      SignatureScalePositive(num, l);
      SignatureScalePositive(num, r);
      QuotientWorth(num, c, VisitUnit(num, l).value, VisitUnit(num, r).value);
    case Power(b, negative, magnitude) =>
      var e := Exponent(negative, magnitude);
      SignatureKeepsWorth(num, c, b);
      SignatureScalePositive(num, b);
      StretchGets(VisitUnit(num, b).value.dims, e);
      WeightPower(num, c, VisitUnit(num, b).value, e, Stretch(VisitUnit(num, b).value.dims, e));
  }

  lemma StretchGets(d: Dims, e: real)
    ensures forall k :: Get(Stretch(d, e), k) == Get(d, k) * e
  {}

  lemma NameScalePositive(n: string)
    ensures NameUnit(n).scale > 0.0
  {}

  lemma QuotientWorth(num: Numerics, c: Change, a: Unit, b: Unit)
    requires IsNumerics(num) && Sized(c) && a.scale > 0.0 && b.scale > 0.0
    ensures Divide(Weight(num, c, a), Weight(num, c, b))
         == Weight(num, c, Unit(Merge(a.dims, b.dims, -1.0), Divide(a.scale, b.scale)))
  {
    hide Times, IsNumerics, Weight, Merge, Divide;
    WeightQuotient(num, c, a, b);
    WeightPositive(num, c, b);
    DivideUnique(Weight(num, c, a), Weight(num, c, b), Weight(num, c, Unit(Merge(a.dims, b.dims, -1.0), Divide(a.scale, b.scale))));
  }

  lemma DividePositive(a: real, b: real)
    requires a > 0.0 && b > 0.0
    ensures Divide(a, b) > 0.0
  {}

  lemma DivideUnique(a: real, b: real, q: real)
    requires b > 0.0 && Times(q, b) == a
    ensures Divide(a, b) == q
  {
    DivideBack(a, b);
    assert (Divide(a, b) - q) * b == 0.0;
  }
}
