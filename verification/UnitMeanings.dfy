/** Powers of units as repeated products, and the units of names (ima/feature_expressions.py). */
module UnitMeanings {
  import opened UnitSignatures

  /** `u * u * ... * u`, as it is parsed. */
  function Repeated(u: UnitTree, n: nat): UnitTree
    requires n >= 1
  {
    if n == 1 then u else Product(Repeated(u, n - 1), u)
  }

  ghost predicate OneLaw(num: Numerics) {
    forall x :: num.pow(x, 1.0) == Some(x)
  }

  lemma StretchOne(d: Dims)
    requires forall k :: k in d ==> d[k] != 0.0
    ensures Stretch(d, 1.0) == d
  {}

  lemma SameDims(a: Dims, b: Dims)
    requires forall k :: Get(a, k) == Get(b, k)
    requires (forall k :: k in a ==> a[k] != 0.0) && (forall k :: k in b ==> b[k] != 0.0)
    ensures a == b
  {
    forall k ensures k in a <==> k in b { assert Get(a, k) == Get(b, k); }
    forall k | k in a ensures a[k] == b[k] { assert Get(a, k) == Get(b, k); }
  }

  lemma NoZeros(a: Dims, b: Dims, e: real)
    ensures forall k :: k in Merge(a, b, e) ==> Merge(a, b, e)[k] != 0.0
    ensures forall k :: k in Stretch(a, e) ==> Stretch(a, e)[k] != 0.0
  {}

  lemma StretchMore(d: Dims, n: real)
    ensures Merge(Stretch(d, n), d, 1.0) == Stretch(d, n + 1.0)
  {
    NoZeros(Stretch(d, n), d, 1.0);
    NoZeros(d, d, n + 1.0);
    hide Merge, Stretch;
    forall k ensures Get(Merge(Stretch(d, n), d, 1.0), k) == Get(Stretch(d, n + 1.0), k) {
      MergeGet(Stretch(d, n), d, 1.0, k);
      StretchGets(d, n);
      StretchGets(d, n + 1.0);
      OnceMore(Get(d, k), n);
    }
    SameDims(Merge(Stretch(d, n), d, 1.0), Stretch(d, n + 1.0));
  }

  lemma OnceMore(x: real, n: real)
    ensures x * n + x == x * (n + 1.0)
  {}

  lemma {:induction false} RepeatedUnit(num: Numerics, u: UnitTree, n: nat)
    requires IsNumerics(num) && OneLaw(num) && n >= 1
    requires VisitUnit(num, u).Ok? && VisitUnit(num, u).value.scale > 0.0
    requires forall k :: k in VisitUnit(num, u).value.dims ==> VisitUnit(num, u).value.dims[k] != 0.0
    ensures var a := VisitUnit(num, u).value;
            VisitUnit(num, Repeated(u, n)) == Ok(Unit(Stretch(a.dims, n as real), PowOr(num, a.scale, n as real)))
  {
    hide IsNumerics, Times, Merge, Stretch;
    var a := VisitUnit(num, u).value;
    if n == 1 {
      StretchOne(a.dims);
    } else {
      RepeatedUnit(num, u, n - 1);
      StretchMore(a.dims, (n - 1) as real);
      PowSum(num, a.scale, (n - 1) as real, 1.0, n as real);
    }
  }

  /** A unit to a whole power from one to eight is the unit so many times over. */
  lemma PowerIsProduct(num: Numerics, u: UnitTree, n: nat)
    requires IsNumerics(num) && OneLaw(num) && 1 <= n <= 8
    requires VisitUnit(num, u).Ok? && VisitUnit(num, u).value.scale > 0.0
    requires forall k :: k in VisitUnit(num, u).value.dims ==> VisitUnit(num, u).value.dims[k] != 0.0
    ensures VisitUnit(num, Power(u, false, n as real)) == VisitUnit(num, Repeated(u, n))
  {
    hide IsNumerics;
    RepeatedUnit(num, u, n);
  }

  /** A negative power is one over the positive one. */
  lemma NegativePower(num: Numerics, u: UnitTree, e: real)
    requires IsNumerics(num) && VisitUnit(num, u).Ok? && VisitUnit(num, u).value.scale > 0.0 && -8.0 <= e <= 8.0
    ensures VisitUnit(num, Power(u, true, e)) == VisitUnit(num, Quotient(One, Power(u, false, e)))
  {
    hide *;
    var a := VisitUnit(num, u).value;
    ReciprocalDims(a.dims, e);
    ReciprocalScale(num, a.scale, e);
    PowerUnit(num, u, false, e, e);
    PowerUnit(num, u, true, e, -e);
    OverUnit(num, Power(u, false, e));
  }

  lemma PowerUnit(num: Numerics, u: UnitTree, negative: bool, magnitude: real, e: real)
    requires VisitUnit(num, u).Ok? && -8.0 <= magnitude <= 8.0 && e == if negative then -magnitude else magnitude
    ensures var a := VisitUnit(num, u).value;
            VisitUnit(num, Power(u, negative, magnitude)) == Ok(Unit(Stretch(a.dims, e), PowOr(num, a.scale, e)))
  {
    assert Exponent(negative, magnitude) == e;
    hide *;
    PowerStep(num, u, negative, magnitude);
  }

  lemma PowerStep(num: Numerics, u: UnitTree, negative: bool, magnitude: real)
    requires VisitUnit(num, u).Ok? && -8.0 <= magnitude <= 8.0
    ensures var a, e := VisitUnit(num, u).value, Exponent(negative, magnitude);
            VisitUnit(num, Power(u, negative, magnitude)) == Ok(Unit(Stretch(a.dims, e), PowOr(num, a.scale, e)))
  {
    hide Exponent, Stretch, PowOr, Merge, Divide, Times, NameUnit;
  }

  lemma OverUnit(num: Numerics, u: UnitTree)
    requires VisitUnit(num, u).Ok?
    ensures var a := VisitUnit(num, u).value;
            VisitUnit(num, Quotient(One, u)) == Ok(Unit(Merge(map[], a.dims, -1.0), Divide(1.0, a.scale)))
  {
    hide Merge, Divide;
  }

  lemma ReciprocalScale(num: Numerics, scale: real, e: real)
    requires IsNumerics(num) && scale > 0.0
    ensures PowOr(num, scale, -e) == Divide(1.0, PowOr(num, scale, e))
  {
    hide IsNumerics, Times, Divide;
    PowPositive(num, scale, e);
    PowSum(num, scale, e, -e, 0.0);
    PowZero(num, scale, 0.0);
    Reciprocal(PowOr(num, scale, e), PowOr(num, scale, -e));
  }

  lemma ReciprocalDims(d: Dims, e: real)
    ensures Stretch(d, -e) == Merge(map[], Stretch(d, e), -1.0)
  {
    var none: Dims := map[];
    NoZeros(d, d, -e);
    NoZeros(none, Stretch(d, e), -1.0);
    hide Merge, Stretch;
    forall k ensures Get(Stretch(d, -e), k) == Get(Merge(none, Stretch(d, e), -1.0), k) {
      MergeGet(none, Stretch(d, e), -1.0, k);
      StretchGets(d, e);
      StretchGets(d, -e);
      Opposite(Get(d, k), e);
    }
    SameDims(Stretch(d, -e), Merge(none, Stretch(d, e), -1.0));
  }

  lemma Opposite(x: real, e: real)
    ensures x * -e == -(x * e)
  {}

  lemma Reciprocal(x: real, y: real)
    requires x > 0.0 && Times(x, y) == 1.0
    ensures Divide(1.0, x) == y
  {}

  /** A product of copies of a named unit is short enough to be read exactly up to sixteen of them. */
  lemma LongestProduct(num: Numerics, name: string, n: nat)
    requires n >= 1
    ensures UnitSignature(num, Repeated(Name(name), n)).Ok? <==> n <= 16
  {
    ChainNodes(name, n);
    ChainReads(num, name, n);
  }

  lemma OverOne(num: Numerics, u: UnitTree)
    requires VisitUnit(num, u).Ok?
    ensures VisitUnit(num, Quotient(One, u)).Ok? && TreeNodes(Quotient(One, u)) == 3 + TreeNodes(u)
  {
    hide NameUnit, Merge, Divide;
  }

  /** One over such a product is short enough up to fifteen of them. */
  lemma LongestReciprocal(num: Numerics, name: string, n: nat)
    requires n >= 1
    ensures UnitSignature(num, Quotient(One, Repeated(Name(name), n))).Ok? <==> n <= 15
  {
    hide NameUnit, Merge, Divide, Repeated;
    ChainNodes(name, n);
    ChainReads(num, name, n);
    OverOne(num, Repeated(Name(name), n));
  }

  /** A power of a power of a power ... of a name. */
  function Towered(name: string, negative: bool, magnitude: real, n: nat): UnitTree {
    if n == 0 then Name(name) else Power(Towered(name, negative, magnitude, n - 1), negative, magnitude)
  }

  /** Powers of a named unit can be nested twenty deep, or twelve if they are negative. */
  lemma DeepestTower(num: Numerics, name: string, negative: bool, magnitude: real, n: nat)
    requires -8.0 <= magnitude <= 8.0
    ensures UnitSignature(num, Towered(name, negative, magnitude, n)).Ok? <==> n <= if negative then 12 else 20
  {
    TowerNodes(num, name, negative, magnitude, n);
  }

  lemma {:induction false} TowerNodes(num: Numerics, name: string, negative: bool, magnitude: real, n: nat)
    requires -8.0 <= magnitude <= 8.0
    ensures TreeNodes(Towered(name, negative, magnitude, n)) == 2 + n * (if negative then 5 else 3)
    ensures VisitUnit(num, Towered(name, negative, magnitude, n)).Ok?
  {
    hide NameUnit, Stretch, PowOr;
    if n > 0 { TowerNodes(num, name, negative, magnitude, n - 1); }
  }

  lemma {:induction false} ChainNodes(name: string, n: nat)
    requires n >= 1
    ensures TreeNodes(Repeated(Name(name), n)) == 4 * n - 2
  {
    if n > 1 { ChainNodes(name, n - 1); }
  }

  lemma {:induction false} ChainReads(num: Numerics, name: string, n: nat)
    requires n >= 1
    ensures VisitUnit(num, Repeated(Name(name), n)).Ok?
  {
    if n > 1 { ChainReads(num, name, n - 1); }
  }

  /** An unknown name is a dimension of its own. */
  lemma UnknownName(num: Numerics, name: string)
    requires name !in {"m", "km", "s", "sec", "seconds", "ms", "day", "days", "kg", "g", "lb", "mps", "lengths", "rating"}
    ensures UnitSignature(num, Name(name)) == Ok(Unit(map[name := 1.0], 1.0))
  {}
}
