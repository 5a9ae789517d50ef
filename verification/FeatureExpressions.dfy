/** Typed numeric formulas: the unit checker, the evaluator, and why accepted formulas respect units
    (ima/feature_expressions.py). */
module FeatureExpressions {
  import opened UnitSignatures

  datatype UnaryOp = Negate | Abs | Log | Sqrt
  datatype BinaryOp = Add | Subtract | Multiply | Division | Minimum | Maximum | Raise

  datatype Expression =
    | Ref(name: string) | Constant(value: real)
    | Unary(op: UnaryOp, arg: Expression) | Binary(bop: BinaryOp, left: Expression, right: Expression)

  datatype Scope = PreRace | Historical | CurrentOutcome | Future

  /** `availability` names the column holding the times at which the input became available, if tracked. */
  datatype Metadata = Metadata(unit: UnitTree, scope: Scope, targetTainted: bool, availability: Option<string>)

  const MAX_NODES: nat := 256
  const MAX_DEPTH: nat := 24

  // ---- the checker ----

  function Size(e: Expression): (n: nat)
    ensures n >= 1
  {
    match e
    case Ref(_) | Constant(_) => 1
    case Unary(_, a) => 1 + Size(a)
    case Binary(_, l, r) => 1 + Size(l) + Size(r)
  }

  function Height(e: Expression): (n: nat)
    ensures n >= 1
  {
    match e
    case Ref(_) | Constant(_) => 1
    case Unary(_, a) => 1 + Height(a)
    case Binary(_, l, r) => 1 + if Height(l) < Height(r) then Height(r) else Height(l)
  }

  function Refs(e: Expression): set<string> {
    match e
    case Ref(n) => {n}
    case Constant(_) => {}
    case Unary(_, a) => Refs(a)
    case Binary(_, l, r) => Refs(l) + Refs(r)
  }

  function Halve(d: Dims): Dims {
    map k | k in d :: d[k] / 2.0
  }

  const DIMENSIONLESS := Unit(map[], 1.0)

  function TypeOfRef(num: Numerics, metadata: map<string, Metadata>, name: string): Result<Unit> {
    if name !in metadata then Err(UnknownDependency)
    else if metadata[name].targetTainted || metadata[name].scope in {CurrentOutcome, Future} then Err(Taint)
    else if metadata[name].scope == Historical && metadata[name].availability.None? then Err(UnverifiedAvailability)
    else UnitSignature(num, metadata[name].unit)
  }

  function TypeOfUnary(num: Numerics, op: UnaryOp, a: Unit): Result<Unit> {
    match op
    case Negate | Abs => Ok(a)
    case Log => if a != DIMENSIONLESS then Err(UnitMismatch) else Ok(DIMENSIONLESS)
    case Sqrt => Ok(Unit(Halve(a.dims), PowOr(num, a.scale, 0.5)))
  }

  function TypeOfBinary(num: Numerics, op: BinaryOp, a: Unit, b: Unit, right: Expression): Result<Unit> {
    match op
    case Add | Subtract | Minimum | Maximum => if a != b then Err(UnitMismatch) else Ok(a)
    case Raise =>
      if !right.Constant? || right.value > 4.0 || right.value < -4.0 then Err(NumericDomain)
      else Ok(Unit(Stretch(a.dims, right.value), PowOr(num, a.scale, right.value)))
    case Multiply => Ok(Unit(Merge(a.dims, b.dims, 1.0), Times(a.scale, b.scale)))
    case Division => Ok(Unit(Merge(a.dims, b.dims, -1.0), Divide(a.scale, b.scale)))
  }

  /** The unit of an expression, or the first objection in traversal order, resource limits aside. */
  function TypeOf(num: Numerics, metadata: map<string, Metadata>, e: Expression): Result<Unit> {
    match e
    case Ref(n) => TypeOfRef(num, metadata, n)
    case Constant(_) => Ok(DIMENSIONLESS)
    case Unary(op, arg) =>
      var a := TypeOf(num, metadata, arg);
      if a.Err? then a else TypeOfUnary(num, op, a.value)
    case Binary(op, left, right) =>
      var a := TypeOf(num, metadata, left);
      if a.Err? then a
      else
        var b := TypeOf(num, metadata, right);
        if b.Err? then b else TypeOfBinary(num, op, a.value, b.value, right)
  }

  datatype Report = Report(dependencies: set<string>, unit: Unit, nodes: nat)

  class Checker {
    const num: Numerics
    const metadata: map<string, Metadata>
    const maxNodes: nat
    const maxDepth: nat
    var count: nat
    var dependencies: set<string>

    constructor (num: Numerics, metadata: map<string, Metadata>, maxNodes: nat, maxDepth: nat)
      ensures this.num == num && this.metadata == metadata && this.maxNodes == maxNodes && this.maxDepth == maxDepth
      ensures count == 0 && dependencies == {}
    {
      this.num, this.metadata, this.maxNodes, this.maxDepth := num, metadata, maxNodes, maxDepth;
      count, dependencies := 0, {};
    }

    predicate Fits(e: Expression, depth: nat, counted: nat) {
      counted + Size(e) <= maxNodes && depth + Height(e) <= maxDepth + 1
    }

    method Visit(e: Expression, depth: nat) returns (r: Result<Unit>)
      modifies this
      ensures Fits(e, depth, old(count)) ==> r == TypeOf(num, metadata, e)
      ensures !Fits(e, depth, old(count)) ==> r.Err?
      ensures r.Ok? ==> count == old(count) + Size(e) && dependencies == old(dependencies) + Refs(e)
      decreases e
    {
      count := count + 1;
      if count > maxNodes || depth > maxDepth { return Err(Complexity); }
      match e
      case Ref(n) =>
        if n !in metadata { return Err(UnknownDependency); }
        var meta := metadata[n];
        if meta.targetTainted || meta.scope in {CurrentOutcome, Future} { return Err(Taint); }
        if meta.scope == Historical && meta.availability.None? { return Err(UnverifiedAvailability); }
        dependencies := dependencies + {n};
        return UnitSignature(num, meta.unit);
      case Constant(_) => return Ok(DIMENSIONLESS);
      case Unary(op, arg) =>
        var a := Visit(arg, depth + 1);
        if a.Err? { return a; }
        return TypeOfUnary(num, op, a.value);
      case Binary(op, left, right) =>
        var a := Visit(left, depth + 1);
        if a.Err? { return a; }
        var b := Visit(right, depth + 1);
        if b.Err? { return b; }
        return TypeOfBinary(num, op, a.value, b.value, right);
    }
  }

  /** Accepted exactly when within both budgets and well typed; the report is the unit, the names read, the size. */
  method ValidateExpression(num: Numerics, e: Expression, metadata: map<string, Metadata>, maxNodes: nat, maxDepth: nat)
    returns (r: Result<Report>)
    ensures r.Ok? <==> Size(e) <= maxNodes && Height(e) <= maxDepth && TypeOf(num, metadata, e).Ok?
    ensures r.Ok? ==> r.value == Report(Refs(e), TypeOf(num, metadata, e).value, Size(e))
    ensures Size(e) <= maxNodes && Height(e) <= maxDepth && r.Err? ==> r.error == TypeOf(num, metadata, e).error
  {
    var c := new Checker(num, metadata, maxNodes, maxDepth);
    var u := c.Visit(e, 1);
    if u.Err? { return Err(u.error); }
    return Ok(Report(c.dependencies, u.value, c.count));
  }

  // ---- the evaluator, one row at a time ----

  datatype Value = Nan | Inf(positive: bool) | Fin(x: real)

  function Mask(v: Value): Value {
    if v.Fin? then v else Nan
  }

  function Negated(v: Value): Value {
    match v
    case Nan => Nan
    case Inf(s) => Inf(!s)
    case Fin(x) => Fin(-x)
  }

  function Magnitude(v: Value): Value {
    match v
    case Nan => Nan
    case Inf(_) => Inf(true)
    case Fin(x) => Fin(if x < 0.0 then -x else x)
  }

  function Logarithm(num: Numerics, v: Value): Value {
    match v
    case Nan => Nan
    case Inf(s) => if s then Inf(true) else Nan
    case Fin(x) => if x > 0.0 then Fin(num.log(x)) else if x == 0.0 then Inf(false) else Nan
  }

  function SquareRoot(num: Numerics, v: Value): Value {
    match v
    case Nan => Nan
    case Inf(s) => if s then Inf(true) else Nan
    case Fin(x) => if x >= 0.0 then Fin(num.root(x)) else Nan
  }

  function Plus(a: Value, b: Value): Value {
    if a.Nan? || b.Nan? then Nan
    else if a.Fin? && b.Fin? then Fin(a.x + b.x)
    else if a.Fin? then b
    else if b.Fin? || a == b then a
    else Nan
  }

  function Product(a: Value, b: Value): Value {
    if a.Nan? || b.Nan? then Nan
    else if a.Fin? && b.Fin? then Fin(Times(a.x, b.x))
    else if a.Inf? && b.Inf? then Inf(a.positive == b.positive)
    else
      var s := if a.Inf? then a.positive else b.positive;
      var x := if a.Inf? then b.x else a.x;
      if x == 0.0 then Nan else Inf(s == (x > 0.0))
  }

  /** The sign of an infinite quotient by zero is not tracked: no zero is signed here, and infinities are masked. */
  function Quotients(a: Value, b: Value): Value {
    if a.Nan? || b.Nan? || (a.Inf? && b.Inf?) then Nan
    else if b.Inf? then Fin(0.0)
    else if a.Inf? then Inf(a.positive == (b.x >= 0.0))
    else if b.x == 0.0 then if a.x == 0.0 then Nan else Inf(a.x > 0.0)
    else Fin(a.x / b.x)
  }

  function Lesser(a: Value, b: Value): Value {
    if a.Nan? || b.Nan? then Nan
    else if a.Inf? then if a.positive then b else a
    else if b.Inf? then if b.positive then a else b
    else if a.x <= b.x then a else b
  }

  function Greater(a: Value, b: Value): Value {
    if a.Nan? || b.Nan? then Nan
    else if a.Inf? then if a.positive then a else b
    else if b.Inf? then if b.positive then b else a
    else if a.x <= b.x then b else a
  }

  /** The library's power: a zero exponent gives one whatever the base, even for undefined bases. A power without a
      finite value (a pole, or a root of a negative number) is `Nan`, as it is after masking. */
  function Powered(num: Numerics, a: Value, b: Value): Value {
    if b == Fin(0.0) then Fin(1.0)
    else if b.Fin? then
      match a
      case Nan => Nan
      case Inf(s) => if b.x < 0.0 then Fin(0.0) else Inf(true)
      case Fin(x) => var p := num.pow(x, b.x); if p.Some? then Fin(p.value) else Nan
    else if a == Fin(1.0) then Fin(1.0)
    else if a.Nan? || b.Nan? then Nan
    else if a == Fin(-1.0) then Fin(1.0)
    else if (a.Inf? || a.x > 1.0 || a.x < -1.0) == b.positive then Inf(true)
    else Fin(0.0)
  }

  function Apply1(num: Numerics, op: UnaryOp, v: Value): Value {
    match op
    case Negate => Negated(v)
    case Abs => Magnitude(v)
    case Log => Logarithm(num, v)
    case Sqrt => SquareRoot(num, v)
  }

  function Apply2(num: Numerics, op: BinaryOp, a: Value, b: Value): Value {
    match op
    case Add => Plus(a, b)
    case Subtract => Plus(a, Negated(b))
    case Multiply => Product(a, b)
    case Division => Quotients(a, b)
    case Minimum => Lesser(a, b)
    case Maximum => Greater(a, b)
    case Raise => Powered(num, a, b)
  }

  /** Inputs enter unmasked; every operation masks what is not finite. */
  function Eval(num: Numerics, e: Expression, row: string -> Value): Value {
    match e
    case Ref(n) => row(n)
    case Constant(x) => Fin(x)
    case Unary(op, a) => Mask(Apply1(num, op, Eval(num, a, row)))
    case Binary(op, l, r) => Mask(Apply2(num, op, Eval(num, l, row), Eval(num, r, row)))
  }

  function Evaluate(num: Numerics, e: Expression, row: string -> Value): Value {
    Mask(Eval(num, e, row))
  }

  // ---- what an accepted formula can read ----

  ghost predicate Readable(metadata: map<string, Metadata>, name: string) {
    && name in metadata
    && !metadata[name].targetTainted
    && metadata[name].scope !in {CurrentOutcome, Future}
    && (metadata[name].scope == Historical ==> metadata[name].availability.Some?)
  }

  /** Outcomes, future columns, tainted columns and undated histories never reach an accepted formula's value. */
  lemma {:induction false} OnlyReadableInputsMatter(num: Numerics, metadata: map<string, Metadata>, e: Expression,
      row: string -> Value, other: string -> Value)
    requires TypeOf(num, metadata, e).Ok?
    requires forall n :: Readable(metadata, n) ==> row(n) == other(n)
    ensures Eval(num, e, row) == Eval(num, e, other)
  {
    match e
    case Ref(n) => assert Readable(metadata, n);
    case Constant(_) =>
    case Unary(_, a) => OnlyReadableInputsMatter(num, metadata, a, row, other);
    case Binary(_, l, r) =>
      OnlyReadableInputsMatter(num, metadata, l, row, other);
      OnlyReadableInputsMatter(num, metadata, r, row, other);
  }

  // ---- scaling values ----

  function Scaled(k: real, v: Value): Value {
    if v.Fin? then Fin(Times(k, v.x)) else v
  }

  lemma TimesOrder(k: real, x: real, y: real)
    requires k > 0.0
    ensures x <= y <==> Times(k, x) <= Times(k, y)
  {
    if x < y { assert k * (y - x) > 0.0; }
    if y < x { assert k * (x - y) > 0.0; }
  }

  lemma TimesZero(k: real, zero: real)
    requires zero == 0.0
    ensures Times(k, zero) == 0.0
  {}

  lemma TimesSum(k: real, x: real, y: real)
    ensures Times(k, x + y) == Times(k, x) + Times(k, y)
    ensures Times(k, -x) == -Times(k, x)
  {}

  lemma NegateScales(k: real, v: Value)
    ensures Negated(Scaled(k, v)) == Scaled(k, Negated(v))
  {
    hide Times;
    if v.Fin? { TimesSum(k, v.x, 0.0); }
  }

  lemma AbsScales(k: real, v: Value)
    requires k > 0.0
    ensures Magnitude(Scaled(k, v)) == Scaled(k, Magnitude(v))
  {
    hide Times;
    if v.Fin? {
      TimesSum(k, v.x, 0.0);
      TimesZero(k, 0.0);
      TimesOrder(k, 0.0, v.x);
    }
  }

  lemma SqrtScales(num: Numerics, k: real, v: Value)
    requires IsNumerics(num) && k > 0.0
    ensures SquareRoot(num, Scaled(k, v)) == Scaled(PowOr(num, k, 0.5), SquareRoot(num, v))
  {
    hide Times, IsNumerics, PowOr;
    if v.Fin? {
      TimesZero(k, 0.0);
      TimesOrder(k, 0.0, v.x);
      if v.x >= 0.0 { RootProduct(num, k, v.x, Times(k, v.x)); }
    }
  }

  lemma PlusScales(k: real, a: Value, b: Value)
    ensures Plus(Scaled(k, a), Scaled(k, b)) == Scaled(k, Plus(a, b))
  {
    hide Times;
    if a.Fin? && b.Fin? { TimesSum(k, a.x, b.x); }
  }

  lemma LesserScales(k: real, a: Value, b: Value)
    requires k > 0.0
    ensures Lesser(Scaled(k, a), Scaled(k, b)) == Scaled(k, Lesser(a, b))
    ensures Greater(Scaled(k, a), Scaled(k, b)) == Scaled(k, Greater(a, b))
  {
    hide Times;
    if a.Fin? && b.Fin? { TimesOrder(k, a.x, b.x); }
  }

  lemma TimesSign(k: real, x: real)
    requires k > 0.0
    ensures Times(k, x) > 0.0 <==> x > 0.0
    ensures Times(k, x) == 0.0 <==> x == 0.0
  {
    hide Times;
    TimesZero(k, 0.0);
    TimesOrder(k, x, 0.0);
    TimesOrder(k, 0.0, x);
  }

  lemma ProductScales(k: real, l: real, a: Value, b: Value)
    requires k > 0.0 && l > 0.0
    ensures Product(Scaled(k, a), Scaled(l, b)) == Scaled(Times(k, l), Product(a, b))
  {
    hide Times;
    if a.Fin? && b.Fin? { MulSwap(k, l, a.x, b.x, Times(k, a.x), Times(l, b.x)); }
    if a.Fin? { TimesSign(k, a.x); }
    if b.Fin? { TimesSign(l, b.x); }
  }

  lemma QuotientOfProducts(k: real, l: real, q: real, x: real, y: real, kx: real, ly: real)
    requires l > 0.0 && y != 0.0 && Times(q, l) == k && kx == Times(k, x) && ly == Times(l, y) && ly != 0.0
    ensures kx / ly == Times(q, x / y)
  {
    var z := x / y;
    assert z * y == x;
    assert (q * z) * (l * y) == (q * l) * (z * y);
  }

  lemma QuotientScales(k: real, l: real, q: real, a: Value, b: Value)
    requires k > 0.0 && l > 0.0 && q > 0.0 && Times(q, l) == k
    ensures Mask(Quotients(Scaled(k, a), Scaled(l, b))) == Scaled(q, Mask(Quotients(a, b)))
  {
    hide Times;
    TimesZero(q, 0.0);
    if a.Fin? { TimesSign(k, a.x); }
    if b.Fin? {
      TimesSign(l, b.x);
      if a.Fin? && b.x != 0.0 { QuotientOfProducts(k, l, q, a.x, b.x, Times(k, a.x), Times(l, b.x)); }
    }
  }

  lemma PowerScales(num: Numerics, k: real, a: Value, e: real)
    requires IsNumerics(num) && k > 0.0
    ensures Mask(Powered(num, Scaled(k, a), Fin(e))) == Scaled(PowOr(num, k, e), Mask(Powered(num, a, Fin(e))))
  {
    hide Times, IsNumerics;
    if e == 0.0 {
      PowZero(num, k, e);
      TimesOne(1.0);
    } else if a.Fin? {
      PowProduct(num, k, a.x, e, Times(k, a.x));
    } else {
      TimesZero(PowOr(num, k, e), 0.0);
    }
  }

  // ---- dimensional soundness ----

  lemma {:induction false} AcceptedScalePositive(num: Numerics, metadata: map<string, Metadata>, e: Expression)
    requires IsNumerics(num)
    ensures TypeOf(num, metadata, e).Ok? ==> TypeOf(num, metadata, e).value.scale > 0.0
  {
    hide Times, IsNumerics, Merge, Stretch, Halve, Divide, PowOr;
    match e
    case Ref(n) => if n in metadata { SignatureScalePositive(num, metadata[n].unit); }
    case Constant(_) =>
    case Unary(op, a) =>
      AcceptedScalePositive(num, metadata, a);
      if TypeOf(num, metadata, e).Ok? { PowPositive(num, TypeOf(num, metadata, a).value.scale, 0.5); }
    case Binary(op, l, r) =>
      AcceptedScalePositive(num, metadata, l);
      AcceptedScalePositive(num, metadata, r);
      if TypeOf(num, metadata, e).Ok? {
        BinaryScalePositive(num, op, TypeOf(num, metadata, l).value, TypeOf(num, metadata, r).value, r);
      }
  }

  lemma BinaryScalePositive(num: Numerics, op: BinaryOp, a: Unit, b: Unit, right: Expression)
    requires IsNumerics(num) && a.scale > 0.0 && b.scale > 0.0
    ensures TypeOfBinary(num, op, a, b, right).Ok? ==> TypeOfBinary(num, op, a, b, right).value.scale > 0.0
  {
    hide Times, IsNumerics, Merge, Stretch, Divide, PowOr;
    MulPositive(a.scale, b.scale);
    DividePositive(a.scale, b.scale);
    if right.Constant? { PowPositive(num, a.scale, right.value); }
  }

  lemma UnarySound(num: Numerics, c: Change, op: UnaryOp, a: Unit, v: Value)
    requires IsNumerics(num) && Sized(c) && a.scale > 0.0 && TypeOfUnary(num, op, a).Ok?
    ensures Mask(Apply1(num, op, Scaled(Weight(num, c, a), v)))
         == Scaled(Weight(num, c, TypeOfUnary(num, op, a).value), Mask(Apply1(num, op, v)))
  {
    hide Times, IsNumerics, Weight, PowOr;
    WeightPositive(num, c, a);
    match op
    case Negate => NegateScales(Weight(num, c, a), v);
    case Abs => AbsScales(Weight(num, c, a), v);
    case Log =>
      WeightOne(num, c, a);
      OneScales(Weight(num, c, a), v);
      OneScales(Weight(num, c, a), Mask(Logarithm(num, v)));
    case Sqrt =>
      WeightPower(num, c, a, 0.5, Halve(a.dims));
      SqrtScales(num, Weight(num, c, a), v);
  }

  lemma OneScales(k: real, v: Value)
    requires k == 1.0
    ensures Scaled(k, v) == v
  {}

  lemma BinarySound(num: Numerics, c: Change, op: BinaryOp, a: Unit, b: Unit, right: Expression, v: Value, w: Value)
    requires IsNumerics(num) && Sized(c) && a.scale > 0.0 && b.scale > 0.0 && TypeOfBinary(num, op, a, b, right).Ok?
    requires right.Constant? ==> b == DIMENSIONLESS && w == Fin(right.value)
    ensures Mask(Apply2(num, op, Scaled(Weight(num, c, a), v), Scaled(Weight(num, c, b), w)))
         == Scaled(Weight(num, c, TypeOfBinary(num, op, a, b, right).value), Mask(Apply2(num, op, v, w)))
  {
    hide Times, IsNumerics, Weight, PowOr, Merge, Stretch, Divide;
    var k, l := Weight(num, c, a), Weight(num, c, b);
    WeightPositive(num, c, a);
    WeightPositive(num, c, b);
    match op
    case Add => PlusScales(k, v, w);
    case Subtract =>
      NegateScales(k, w);
      PlusScales(k, v, Negated(w));
    case Minimum => LesserScales(k, v, w);
    case Maximum => LesserScales(k, v, w);
    case Multiply =>
      WeightProduct(num, c, a, b);
      ProductScales(k, l, v, w);
    case Division =>
      WeightQuotient(num, c, a, b);
      DividePositive(a.scale, b.scale);
      var u := Unit(Merge(a.dims, b.dims, -1.0), Divide(a.scale, b.scale));
      WeightPositive(num, c, u);
      QuotientScales(k, l, Weight(num, c, u), v, w);
    case Raise =>
      WeightOne(num, c, b);
      OneScales(l, w);
      StretchGets(a.dims, right.value);
      WeightPower(num, c, a, right.value, Stretch(a.dims, right.value));
      PowerScales(num, k, v, right.value);
  }

  /** `converted` holds every input of `row` expressed in the changed units. */
  ghost predicate Converts(num: Numerics, metadata: map<string, Metadata>, c: Change, row: string -> Value,
      converted: string -> Value)
  {
    forall n :: TypeOfRef(num, metadata, n).Ok? ==>
      converted(n) == Scaled(Weight(num, c, TypeOfRef(num, metadata, n).value), row(n))
  }

  lemma {:induction false} EvalSound(num: Numerics, metadata: map<string, Metadata>, c: Change, e: Expression,
      row: string -> Value, converted: string -> Value)
    requires IsNumerics(num) && Sized(c) && TypeOf(num, metadata, e).Ok?
    requires Converts(num, metadata, c, row, converted)
    ensures Eval(num, e, converted) == Scaled(Weight(num, c, TypeOf(num, metadata, e).value), Eval(num, e, row))
  {
    hide Times, IsNumerics, Weight, Sized, TypeOfUnary, TypeOfBinary, TypeOfRef, Apply1, Apply2;
    match e
    case Ref(_) =>
    case Constant(x) =>
      WeightOne(num, c, DIMENSIONLESS);
      OneScales(1.0, Fin(x));
    case Unary(op, a) =>
      EvalSound(num, metadata, c, a, row, converted);
      AcceptedScalePositive(num, metadata, a);
      UnarySound(num, c, op, TypeOf(num, metadata, a).value, Eval(num, a, row));
    case Binary(op, l, r) =>
      EvalSound(num, metadata, c, l, row, converted);
      EvalSound(num, metadata, c, r, row, converted);
      AcceptedScalePositive(num, metadata, l);
      AcceptedScalePositive(num, metadata, r);
      BinarySound(num, c, op, TypeOf(num, metadata, l).value, TypeOf(num, metadata, r).value, r,
        Eval(num, l, row), Eval(num, r, row));
  }

  /** Expressing every input in other units multiplies the result by what its own unit is worth; undefined results
      stay undefined and defined results stay defined. */
  lemma DimensionalSoundness(num: Numerics, metadata: map<string, Metadata>, c: Change, e: Expression,
      row: string -> Value, converted: string -> Value)
    requires IsNumerics(num) && Sized(c) && TypeOf(num, metadata, e).Ok?
    requires Converts(num, metadata, c, row, converted)
    ensures Evaluate(num, e, converted) == Scaled(Weight(num, c, TypeOf(num, metadata, e).value), Evaluate(num, e, row))
    ensures Evaluate(num, e, converted).Nan? <==> Evaluate(num, e, row).Nan?
  {
    hide Times, IsNumerics, Weight, Sized, TypeOf, Converts, Eval;
    EvalSound(num, metadata, c, e, row, converted);
  }

  lemma NoBases(num: Numerics, c: Change, u: Unit)
    requires c.toBase && c.bases == []
    ensures Weight(num, c, u) == u.scale
  {}

  /** Converting every input to base units multiplies the result by the reported unit scale. */
  lemma ToBaseUnits(num: Numerics, metadata: map<string, Metadata>, e: Expression, row: string -> Value,
      converted: string -> Value)
    requires IsNumerics(num) && TypeOf(num, metadata, e).Ok?
    requires forall n :: TypeOfRef(num, metadata, n).Ok? ==>
               converted(n) == Scaled(TypeOfRef(num, metadata, n).value.scale, row(n))
    ensures Evaluate(num, e, converted) == Scaled(TypeOf(num, metadata, e).value.scale, Evaluate(num, e, row))
  {
    hide Times, IsNumerics, Weight, TypeOf, TypeOfRef, Eval;
    var c := Change(true, [], (k: string) => 1.0);
    forall u { NoBases(num, c, u); }
    DimensionalSoundness(num, metadata, c, e, row, converted);
  }

  /** Resizing base units multiplies the result by their sizes raised to its reported dimensions. */
  lemma RescaledBaseUnits(num: Numerics, metadata: map<string, Metadata>, e: Expression, bases: seq<string>,
      size: string -> real, row: string -> Value, converted: string -> Value)
    requires IsNumerics(num) && TypeOf(num, metadata, e).Ok? && forall k :: size(k) > 0.0
    requires forall n :: TypeOfRef(num, metadata, n).Ok? ==>
               converted(n) == Scaled(Factor(num, bases, size, TypeOfRef(num, metadata, n).value.dims), row(n))
    ensures Evaluate(num, e, converted)
         == Scaled(Factor(num, bases, size, TypeOf(num, metadata, e).value.dims), Evaluate(num, e, row))
  {
    hide Times, IsNumerics, Weight, TypeOf, TypeOfRef, Eval, Factor;
    var c := Change(false, bases, size);
    forall u ensures Weight(num, c, u) == Factor(num, bases, size, u.dims) { OnlyBases(num, c, u); }
    DimensionalSoundness(num, metadata, c, e, row, converted);
  }

  lemma OnlyBases(num: Numerics, c: Change, u: Unit)
    requires !c.toBase
    ensures Weight(num, c, u) == Factor(num, c.bases, c.size, u.dims)
  {}
}
