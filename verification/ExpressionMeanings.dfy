/** Formulas read as ordinary arithmetic, and the objections of the unit checker read one subformula at a time
    (ima/feature_expressions.py). */
module ExpressionMeanings {
  import opened UnitSignatures
  import opened FeatureExpressions

  /** Arithmetic on real numbers, where an operation without a value has none; only a zero exponent and a base of one
      make up for a missing operand. */
  function Arithmetic(num: Numerics, e: Expression, row: string -> Result<real>): Result<real> {
    match e
    case Ref(n) => row(n)
    case Constant(x) => Ok(x)
    case Unary(op, arg) =>
      var a := Arithmetic(num, arg, row);
      if a.Err? then a
      else
        (match op
         case Negate => Ok(0.0 - a.value)
         case Abs => Ok(if a.value >= 0.0 then a.value else 0.0 - a.value)
         case Log => if a.value > 0.0 then Ok(num.log(a.value)) else Err(NumericDomain)
         case Sqrt => if a.value < 0.0 then Err(NumericDomain) else Ok(num.root(a.value)))
    case Binary(op, left, right) =>
      var a, b := Arithmetic(num, left, row), Arithmetic(num, right, row);
      if op.Raise? then Power(num, a, b)
      else if a.Err? then a
      else if b.Err? then b
      else
        (match op
         case Add => Ok(b.value + a.value)
         case Subtract => Ok(a.value - b.value)
         case Multiply => Ok(Times(a.value, b.value))
         case Division => if b.value == 0.0 then Err(NumericDomain) else Ok(a.value / b.value)
         case Minimum => Ok(if b.value < a.value then b.value else a.value)
         case Maximum => Ok(if b.value > a.value then b.value else a.value))
  }

  function Power(num: Numerics, a: Result<real>, b: Result<real>): Result<real> {
    if b == Ok(0.0) || (b.Err? && a == Ok(1.0)) then Ok(1.0)
    else if a.Err? || b.Err? then Err(NumericDomain)
    else
      var p := num.pow(a.value, b.value);
      if p.Some? then Ok(p.value) else Err(NumericDomain)
  }

  /** The same number, or none on both sides. */
  ghost predicate Same(v: Value, r: Result<real>) {
    if r.Ok? then v == Fin(r.value) else v == Nan
  }

  lemma UnaryIsArithmetic(num: Numerics, op: UnaryOp, arg: Expression, row: string -> Result<real>, v: Value)
    requires Same(v, Arithmetic(num, arg, row))
    ensures Same(Mask(Apply1(num, op, v)), Arithmetic(num, Unary(op, arg), row))
  {}

  lemma BinaryIsArithmetic(num: Numerics, op: BinaryOp, left: Expression, right: Expression, row: string -> Result<real>, v: Value, w: Value)
    requires Same(v, Arithmetic(num, left, row)) && Same(w, Arithmetic(num, right, row))
    ensures Same(Mask(Apply2(num, op, v, w)), Arithmetic(num, Binary(op, left, right), row))
  {
    hide Times;
  }

  /** On data without infinities a formula's value is that of ordinary arithmetic: none arises on the way. */
  lemma {:induction false} EvaluatesArithmetic(num: Numerics, e: Expression, values: string -> Value, row: string -> Result<real>)
    requires forall n :: Same(values(n), row(n))
    ensures Same(Eval(num, e, values), Arithmetic(num, e, row))
    ensures Evaluate(num, e, values) == Eval(num, e, values)
  {
    hide Apply1, Apply2;
    match e {
      case Ref(n) => assert Same(values(n), row(n));
      case Constant(_) =>
      case Unary(op, a) =>
        EvaluatesArithmetic(num, a, values, row);
        UnaryIsArithmetic(num, op, a, row, Eval(num, a, values));
      case Binary(op, l, r) =>
        EvaluatesArithmetic(num, l, values, row);
        EvaluatesArithmetic(num, r, values, row);
        BinaryIsArithmetic(num, op, l, r, row, Eval(num, l, values), Eval(num, r, values));
    }
  }

  // ---- infinite inputs ----

  /** What survives an infinite operand: the extremes it loses to, its quotient, and a power it cannot move. */
  lemma InfiniteOperand(num: Numerics, op: BinaryOp, x: real, up: bool, kept: real)
    ensures Mask(Apply2(num, op, Fin(x), Inf(up))) == Fin(kept) <==>
              match op
              case Add | Subtract | Multiply => false
              case Division => kept == 0.0
              case Minimum => up && kept == x
              case Maximum => !up && kept == x
              case Raise => if x == 1.0 || x == -1.0 then kept == 1.0 else kept == 0.0 && (-1.0 < x < 1.0 <==> up)
    ensures Mask(Apply2(num, op, Inf(up), Fin(x))) == Fin(kept) <==>
              match op
              case Add | Subtract | Multiply | Division => false
              case Minimum => up && kept == x
              case Maximum => !up && kept == x
              case Raise => if x == 0.0 then kept == 1.0 else x < 0.0 && kept == 0.0
  {}

  // ---- the checker ----

  ghost function Parts(e: Expression): set<Expression> {
    match e
    case Ref(_) | Constant(_) => {e}
    case Unary(_, a) => {e} + Parts(a)
    case Binary(_, l, r) => {e} + Parts(l) + Parts(r)
  }

  /** Nothing to object to at this part, given the units of its arguments. */
  ghost predicate Unobjectionable(num: Numerics, metadata: map<string, Metadata>, e: Expression) {
    match e
    case Ref(n) => Readable(metadata, n) && UnitSignature(num, metadata[n].unit).Ok?
    case Constant(_) => true
    case Unary(op, a) => op.Log? ==> TypeOf(num, metadata, a) == Ok(Unit(map[], 1.0))
    case Binary(op, l, r) =>
      if op.Raise? then r.Constant? && -4.0 <= r.value <= 4.0
      else op.Multiply? || op.Division? || TypeOf(num, metadata, l) == TypeOf(num, metadata, r)
  }

  lemma LeafObjection(num: Numerics, metadata: map<string, Metadata>, e: Expression)
    requires e.Ref? || e.Constant?
    ensures TypeOf(num, metadata, e).Ok? <==> Unobjectionable(num, metadata, e)
    ensures Parts(e) == {e}
  {}

  lemma UnaryObjection(num: Numerics, metadata: map<string, Metadata>, op: UnaryOp, a: Expression)
    ensures TypeOf(num, metadata, Unary(op, a)).Ok? <==> TypeOf(num, metadata, a).Ok? && Unobjectionable(num, metadata, Unary(op, a))
    ensures Parts(Unary(op, a)) == {Unary(op, a)} + Parts(a)
  {}

  lemma BinaryObjection(num: Numerics, metadata: map<string, Metadata>, op: BinaryOp, l: Expression, r: Expression)
    ensures TypeOf(num, metadata, Binary(op, l, r)).Ok? <==>
              TypeOf(num, metadata, l).Ok? && TypeOf(num, metadata, r).Ok? && Unobjectionable(num, metadata, Binary(op, l, r))
    ensures Parts(Binary(op, l, r)) == {Binary(op, l, r)} + Parts(l) + Parts(r)
  {}

  /** A formula is well typed exactly when no part of it is objectionable: every input readable with a unit, logarithms
      of pure numbers, like added to or compared with like, constant exponents from minus four to four. */
  lemma {:induction false} WellTypedExactly(num: Numerics, metadata: map<string, Metadata>, e: Expression)
    ensures TypeOf(num, metadata, e).Ok? <==> forall p :: p in Parts(e) ==> Unobjectionable(num, metadata, p)
  {
    hide TypeOf, Unobjectionable, Parts;
    match e {
      case Ref(_) => LeafObjection(num, metadata, e);
      case Constant(_) => LeafObjection(num, metadata, e);
      case Unary(op, a) =>
        WellTypedExactly(num, metadata, a);
        UnaryObjection(num, metadata, op, a);
      case Binary(op, l, r) =>
        WellTypedExactly(num, metadata, l);
        WellTypedExactly(num, metadata, r);
        BinaryObjection(num, metadata, op, l, r);
    }
  }
}
