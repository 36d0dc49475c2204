/** The return compiler (`node_to_func` in utils/utils.py): a `return`
    statement becomes a callback that evaluates its expression at the
    argument, recursively, on every call.

    The code does not enforce the first-degree grammar its error message
    names: `x * x` evaluates, any unary operator applied to a name gives
    `-x`, and a shape it does not support fails only when the callback is
    called. `Coefficients` is the reading of an expression as a line
    `slope * x + intercept`; `EvalFollowsLine` proves the evaluator agrees
    with it wherever that reading exists. */
module Returns {
  import opened Outcomes
  import opened Syntax

  /** The arithmetic entries of `op_map`. */
  predicate Supported(op: BinaryOperator) {
    op == Add || op == Sub || op == Mult || op == Div
  }

  /** One arithmetic step; division by zero raises. */
  function Arith(op: BinaryOperator, a: real, b: real): (r: Result<real>)
    requires Supported(op)
    ensures r.Err? <==> op == Div && b == 0.0
    ensures op == Div && b != 0.0 ==> r.value * b == a
  {
    match op
    case Add => Ok(a + b)
    case Sub => Ok(a - b)
    case Mult => Ok(a * b)
    case Div => if b == 0.0 then Err(DivisionByZero) else Ok(a / b)
  }

  /** The callback's inner `_recur`: the value of `e` at `x`. Failures are
      those of `_to_float`, EXPR_ERROR and division by zero;
      `EvalFollowsLine` states the value wherever `e` reads as a line. */
  function Eval(e: Expr, x: real): (r: Result<real>)
    ensures r.Err? ==> r.error in {NotPolynomial, DivisionByZero, OperandNotConstant, UnsupportedUnaryOp}
    // `_to_float` on a unary operation whose operand is neither a name nor a number
    ensures e.UnaryOp? && !e.operand.Name? && !e.operand.Constant? ==> r == Err(OperandNotConstant)
    // `_to_float` on `~3` or `not 3`
    ensures e.UnaryOp? && e.operand.Constant? && !(e.op == USub || e.op == UAdd) ==> r == Err(UnsupportedUnaryOp)
    // EXPR_ERROR: an operator outside `op_map`, or a node kind `_recur` does not handle
    ensures e.BinOp? && !Supported(e.binOp) ==> r == Err(NotPolynomial)
    ensures e.BoolOp? || e.Compare? || e.OtherExpr? ==> r == Err(NotPolynomial)
    // the left operand is evaluated first, and its failure is the result
    ensures e.BinOp? && Supported(e.binOp) && Eval(e.left, x).Err? ==> r == Eval(e.left, x)
    // a divisor that evaluates to zero raises
    ensures e.BinOp? && e.binOp == Div && Eval(e.left, x).Ok? && Eval(e.right, x) == Ok(0.0) ==>
      r == Err(DivisionByZero)
  {
    match e
    case Constant(c) => Ok(c)
    case UnaryOp(_, operand) =>
      if operand.Name? then Ok(-x) else LiteralValue(e)
    case Name(_) => Ok(x)
    case BinOp(left, op, right) =>
      if !Supported(op) then Err(NotPolynomial)
      else
        var a :- Eval(left, x);
        var b :- Eval(right, x);
        Arith(op, a, b)
    case _ => Err(NotPolynomial)
  }

  /** The value of a `return` statement's expression; a bare `return`
      has none. */
  function EvalReturn(result: Option<Expr>, x: real): Result<real> {
    match result
    case None => Err(NotPolynomial)
    case Some(e) => Eval(e, x)
  }

  /** `node_to_func`: only a `return` statement compiles, and it always
      compiles; its expression is inspected only when the callback runs. */
  function CompileReturn(s: Stmt): (r: Result<Callback>)
    ensures r.Ok? <==> s.Return?
    ensures r.Err? ==> r.error == CallbackNotReturn
    ensures r.Ok? ==> forall x :: r.value(x) == EvalReturn(s.result, x)
  {
    if s.Return? then Ok(x => EvalReturn(s.result, x)) else Err(CallbackNotReturn)
  }

  /** `slope * x + intercept`. */
  datatype Line = Line(slope: real, intercept: real)

  function At(l: Line, x: real): real {
    l.slope * x + l.intercept
  }

  /** The line an arithmetic step produces from two lines, when it is
      still a line. */
  function CombineLines(op: BinaryOperator, p: Line, q: Line): Option<Line> {
    if op == Add then Some(Line(p.slope + q.slope, p.intercept + q.intercept))
    else if op == Sub then Some(Line(p.slope - q.slope, p.intercept - q.intercept))
    else if op == Mult && p.slope == 0.0 then Some(Line(p.intercept * q.slope, p.intercept * q.intercept))
    else if op == Mult && q.slope == 0.0 then Some(Line(p.slope * q.intercept, p.intercept * q.intercept))
    else if op == Div && q.slope == 0.0 && q.intercept != 0.0 then
      Some(Line(p.slope / q.intercept, p.intercept / q.intercept))
    else None
  }

  /** The expression read as a polynomial of degree at most one, when it is
      one: products need a constant factor and divisions a non-zero
      constant divisor. */
  function Coefficients(e: Expr): Option<Line> {
    match e
    case Constant(c) => Some(Line(0.0, c))
    case Name(_) => Some(Line(1.0, 0.0))
    case UnaryOp(op, operand) =>
      if op == USub && operand.Name? then Some(Line(-1.0, 0.0))
      else if op == USub && operand.Constant? then Some(Line(0.0, -operand.value))
      else if op == UAdd && operand.Constant? then Some(Line(0.0, operand.value))
      else None
    case BinOp(left, op, right) =>
      var p := Coefficients(left);
      var q := Coefficients(right);
      if p.Some? && q.Some? then CombineLines(op, p.value, q.value) else None
    case _ => None
  }

  lemma Distributes(a: real, b: real, x: real)
    ensures (a + b) * x == a * x + b * x
    ensures (a - b) * x == a * x - b * x
  {
  }

  lemma AddFollowsLines(p: Line, q: Line, x: real)
    ensures Arith(Add, At(p, x), At(q, x)).value == At(CombineLines(Add, p, q).value, x)
  {
    var l := CombineLines(Add, p, q).value;
    assert l.slope == p.slope + q.slope && l.intercept == p.intercept + q.intercept;
    Distributes(p.slope, q.slope, x);
  }

  lemma SubFollowsLines(p: Line, q: Line, x: real)
    ensures Arith(Sub, At(p, x), At(q, x)).value == At(CombineLines(Sub, p, q).value, x)
  {
    var l := CombineLines(Sub, p, q).value;
    assert l.slope == p.slope - q.slope && l.intercept == p.intercept - q.intercept;
    Distributes(p.slope, q.slope, x);
  }

  lemma MultFollowsLines(p: Line, q: Line, x: real)
    requires p.slope == 0.0 || q.slope == 0.0
    ensures Arith(Mult, At(p, x), At(q, x)).value == At(CombineLines(Mult, p, q).value, x)
  {
    var l := CombineLines(Mult, p, q).value;
    if p.slope == 0.0 {
      var c := p.intercept;
      assert l.slope == c * q.slope && l.intercept == c * q.intercept;
      assert At(p, x) == c;
      assert c * (q.slope * x + q.intercept) == (c * q.slope) * x + c * q.intercept;
    } else {
      var c := q.intercept;
      assert l.slope == p.slope * c && l.intercept == p.intercept * c;
      assert At(q, x) == c;
      assert (p.slope * x + p.intercept) * c == (p.slope * c) * x + p.intercept * c;
    }
  }

  lemma DivFollowsLines(p: Line, q: Line, x: real)
    requires q.slope == 0.0 && q.intercept != 0.0
    ensures Arith(Div, At(p, x), At(q, x)).value == At(CombineLines(Div, p, q).value, x)
  {
    var c := q.intercept;
    var l := CombineLines(Div, p, q).value;
    assert l.slope == p.slope / c && l.intercept == p.intercept / c;
    assert At(q, x) == c;
    assert (p.slope / c) * x * c == p.slope * x;
    assert At(l, x) * c == At(p, x);
  }

  /** One arithmetic step on two lines' values is the combined line's value. */
  lemma ArithFollowsLines(op: BinaryOperator, p: Line, q: Line, x: real)
    requires CombineLines(op, p, q).Some?
    ensures Supported(op)
    ensures Arith(op, At(p, x), At(q, x)).Ok?
    ensures Arith(op, At(p, x), At(q, x)).value == At(CombineLines(op, p, q).value, x)
  {
    match op
    case Add => AddFollowsLines(p, q, x);
    case Sub => SubFollowsLines(p, q, x);
    case Mult => MultFollowsLines(p, q, x);
    case Div => DivFollowsLines(p, q, x);
  }

  /** Wherever an expression reads as a line, the evaluator computes that
      line at every argument, and never fails. */
  lemma {:induction false} EvalFollowsLine(e: Expr, x: real)
    requires Coefficients(e).Some?
    ensures Eval(e, x).Ok?
    ensures Eval(e, x).value == At(Coefficients(e).value, x)
  {
    match e
    case Constant(c) =>
    case Name(_) =>
    case UnaryOp(op, operand) =>
    case BinOp(left, op, right) =>
      EvalFollowsLine(left, x);
      EvalFollowsLine(right, x);
      ArithFollowsLines(op, Coefficients(left).value, Coefficients(right).value, x);
    case _ =>
  }

  /** A unary operator on a name gives `-x`, whichever operator it is. */
  lemma UnaryOnNameNegates(op: UnaryOperator, id: string, x: real)
    ensures Eval(UnaryOp(op, Name(id)), x) == Ok(-x)
  {
  }

  /** `return 1 / x` fails when called at 0. */
  lemma ReciprocalFailsAtZero(id: string)
    ensures Eval(BinOp(Constant(1.0), Div, Name(id)), 0.0) == Err(DivisionByZero)
  {
  }

  /** The degree is not checked: `x * x` squares its argument. */
  lemma SquareEvaluates(id: string, x: real)
    ensures Eval(BinOp(Name(id), Mult, Name(id)), x) == Ok(x * x)
  {
    assert Eval(Name(id), x) == Ok(x);
    assert Arith(Mult, x, x) == Ok(x * x);
  }

  /** An unsupported return expression compiles, and every call fails:
      a boolean operation, a comparison, any other expression kind, or a
      binary operator outside `op_map` such as `x ** 2`. */
  lemma UnsupportedFailsOnlyWhenCalled(e: Expr)
    requires e.BoolOp? || e.Compare? || e.OtherExpr? || (e.BinOp? && !Supported(e.binOp))
    ensures CompileReturn(Return(Some(e))).Ok?
    ensures forall x :: CompileReturn(Return(Some(e))).value(x) == Err(NotPolynomial)
  {
  }

  /** A bare `return` compiles, and every call fails. */
  lemma BareReturnFailsWhenCalled()
    ensures CompileReturn(Return(None)).Ok?
    ensures forall x :: CompileReturn(Return(None)).value(x) == Err(NotPolynomial)
  {
  }
}
