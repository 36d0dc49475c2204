/** What a guard means in Python, independently of the compiler, and where
    the compiled set agrees with it.

    `Satisfies(e, x)` evaluates the guard the way Python does once every
    name is bound to `x`: a chained comparison holds when each adjacent pair
    holds, `and` needs every operand, `or` needs one. `Faithful(e)` is the
    part of the grammar that the compiler translates exactly: comparisons
    of one name with numbers, with neither `x != c` nor a chain inclusive at
    both ends. The remaining lemmas exhibit the code's behaviour outside
    that part. */
module GuardSemantics {
  import opened Outcomes
  import opened Syntax
  import opened Intervals
  import opened Guards

  /** Python's comparison operators on numbers. */
  predicate Holds(op: CmpOperator, l: real, r: real) {
    match op
    case Lt => l < r
    case LtE => l <= r
    case Gt => l > r
    case GtE => l >= r
    case Eq => l == r
    case NotEq => l != r
    case _ => false
  }

  /** A token's value once names stand for `x`. */
  function ValueAt(t: Token, x: real): real
    requires t.Number? || IsName(t)
  {
    if t.Number? then t.value else x
  }

  /** The guard is true in Python when its names hold `x`. */
  ghost predicate Satisfies(e: Expr, x: real)
    decreases e
  {
    match e
    case Compare(_, ops, _) =>
      var ts := CompareTokens(e);
      && ts.Ok?
      && (forall k :: 0 <= k < |ts.value| ==> ts.value[k].Number? || IsName(ts.value[k]))
      && forall k :: 0 <= k < Pairs(e) ==> Holds(ops[k], ValueAt(ts.value[k], x), ValueAt(ts.value[k + 1], x))
    case BoolOp(op, values) =>
      if op == And then forall k :: 0 <= k < |values| ==> Satisfies(values[k], x)
      else exists k :: 0 <= k < |values| && Satisfies(values[k], x)
    case _ => false
  }

  /** One-operator comparisons the compiler translates exactly. */
  predicate SingleFaithful(a: Token, op: CmpOperator, b: Token) {
    || (IsName(a) && b.Number? && (IsLess(op) || IsGreater(op) || op == Eq))
    || (a.Number? && IsName(b) && (IsLess(op) || IsGreater(op) || op == Eq || op == NotEq))
  }

  /** Chained comparisons the compiler translates exactly: inclusive at one
      end at most, and with room between the bounds, since an empty interval
      fails on the fallback. */
  predicate ChainFaithful(a: Token, op1: CmpOperator, m: Token, op2: CmpOperator, b: Token) {
    && a.Number? && IsName(m) && b.Number?
    && ((IsLess(op1) && IsLess(op2) && a.value < b.value)
        || (IsGreater(op1) && IsGreater(op2) && b.value < a.value))
    && !((op1 == LtE || op1 == GtE) && (op2 == LtE || op2 == GtE))
  }

  ghost predicate Faithful(e: Expr)
    decreases e
  {
    match e
    case Compare(_, ops, _) =>
      var ts := CompareTokens(e);
      && ts.Ok?
      && ((Pairs(e) == 1 && SingleFaithful(ts.value[0], ops[0], ts.value[1]))
          || (Pairs(e) == 2 && ChainFaithful(ts.value[0], ops[0], ts.value[1], ops[1], ts.value[2])))
    case BoolOp(_, values) =>
      |values| > 0 && forall k :: 0 <= k < |values| ==> Faithful(values[k])
    case _ => false
  }

  /** A faithful comparison compiles to exactly the reals that satisfy it. */
  lemma FaithfulCompareDenotes(e: Expr)
    requires e.Compare? && Faithful(e)
    ensures CompileCompare(e).Ok?
    ensures forall x :: Contains(CompileCompare(e).value, x) <==> Satisfies(e, x)
  {
  }

  /** A faithful chain never compiles to the empty set: the midpoint of its
      bounds is in it. */
  lemma FaithfulChainNotEmpty(e: Expr)
    requires e.Compare? && Faithful(e) && Pairs(e) == 2
    ensures CompileCompare(e).Ok?
    ensures !IsEmpty(CompileCompare(e).value)
  {
    var ts := CompareTokens(e).value;
    var i := CompileCompare(e).value;
    MemberMeansNotEmpty(i, (ts[0].value + ts[2].value) / 2.0);
  }

  /** A faithful one-operator comparison never compiles to the empty set:
      its bound, or a real one past it, is in it. */
  lemma FaithfulSingleNotEmpty(e: Expr)
    requires e.Compare? && Faithful(e) && Pairs(e) == 1
    ensures CompileCompare(e).Ok?
    ensures !IsEmpty(CompileCompare(e).value)
  {
    var op := e.ops[0];
    var ts := CompareTokens(e).value;
    var i := CompileCompare(e).value;
    if ts[0].Number? {
      var c := ts[0].value;
      if IsLess(op) || op == NotEq {
        MemberMeansNotEmpty(i, c + 1.0);
      } else if IsGreater(op) {
        MemberMeansNotEmpty(i, c - 1.0);
      } else {
        MemberMeansNotEmpty(i, c);
      }
    } else {
      var c := ts[1].value;
      if IsLess(op) {
        MemberMeansNotEmpty(i, c - 1.0);
      } else if IsGreater(op) {
        MemberMeansNotEmpty(i, c + 1.0);
      } else {
        MemberMeansNotEmpty(i, c);
      }
    }
  }

  /** A faithful comparison keeps its interval past the fallback, and that
      interval holds exactly the reals that satisfy the comparison. */
  lemma FaithfulCompareMeansItsTruth(e: Expr)
    requires e.Compare? && Faithful(e)
    ensures CompareOrFallback(e).Ok?
    ensures forall x :: Contains(CompareOrFallback(e).value, x) <==> Satisfies(e, x)
  {
    FaithfulCompareDenotes(e);
    if Pairs(e) == 2 {
      FaithfulChainNotEmpty(e);
    } else {
      FaithfulSingleNotEmpty(e);
    }
  }

  lemma {:induction false} FaithfulNodeMeansItsTruth(e: Expr)
    requires Faithful(e)
    decreases e
    ensures CompileNode(e).Ok?
    ensures forall x :: Contains(CompileNode(e).value, x) <==> Satisfies(e, x)
  {
    match e
    case Compare(_, _, _) =>
      FaithfulCompareMeansItsTruth(e);
    case BoolOp(op, values) =>
      forall k | 0 <= k < |values|
        ensures CompileNode(values[k]).Ok?
        ensures forall x :: Contains(CompileNode(values[k]).value, x) <==> Satisfies(values[k], x)
      {
        FaithfulNodeMeansItsTruth(values[k]);
      }
      BoolOpOutcome(e);
      BoolOpMeaning(e);
      forall x
        ensures Contains(CompileNode(e).value, x) <==> Satisfies(e, x)
      {
        assert forall k :: 0 <= k < |values| ==> (InOperand(e, k, x) <==> Satisfies(values[k], x));
      }
  }

  /** On the faithful part of the grammar the compiled set is exactly the
      set of reals on which the guard is true. */
  lemma GuardMeansItsTruth(e: Expr)
    requires Faithful(e)
    ensures CompileGuard(e).Ok?
    ensures forall x :: Contains(CompileGuard(e).value, x) <==> Satisfies(e, x)
  {
    FaithfulNodeMeansItsTruth(e);
  }

  /** A chained interval never holds both of its bounds. */
  lemma ChainNeverClosedAtBothEnds(a: Token, op1: CmpOperator, m: Token, op2: CmpOperator, b: Token)
    requires CompileChain(a, op1, m, op2, b).Ok?
    ensures a.Number? && b.Number?
    ensures !(Contains(CompileChain(a, op1, m, op2, b).value, a.value)
              && Contains(CompileChain(a, op1, m, op2, b).value, b.value))
  {
  }

  /** The tokens of `a op x op b` with literal bounds. */
  lemma ChainTokens(a: real, id: string, b: real, ops: seq<CmpOperator>)
    requires |ops| == 2
    ensures CompareTokens(Compare(Literal(a), ops, [Name(id), Literal(b)])) == Ok([Number(a), Node(Name(id)), Number(b)])
  {
    FoldTokenKeepsMeaning(a, Name(id));
    FoldTokenKeepsMeaning(b, Name(id));
    var e := Compare(Literal(a), ops, [Name(id), Literal(b)]);
    assert [e.first] + e.comparators[..Pairs(e)] == [Literal(a), Name(id), Literal(b)];
    var r := MapAll(FoldToken, [Literal(a), Name(id), Literal(b)]);
    assert r.Ok? && r.value == [Number(a), Node(Name(id)), Number(b)];
  }

  /** The tokens of `c op x` with a literal bound. */
  lemma SingleTokens(c: real, id: string, ops: seq<CmpOperator>)
    requires |ops| == 1
    ensures CompareTokens(Compare(Literal(c), ops, [Name(id)])) == Ok([Number(c), Node(Name(id))])
  {
    FoldTokenKeepsMeaning(c, Name(id));
    var e := Compare(Literal(c), ops, [Name(id)]);
    assert [e.first] + e.comparators[..Pairs(e)] == [Literal(c), Name(id)];
    var r := MapAll(FoldToken, [Literal(c), Name(id)]);
    assert r.Ok? && r.value == [Number(c), Node(Name(id))];
  }

  /** `a <= x <= b` with `a < b` leaves out `b`, where Python's test is true. */
  lemma InclusiveChainDropsUpperEnd(a: real, id: string, b: real)
    requires a < b
    ensures Satisfies(Compare(Literal(a), [LtE, LtE], [Name(id), Literal(b)]), b)
    ensures CompileGuard(Compare(Literal(a), [LtE, LtE], [Name(id), Literal(b)])).Ok?
    ensures !Contains(CompileGuard(Compare(Literal(a), [LtE, LtE], [Name(id), Literal(b)])).value, b)
  {
    var e := Compare(Literal(a), [LtE, LtE], [Name(id), Literal(b)]);
    ChainTokens(a, id, b, e.ops);
    var i := Atom(Fin(a, true), Fin(b, false));
    assert CompileCompare(e) == Ok(i);
    // the midpoint is in the compiled set, so the set is not empty
    MemberMeansNotEmpty(i, (a + b) / 2.0);
  }

  /** A chain with no room between its bounds, such as `2 < x < 1`,
      compiles to an empty interval and fails on the fallback. */
  lemma EmptyChainFails(a: real, id: string, b: real)
    requires b <= a
    ensures CompileGuard(Compare(Literal(a), [Lt, Lt], [Name(id), Literal(b)])) == Err(NoFallbackInterval)
  {
  }

  /** An operand of `and`/`or` that is neither a comparison nor a boolean
      operation, such as the `y` of `x > 0 and y`, makes the guard fail. */
  lemma PlainOperandFails(op: BoolOperator, values: seq<Expr>, k: nat)
    requires k < |values| && !(values[k].BoolOp? || values[k].Compare?)
    ensures CompileGuard(BoolOp(op, values)).Err?
  {
  }

  /** `x != c` fails, while `c != x` is every real but `c`. */
  lemma NotEqualNeedsConstantFirst(id: string, c: real)
    ensures CompileGuard(Compare(Name(id), [NotEq], [Literal(c)])) == Err(MisspelledSingleton)
    ensures CompileGuard(Compare(Literal(c), [NotEq], [Name(id)])).Ok?
    ensures forall v :: Contains(CompileGuard(Compare(Literal(c), [NotEq], [Name(id)])).value, v) <==> v != c
  {
    var e := Compare(Literal(c), [NotEq], [Name(id)]);
    SingleTokens(c, id, e.ops);
    var i := Compl(Point(c));
    assert CompileCompare(e) == Ok(i);
    MemberMeansNotEmpty(i, c + 1.0);
  }

  /** With a number on the left, a one-operator comparison never reads its
      right-hand side: `3 < 5` compiles like `3 < x`. */
  lemma SingleIgnoresRightWhenLeftIsNumber(c: real, op: CmpOperator, b1: Token, b2: Token)
    ensures CompileSingle(Number(c), op, b1) == CompileSingle(Number(c), op, b2)
  {
  }

  /** Which name a one-operator comparison uses does not matter. */
  lemma SingleIgnoresWhichName(id1: string, id2: string, op: CmpOperator, b: Token)
    ensures CompileSingle(Node(Name(id1)), op, b) == CompileSingle(Node(Name(id2)), op, b)
  {
  }
}
