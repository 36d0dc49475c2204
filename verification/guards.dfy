/** The guard compiler (`boolop_to_interval` in utils/utils.py): a guard
    built from `and`, `or` and comparisons of the argument with numbers
    becomes the set of reals on which it holds.

    A comparison is first flattened into the token list
    `[left, op0, right0, op1, right1, ...]` with every literal folded into a
    number. Three tokens give a half-line, a point or the complement of a
    point; five tokens give a bounded interval. The model keeps the code's
    quirks: a chained interval is never closed at both ends, `x != c` fails
    on a misspelt attribute, the three-token case never checks which name is
    used or what stands on the side it does not read, and a comparison
    whose interval is empty, like an operand of `and`/`or` that is neither a
    comparison nor a boolean operation, fails: the fallback `interval()`
    calls the module `portion` itself. `GuardSemantics.GuardMeansItsTruth`
    states where the compiled set is exactly the set of reals that satisfy the
    guard in Python. */
module Guards {
  import opened Outcomes
  import opened Syntax
  import opened Intervals

  /** An entry of the flattened comparison, after literal folding. */
  datatype Token = Number(value: real) | Node(expr: Expr)

  predicate IsName(t: Token) {
    t.Node? && t.expr.Name?
  }

  predicate IsLess(op: CmpOperator) {
    op == Lt || op == LtE
  }

  predicate IsGreater(op: CmpOperator) {
    op == Gt || op == GtE
  }

  /** The set `I` holds exactly the reals accepted by `p`. */
  ghost predicate Denotes(i: Interval, p: real -> bool) {
    forall v :: Contains(i, v) <==> p(v)
  }

  /** Literals (signed or not) become numbers; other nodes stay as they are. */
  function FoldToken(e: Expr): (t: Result<Token>)
    ensures e.Constant? ==> t == Ok(Number(e.value))
    ensures e.UnaryOp? ==> t == (match LiteralValue(e)
                                 case Ok(c) => Ok(Number(c))
                                 case Err(err) => Err(err))
    ensures !(e.Constant? || e.UnaryOp?) ==> t == Ok(Node(e))
  {
    if e.Constant? || e.UnaryOp? then
      var c :- LiteralValue(e);
      Ok(Number(c))
    else
      Ok(Node(e))
  }

  /** Folding keeps a literal's meaning: a literal written for `c`, signed
      or not, becomes the number `c`, and a name or any other node that is
      not a literal stays a node. */
  lemma FoldTokenKeepsMeaning(c: real, e: Expr)
    requires !(e.Constant? || e.UnaryOp?)
    ensures FoldToken(Literal(c)) == Ok(Number(c))
    ensures FoldToken(e) == Ok(Node(e))
  {
  }

  /** A comparison with one operator, `a op b` (the three-token case). */
  function CompileSingle(a: Token, op: CmpOperator, b: Token): (r: Result<Interval>)
    // `x < c`, `x <= c`: everything below `c`, and `c` itself for `<=`
    ensures IsName(a) && b.Number? && IsLess(op) ==>
      r.Ok? && Denotes(r.value, v => v < b.value || (op == LtE && v == b.value))
    // `c < x`, `c <= x`: everything above `c`, and `c` itself for `<=`
    ensures a.Number? && IsLess(op) ==>
      r.Ok? && Denotes(r.value, v => a.value < v || (op == LtE && v == a.value))
    // `x > c`, `x >= c`: everything above `c`, and `c` itself for `>=`
    ensures IsName(a) && b.Number? && IsGreater(op) ==>
      r.Ok? && Denotes(r.value, v => b.value < v || (op == GtE && v == b.value))
    // `c > x`, `c >= x`: everything below `c`, and `c` itself for `>=`
    ensures a.Number? && IsGreater(op) ==>
      r.Ok? && Denotes(r.value, v => v < a.value || (op == GtE && v == a.value))
    // `x == c` and `c == x`: the single point `c`
    ensures IsName(a) && b.Number? && op == Eq ==> r.Ok? && Denotes(r.value, v => v == b.value)
    ensures a.Number? && op == Eq ==> r.Ok? && Denotes(r.value, v => v == a.value)
    // `c != x`: every real but `c`; `x != c` fails
    ensures a.Number? && op == NotEq ==> r.Ok? && Denotes(r.value, v => v != a.value)
    ensures IsName(a) && op == NotEq ==> r == Err(MisspelledSingleton)
    // the bound the interval is built from must be a number
    ensures (IsLess(op) || IsGreater(op) || op == Eq) && !a.Number? && !(IsName(a) && b.Number?) ==>
      r == Err(BoundNotNumber)
    ensures op == NotEq && !a.Number? && !IsName(a) ==> r == Err(BoundNotNumber)
    // identity and membership operators are not part of the grammar
    ensures op in {Is, IsNot, In, NotIn} ==> r == Err(MalformedCompare)
  {
    if IsLess(op) then
      if IsName(a) then
        if b.Number? then Ok(Atom(NegInf, Fin(b.value, op == LtE))) else Err(BoundNotNumber)
      else if a.Number? then Ok(Atom(Fin(a.value, op == LtE), PosInf))
      else Err(BoundNotNumber)
    else if IsGreater(op) then
      if IsName(a) then
        if b.Number? then Ok(Atom(Fin(b.value, op == GtE), PosInf)) else Err(BoundNotNumber)
      else if a.Number? then Ok(Atom(NegInf, Fin(a.value, op == GtE)))
      else Err(BoundNotNumber)
    else if op == Eq then
      if IsName(a) then
        if b.Number? then Ok(Point(b.value)) else Err(BoundNotNumber)
      else if a.Number? then Ok(Point(a.value))
      else Err(BoundNotNumber)
    else if op == NotEq then
      if IsName(a) then Err(MisspelledSingleton)
      else if a.Number? then
        assert forall v :: Contains(Compl(Point(a.value)), v) <==> !Contains(Point(a.value), v);
        Ok(Compl(Point(a.value)))
      else Err(BoundNotNumber)
    else
      Err(MalformedCompare)
  }

  /** A chained comparison `a op1 m op2 b` (the five-token case). */
  function CompileChain(a: Token, op1: CmpOperator, m: Token, op2: CmpOperator, b: Token): (r: Result<Interval>)
    ensures !IsName(m) ==> r == Err(MiddleNotName)
    ensures IsName(m) && !(IsLess(op1) && IsLess(op2)) && !(IsGreater(op1) && IsGreater(op2)) ==>
      r == Err(MalformedCompare)
    ensures (IsName(m) && ((IsLess(op1) && IsLess(op2)) || (IsGreater(op1) && IsGreater(op2)))
             && !(a.Number? && b.Number?)) ==> r == Err(BoundNotNumber)
    // `a < x < b`: open, closed at `a` for `a <= x`, otherwise closed at `b` for `x <= b`
    ensures IsName(m) && IsLess(op1) && IsLess(op2) && a.Number? && b.Number? ==>
      r.Ok? && Denotes(r.value, v =>
        (if op1 == LtE then a.value <= v else a.value < v)
        && (if op1 != LtE && op2 == LtE then v <= b.value else v < b.value))
    // `a > x > b`: open, closed at `a` for `a >= x`, otherwise closed at `b` for `x >= b`
    ensures IsName(m) && IsGreater(op1) && IsGreater(op2) && a.Number? && b.Number? ==>
      r.Ok? && Denotes(r.value, v =>
        (if op1 == GtE then v <= a.value else v < a.value)
        && (if op1 != GtE && op2 == GtE then b.value <= v else b.value < v))
  {
    if !IsName(m) then Err(MiddleNotName)
    else if IsLess(op1) && IsLess(op2) then
      if a.Number? && b.Number? then
        Ok(Atom(Fin(a.value, op1 == LtE), Fin(b.value, op1 != LtE && op2 == LtE)))
      else Err(BoundNotNumber)
    else if IsGreater(op1) && IsGreater(op2) then
      if a.Number? && b.Number? then
        Ok(Atom(Fin(b.value, op1 != GtE && op2 == GtE), Fin(a.value, op1 == GtE)))
      else Err(BoundNotNumber)
    else
      Err(MalformedCompare)
  }

  /** How many (operator, comparator) pairs `zip` produces. */
  function Pairs(e: Expr): nat
    requires e.Compare?
  {
    if |e.ops| <= |e.comparators| then |e.ops| else |e.comparators|
  }

  /** The literal-folded tokens of a comparison, operators left out: the
      operands are folded in order and the first failure stops the fold. */
  function CompareTokens(e: Expr): Result<seq<Token>>
    requires e.Compare?
  {
    MapAll(FoldToken, [e.first] + e.comparators[..Pairs(e)])
  }

  /** One comparison node: three tokens, five tokens, or a failure. */
  function CompileCompare(e: Expr): (r: Result<Interval>)
    requires e.Compare?
    ensures CompareTokens(e).Err? ==> r == Err(CompareTokens(e).error)
    ensures CompareTokens(e).Ok? && Pairs(e) != 1 && Pairs(e) != 2 ==> r == Err(MalformedCompare)
    ensures CompareTokens(e).Ok? && Pairs(e) == 1 ==>
      r == CompileSingle(CompareTokens(e).value[0], e.ops[0], CompareTokens(e).value[1])
    ensures CompareTokens(e).Ok? && Pairs(e) == 2 ==>
      r == CompileChain(CompareTokens(e).value[0], e.ops[0], CompareTokens(e).value[1],
                        e.ops[1], CompareTokens(e).value[2])
  {
    var n := Pairs(e);
    var toks :- CompareTokens(e);
    if n == 2 then CompileChain(toks[0], e.ops[0], toks[1], e.ops[1], toks[2])
    else if n == 1 then CompileSingle(toks[0], e.ops[0], toks[1])
    else Err(MalformedCompare)
  }

  /** `and` intersects, `or` unites. */
  function Combine(op: BoolOperator, a: Interval, b: Interval): Interval {
    if op == And then Inter(a, b) else Union(a, b)
  }

  /** A comparison node as `_recur` returns it, `ival or interval()`: the
      comparison's interval when it is truthy, and the failing fallback
      otherwise. */
  function CompareOrFallback(e: Expr): (r: Result<Interval>)
    requires e.Compare?
    ensures CompileCompare(e).Err? ==> r == CompileCompare(e)
    ensures CompileCompare(e).Ok? ==> (r.Ok? <==> !IsEmpty(CompileCompare(e).value))
    ensures r.Ok? ==> r == CompileCompare(e)
    ensures CompileCompare(e).Ok? && r.Err? ==> r.error == NoFallbackInterval
  {
    var i :- CompileCompare(e);
    if IsEmpty(i) then Err(NoFallbackInterval) else Ok(i)
  }

  /** A compiled comparison survives the fallback exactly when some real
      is in it. */
  lemma CompareKeptIffInhabited(e: Expr)
    requires e.Compare? && CompileCompare(e).Ok?
    ensures CompareOrFallback(e).Ok? <==> exists v :: Contains(CompileCompare(e).value, v)
    ensures CompareOrFallback(e).Err? <==> CompareOrFallback(e) == Err(NoFallbackInterval)
  {
    IsEmptyIff(CompileCompare(e).value);
  }

  /** The inner `_recur`: any node, with the root check left out. A
      boolean operation compiles its operands in order, stopping at the
      first failure, and returns their reduction as it is, even when empty;
      `BoolOpMeaning` states what it compiles to. Any node that is neither
      a boolean operation nor a comparison reaches the failing fallback. */
  function CompileNode(e: Expr): (r: Result<Interval>)
    decreases e, 1
    ensures !(e.BoolOp? || e.Compare?) ==> r == Err(NoFallbackInterval)
    ensures e.BoolOp? && |e.values| == 0 ==> r == Err(EmptyBoolOp)
  {
    match e
    case BoolOp(op, values) =>
      if |values| == 0 then Err(EmptyBoolOp)
      else
        var parts :- CompileOperands(e);
        Ok(Reduce(op, parts))
    case Compare(_, _, _) => CompareOrFallback(e)
    case _ => Err(NoFallbackInterval)
  }

  /** The operands of a boolean operation compiled in order, as the
      generator handed to `reduce` yields them: all of them, or the error
      of the first that fails. */
  function CompileOperands(e: Expr): (r: Result<seq<Interval>>)
    requires e.BoolOp?
    decreases e, 0
    ensures r.Ok? <==> forall k :: 0 <= k < |e.values| ==> CompileNode(e.values[k]).Ok?
    ensures r.Ok? ==> |r.value| == |e.values|
    ensures r.Ok? ==> forall k :: 0 <= k < |e.values| ==> r.value[k] == CompileNode(e.values[k]).value
    ensures r.Err? ==> exists k :: && 0 <= k < |e.values|
                                   && (forall j :: 0 <= j < k ==> CompileNode(e.values[j]).Ok?)
                                   && CompileNode(e.values[k]) == Err(r.error)
  {
    var compiled := seq(|e.values|, k requires 0 <= k < |e.values| => CompileNode(e.values[k]));
    assert forall k :: 0 <= k < |e.values| ==> compiled[k] == CompileNode(e.values[k]);
    MapAll(c => c, compiled)
  }

  /** `reduce(and_, parts)` or `reduce(or_, parts)`: the left fold. */
  function Reduce(op: BoolOperator, parts: seq<Interval>): Interval
    requires |parts| > 0
    decreases |parts|
  {
    if |parts| == 1 then parts[0]
    else Combine(op, Reduce(op, parts[..|parts| - 1]), parts[|parts| - 1])
  }

  /** The fold of `and` holds the reals in every part; that of `or` the
      reals in some part. */
  lemma {:induction false} ReduceMeaning(op: BoolOperator, parts: seq<Interval>)
    requires |parts| > 0
    decreases |parts|
    ensures op == And ==> forall v :: Contains(Reduce(op, parts), v) <==> forall k :: 0 <= k < |parts| ==> Contains(parts[k], v)
    ensures op == Or ==> forall v :: Contains(Reduce(op, parts), v) <==> exists k :: 0 <= k < |parts| && Contains(parts[k], v)
  {
    if |parts| > 1 {
      var front := parts[..|parts| - 1];
      ReduceMeaning(op, front);
      assert forall k :: 0 <= k < |front| ==> front[k] == parts[k];
      forall v
        ensures op == Or ==> (Contains(Reduce(op, parts), v) <==> exists k :: 0 <= k < |parts| && Contains(parts[k], v))
      {
        if op == Or && exists k :: 0 <= k < |parts| && Contains(parts[k], v) {
          var k :| 0 <= k < |parts| && Contains(parts[k], v);
          assert k == |parts| - 1 || Contains(front[k], v);
        }
      }
    }
  }

  /** Every operand of a boolean operation compiles. */
  ghost predicate OperandsCompile(e: Expr)
    requires e.BoolOp?
  {
    forall k :: 0 <= k < |e.values| ==> CompileNode(e.values[k]).Ok?
  }

  /** `v` is in the compiled set of operand `k`. */
  ghost predicate InOperand(e: Expr, k: nat, v: real)
    requires e.BoolOp? && k < |e.values|
  {
    var c := CompileNode(e.values[k]);
    c.Ok? && Contains(c.value, v)
  }

  /** A boolean operation fails when it has no operand or when one of its
      operands fails, and then with the error of the first that fails. */
  lemma BoolOpOutcome(e: Expr)
    requires e.BoolOp?
    ensures CompileNode(e).Ok? <==> |e.values| > 0 && OperandsCompile(e)
    ensures CompileNode(e).Err? && |e.values| > 0 ==>
      exists k :: && 0 <= k < |e.values|
                  && (forall j :: 0 <= j < k ==> CompileNode(e.values[j]).Ok?)
                  && CompileNode(e.values[k]) == Err(CompileNode(e).error)
  {
  }

  /** `and` denotes the intersection and `or` the union of the sets of all
      operands. */
  lemma BoolOpMeaning(e: Expr)
    requires e.BoolOp?
    ensures CompileNode(e).Ok? && e.boolOp == And ==>
      forall v :: Contains(CompileNode(e).value, v) <==> forall k :: 0 <= k < |e.values| ==> InOperand(e, k, v)
    ensures CompileNode(e).Ok? && e.boolOp == Or ==>
      forall v :: Contains(CompileNode(e).value, v) <==> exists k :: 0 <= k < |e.values| && InOperand(e, k, v)
  {
    if |e.values| > 0 {
      var all := CompileOperands(e);
      if all.Ok? {
        assert CompileNode(e) == Ok(Reduce(e.boolOp, all.value));
        assert forall v, k :: 0 <= k < |e.values| ==> (InOperand(e, k, v) <==> Contains(all.value[k], v));
        ReduceMeaning(e.boolOp, all.value);
      }
    }
  }

  /** `boolop_to_interval`: the root must be a boolean operation or a
      comparison. */
  function CompileGuard(root: Expr): (r: Result<Interval>)
    ensures !(root.BoolOp? || root.Compare?) ==> r == Err(NotLogicalExpr)
    ensures root.BoolOp? || root.Compare? ==> r == CompileNode(root)
  {
    if root.BoolOp? || root.Compare? then CompileNode(root) else Err(NotLogicalExpr)
  }
}
