/** The factory `from_funcdef`: the statements of a function body are walked
    along its `if`/`elif`/`else` chain, collecting each branch's guard and
    the first statement of its body; then every guard is compiled into a
    domain, every collected statement into a callback, and the two lists go
    to the constructor.

    The walk follows the `else` of an `if` when there is one, and otherwise
    resumes at the next statement of the function body; it stops after a
    `return` and at any other statement, so statements after a complete
    chain are never read. */
module FunctionDef {
  import opened Outcomes
  import opened Syntax
  import opened Intervals
  import opened Guards
  import opened Returns
  import opened Generic
  import opened PiecewiseFunction

  /** The guards and the callback statements the walk collects. */
  datatype Collected = Collected(tests: seq<Expr>, results: seq<Stmt>)

  /** The loop of `from_funcdef` from `node`, where `rest` holds the
      statements of the function body not yet popped. */
  function Walk(node: Stmt, rest: seq<Stmt>): (r: Result<Collected>)
    decreases |rest|, 1, node
    ensures r.Ok? ==> |r.value.tests| <= |r.value.results| <= |r.value.tests| + 1
    ensures r.Err? ==> r.error == MissingBranchBody
    ensures node.Return? ==> r == Ok(Collected([], [node]))
    ensures node.OtherStmt? ==> r == Ok(Collected([], []))
    ensures node.If? && r.Ok? ==>
      |node.body| > 0 && |r.value.tests| > 0 && r.value.tests[0] == node.test && r.value.results[0] == node.body[0]
  {
    match node
    case If(test, body, orelse) =>
      if |body| == 0 then Err(MissingBranchBody)
      else
        var tail :- if |orelse| > 0 then Walk(orelse[0], rest) else Continue(rest);
        Ok(Collected([test] + tail.tests, [body[0]] + tail.results))
    case Return(_) => Ok(Collected([], [node]))
    case OtherStmt => Ok(Collected([], []))
  }

  /** Where the walk goes after an `if` without `else`: the next statement
      of the function body, if one is left. */
  function Continue(rest: seq<Stmt>): (r: Result<Collected>)
    decreases |rest|, 0
    ensures r.Ok? ==> |r.value.tests| <= |r.value.results| <= |r.value.tests| + 1
    ensures r.Err? ==> r.error == MissingBranchBody
  {
    if |rest| > 0 then Walk(rest[0], rest[1..]) else Ok(Collected([], []))
  }

  /** The statements of a function body: `body.pop(0)` starts the walk, and
      a walk that collects nothing is malformed. */
  function Collect(body: seq<Stmt>): (r: Result<Collected>)
    ensures |body| == 0 ==> r.Err? && r.error == EmptyFunctionBody
    ensures |body| > 0 && body[0].OtherStmt? ==> r.Err? && r.error == MalformedFunction
    ensures |body| > 0 && body[0].Return? ==> r == Ok(Collected([], [body[0]]))
    ensures r.Ok? ==> 0 < |r.value.results| && |r.value.tests| <= |r.value.results| <= |r.value.tests| + 1
    ensures r.Err? ==> r.error in {EmptyFunctionBody, MissingBranchBody, MalformedFunction}
  {
    if |body| == 0 then Err(EmptyFunctionBody)
    else
      var c :- Walk(body[0], body[1..]);
      if |c.tests| == 0 && |c.results| == 0 then Err(MalformedFunction) else Ok(c)
  }

  /** The collected guards and statements all compile. */
  ghost predicate Compiles(c: Collected) {
    && MapAll(CompileGuard, c.tests).Ok?
    && MapAll(CompileReturn, c.results).Ok?
  }

  /** `from_funcdef` after parsing: collect, compile every guard, then every
      callback, then construct. The arity rules never fail here: the walk
      always collects as many callbacks as guards, or one more. */
  function FromFuncDef(body: seq<Stmt>): (r: Result<Piecewise>)
    ensures r.Ok? ==> Collect(body).Ok? && Compiles(Collect(body).value)
    ensures Collect(body).Err? ==> r == Err(Collect(body).error)
    ensures Collect(body).Ok? && MapAll(CompileGuard, Collect(body).value.tests).Err? ==>
      r == Err(MapAll(CompileGuard, Collect(body).value.tests).error)
    ensures && Collect(body).Ok?
            && MapAll(CompileGuard, Collect(body).value.tests).Ok?
            && MapAll(CompileReturn, Collect(body).value.results).Err?
            ==> r == Err(CallbackNotReturn)
    ensures Collect(body).Ok? && Compiles(Collect(body).value) ==>
      && (r.Ok? <==> PairwiseDisjoint(MapAll(CompileGuard, Collect(body).value.tests).value))
      && (r.Err? ==> r.error == OverlappingDomains)
    ensures r.Ok? ==> Valid(r.value) && |r.value.funcs| == |Collect(body).value.results|
    ensures r.Ok? ==> forall k :: 0 <= k < |Collect(body).value.tests| ==>
      r.value.intervals[k] == CompileGuard(Collect(body).value.tests[k]).value
    ensures r.Ok? ==> forall k, x :: 0 <= k < |Collect(body).value.results| ==>
      r.value.funcs[k](x) == EvalReturn(Collect(body).value.results[k].result, x)
    ensures r.Ok? && |Collect(body).value.results| == |Collect(body).value.tests| + 1 ==>
      forall v :: Contains(r.value.intervals[|Collect(body).value.tests|], v) <==>
        forall k :: 0 <= k < |Collect(body).value.tests| ==> !Contains(CompileGuard(Collect(body).value.tests[k]).value, v)
  {
    var c :- Collect(body);
    var intervals :- MapAll(CompileGuard, c.tests);
    var callbacks :- MapAll(CompileReturn, c.results);
    Construct(intervals, callbacks)
  }

  /* ---------- the walk against the chains it reads ---------- */

  /** `return e` for every `e`, in order; a helper for stating what a
      chain yields. */
  ghost function Returning(values: seq<Expr>): (r: seq<Stmt>)
    ensures |r| == |values|
    ensures forall k :: 0 <= k < |values| ==> r[k] == Return(Some(values[k]))
  {
    if |values| == 0 then [] else [Return(Some(values[0]))] + Returning(values[1..])
  }

  /** `if tests[0]: return values[0]`, `elif tests[1]: return values[1]`,
      ..., ending with `else: return e` when `otherwise` is `Some(e)`. */
  function Chain(tests: seq<Expr>, values: seq<Expr>, otherwise: Option<Expr>): Stmt
    requires 0 < |tests| == |values|
    decreases |tests|
  {
    var orelse :=
      if |tests| > 1 then [Chain(tests[1..], values[1..], otherwise)]
      else if otherwise.Some? then [Return(otherwise)]
      else [];
    If(tests[0], [Return(Some(values[0]))], orelse)
  }

  /** `tests` and `values` in front of what the walk collects next. */
  function Prepend(tests: seq<Expr>, results: seq<Stmt>, r: Result<Collected>): Result<Collected> {
    if r.Ok? then Ok(Collected(tests + r.value.tests, results + r.value.results)) else r
  }

  /** The last link of a chain: `if t: return v`, then the `else` or the
      rest of the body. */
  lemma WalkLastLink(tests: seq<Expr>, values: seq<Expr>, otherwise: Option<Expr>, rest: seq<Stmt>)
    requires |tests| == |values| == 1
    ensures otherwise.Some? ==>
      Walk(Chain(tests, values, otherwise), rest) == Ok(Collected(tests, Returning(values) + [Return(otherwise)]))
    ensures otherwise.None? ==>
      Walk(Chain(tests, values, otherwise), rest) == Prepend(tests, Returning(values), Continue(rest))
  {
    var first := [Return(Some(values[0]))];
    assert Returning(values) == first + Returning(values[1..]);
    assert tests == [tests[0]] + [];
    assert Returning(values[1..]) == [];
    assert Returning(values) == first;
    if otherwise.Some? {
      assert Chain(tests, values, otherwise) == If(tests[0], first, [Return(otherwise)]);
      assert Walk(Return(otherwise), rest) == Ok(Collected([], [Return(otherwise)]));
      assert Walk(Chain(tests, values, otherwise), rest)
          == Ok(Collected([tests[0]] + [], first + [Return(otherwise)]));
    } else {
      assert Chain(tests, values, otherwise) == If(tests[0], first, []);
      if Continue(rest).Ok? {
        var after := Continue(rest).value;
        assert Walk(Chain(tests, values, otherwise), rest)
            == Ok(Collected([tests[0]] + after.tests, first + after.results));
        assert [tests[0]] + after.tests == tests + after.tests;
        assert Prepend(tests, Returning(values), Continue(rest))
            == Ok(Collected(tests + after.tests, first + after.results));
      }
    }
  }

  /** A link that is not the last: its guard and return, then whatever the
      rest of the chain collects. */
  lemma WalkLink(tests: seq<Expr>, values: seq<Expr>, otherwise: Option<Expr>, rest: seq<Stmt>)
    requires 1 < |tests| == |values|
    ensures Walk(Chain(tests, values, otherwise), rest)
         == Prepend([tests[0]], [Return(Some(values[0]))], Walk(Chain(tests[1..], values[1..], otherwise), rest))
  {
  }

  /** A chain yields its guards and returns in order. With an `else` the
      walk ends there, whatever follows in the function body; without one
      it resumes at the next statement of the body. */
  lemma {:induction false} WalkChain(tests: seq<Expr>, values: seq<Expr>, otherwise: Option<Expr>, rest: seq<Stmt>)
    requires 0 < |tests| == |values|
    decreases |tests|
    ensures otherwise.Some? ==>
      Walk(Chain(tests, values, otherwise), rest) == Ok(Collected(tests, Returning(values) + [Return(otherwise)]))
    ensures otherwise.None? ==>
      Walk(Chain(tests, values, otherwise), rest) == Prepend(tests, Returning(values), Continue(rest))
  {
    if |tests| == 1 {
      WalkLastLink(tests, values, otherwise, rest);
    } else {
      var first := [Return(Some(values[0]))];
      assert Returning(values) == first + Returning(values[1..]);
      assert tests == [tests[0]] + tests[1..];
      WalkChain(tests[1..], values[1..], otherwise, rest);
      WalkLink(tests, values, otherwise, rest);
      var inner := Walk(Chain(tests[1..], values[1..], otherwise), rest);
      if otherwise.Some? {
        assert first + inner.value.results == Returning(values) + [Return(otherwise)];
      } else if Continue(rest).Ok? {
        var after := Continue(rest).value;
        assert [tests[0]] + inner.value.tests == tests + after.tests;
        assert first + inner.value.results == Returning(values) + after.results;
      }
    }
  }

  /** `if a: return e1` / `elif b: return e2` followed by a top-level
      `return e3` collects all three returns, the last one for the
      "otherwise" branch. */
  lemma ElifThenTopLevelReturn(a: Expr, b: Expr, e1: Expr, e2: Expr, e3: Expr)
    ensures Collect([Chain([a, b], [e1, e2], None), Return(Some(e3))])
         == Ok(Collected([a, b], [Return(Some(e1)), Return(Some(e2)), Return(Some(e3))]))
  {
    var body := [Chain([a, b], [e1, e2], None), Return(Some(e3))];
    assert body[1..] == [Return(Some(e3))];
    WalkChain([a, b], [e1, e2], None, body[1..]);
    assert Continue(body[1..]) == Ok(Collected([], [Return(Some(e3))]));
    assert Returning([e1, e2]) == [Return(Some(e1)), Return(Some(e2))];
    assert [a, b] + [] == [a, b];
    assert Walk(body[0], body[1..])
        == Ok(Collected([a, b], [Return(Some(e1)), Return(Some(e2))] + [Return(Some(e3))]));
    assert [Return(Some(e1)), Return(Some(e2))] + [Return(Some(e3))]
        == [Return(Some(e1)), Return(Some(e2)), Return(Some(e3))];
    assert Collect(body) == Walk(body[0], body[1..]);
  }

  /** A statement after a complete `if`/`elif`/`else` chain is never read. */
  lemma StatementAfterElseUnreachable(a: Expr, b: Expr, e1: Expr, e2: Expr, e3: Expr, after: Stmt)
    ensures Collect([Chain([a, b], [e1, e2], Some(e3)), after])
         == Ok(Collected([a, b], [Return(Some(e1)), Return(Some(e2)), Return(Some(e3))]))
  {
    var body := [Chain([a, b], [e1, e2], Some(e3)), after];
    assert body[1..] == [after];
    WalkChain([a, b], [e1, e2], Some(e3), body[1..]);
    assert Returning([e1, e2]) == [Return(Some(e1)), Return(Some(e2))];
    assert Walk(body[0], body[1..])
        == Ok(Collected([a, b], [Return(Some(e1)), Return(Some(e2))] + [Return(Some(e3))]));
    assert [Return(Some(e1)), Return(Some(e2))] + [Return(Some(e3))]
        == [Return(Some(e1)), Return(Some(e2)), Return(Some(e3))];
    assert Collect(body) == Walk(body[0], body[1..]);
  }

  /** A body that is a single `return` is one branch over the whole line. */
  lemma SingleReturnCoversLine(e: Expr)
    ensures FromFuncDef([Return(Some(e))]).Ok?
    ensures |FromFuncDef([Return(Some(e))]).value.intervals| == 1
    ensures forall v :: Contains(FromFuncDef([Return(Some(e))]).value.intervals[0], v)
  {
  }
}
