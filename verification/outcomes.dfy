/** Failure-compatible wrappers shared by the compiler, the assembler and the
    evaluator. Every kind of failure of the Python package, whether raised on
    purpose or by accident (an assertion, a misspelt attribute), has its own
    `Error` constructor, so a contract can say which failure a call reports. */
module Outcomes {

  /** The failures of guard compilation, callback evaluation and the
      factory, one per kind of failure. */
  datatype Error =
    // `_to_float`: a unary operator other than `-` or `+` on a literal
    | UnsupportedUnaryOp
    // `_to_float`: the operand of a unary operator is not a literal
    | OperandNotConstant
    // CMP_ERROR: token count, operator or direction outside the grammar
    | MalformedCompare
    // the middle term of a chained comparison is not a name
    | MiddleNotName
    // a bound that the interval is built from is not a number
    | BoundNotNumber
    // `x != c` reaches the misspelt `interval.signleton`
    | MisspelledSingleton
    // `reduce` over a boolean operator without operands
    | EmptyBoolOp
    // `ival or interval()` with no interval or an empty one: `interval`
    // names the `portion` module, and calling a module raises
    | NoFallbackInterval
    // the root of a guard is neither `and`/`or` nor a comparison
    | NotLogicalExpr
    // EXPR_ERROR: a return expression outside the polynomial grammar
    | NotPolynomial
    // a division whose divisor evaluates to zero
    | DivisionByZero
    // a branch whose first statement is not a `return`
    | CallbackNotReturn
    // an `if` whose body holds no statement
    | MissingBranchBody
    // a function definition whose body holds no statement
    | EmptyFunctionBody
    // MALFORMED_PFUNC_EXCEPTION: the walk collected nothing
    | MalformedFunction
    // the callback list is empty
    | EmptyCallbacks
    // callbacks minus intervals is neither 0 nor 1
    | ArityMismatch
    // two branch domains share a point
    | OverlappingDomains
    // an input cannot be read as a real number
    | InputNotReal
    // `min`/`max` over an empty batch
    | EmptyBatch

  datatype Option<+T> = None | Some(value: T)

  /** A branch's evaluator: a real in, a real or a failure out. */
  type Callback = real -> Result<real>

  /** A value, or the error that stopped the computation. */
  datatype Result<+T> = Ok(value: T) | Err(error: Error) {

    predicate IsFailure() {
      Err?
    }

    function PropagateFailure<U>(): Result<U>
      requires Err?
    {
      Err(error)
    }

    function Extract(): T
      requires Ok?
    {
      value
    }
  }

  /** `f` applied to every element, in order, as a list comprehension does
      it: the first failure stops the whole computation. */
  function MapAll<A, B>(f: A -> Result<B>, xs: seq<A>): (r: Result<seq<B>>)
    ensures r.Ok? <==> forall i :: 0 <= i < |xs| ==> f(xs[i]).Ok?
    ensures r.Ok? ==> |r.value| == |xs| && forall i :: 0 <= i < |xs| ==> r.value[i] == f(xs[i]).value
    ensures r.Err? ==> exists i :: && 0 <= i < |xs|
                                   && (forall j :: 0 <= j < i ==> f(xs[j]).Ok?)
                                   && f(xs[i]).Err?
                                   && r.error == f(xs[i]).error
  {
    if |xs| == 0 then Ok([])
    else
      var y :- f(xs[0]);
      var ys :- MapAll(f, xs[1..]);
      assert forall i :: 1 <= i < |xs| ==> xs[1..][i - 1] == xs[i];
      Ok([y] + ys)
  }
}
