/** The concrete piecewise function (`PiecewiseFunc`): construction rejects
    overlapping branch domains; applying it picks, for every input, the
    first branch whose domain contains the input and calls that branch's
    callback, giving `None` outside every domain; `min` and `max` return the
    leftmost extremal position of the applied values, with `None` ranked
    above every number for `min` and below every number for `max`. */
module PiecewiseFunction {
  import opened Outcomes
  import opened Intervals
  import opened Generic

  /* ---------- construction ---------- */

  /** No two domains of the list share a real. */
  ghost predicate PairwiseDisjoint(s: seq<Interval>) {
    forall i, j | 0 <= i < j < |s| :: Disjoint(s[i], s[j])
  }

  /** `__check_domain_validity`: some pair `a & b` is truthy. */
  predicate HasOverlap(s: seq<Interval>) {
    exists i, j | 0 <= i < j < |s| :: Overlaps(s[i], s[j])
  }

  /** The executable pair test finds exactly the lists that are not
      pairwise disjoint. */
  lemma HasOverlapIff(s: seq<Interval>)
    ensures HasOverlap(s) <==> !PairwiseDisjoint(s)
  {
    if HasOverlap(s) {
      var i, j :| 0 <= i < j < |s| && Overlaps(s[i], s[j]);
      OverlapsIff(s[i], s[j]);
    } else {
      forall i, j | 0 <= i < j < |s|
        ensures Disjoint(s[i], s[j])
      {
        OverlapsIff(s[i], s[j]);
      }
    }
  }

  /** The overlap check runs on the stored list, which may end in the "otherwise"
      domain; that domain never overlaps, so the check amounts to checking
      the given domains alone. */
  lemma StoredDisjointIffGiven(given: seq<Interval>, funcs: seq<Callback>)
    requires Assemble(given, funcs).Ok?
    ensures PairwiseDisjoint(Assemble(given, funcs).value.intervals) <==> PairwiseDisjoint(given)
  {
  }

  /** A constructed piecewise function: at least one branch, one callback
      per domain, and no real in two domains. */
  ghost predicate Valid(pf: Piecewise) {
    && |pf.funcs| > 0
    && |pf.intervals| == |pf.funcs|
    && PairwiseDisjoint(pf.intervals)
  }

  /** `PiecewiseFunc.__init__`: assemble, then reject overlapping domains. */
  function Construct(given: seq<Interval>, funcs: seq<Callback>): (r: Result<Piecewise>)
    ensures r.Ok? <==> |funcs| > 0 && ArityOk(|given|, |funcs|) && PairwiseDisjoint(given)
    ensures r.Err? && |funcs| == 0 ==> r.error == EmptyCallbacks
    ensures r.Err? && |funcs| > 0 && !ArityOk(|given|, |funcs|) ==> r.error == ArityMismatch
    ensures r.Err? && |funcs| > 0 && ArityOk(|given|, |funcs|) ==> r.error == OverlappingDomains
    ensures r.Ok? ==> Valid(r.value)
    ensures r.Ok? ==> r.value.funcs == funcs && r.value.intervals[..|given|] == given
    ensures r.Ok? && |funcs| == |given| + 1 ==>
      forall v :: Contains(r.value.intervals[|given|], v) <==> forall k :: 0 <= k < |given| ==> !Contains(given[k], v)
  {
    var pf :- Assemble(given, funcs);
    StoredDisjointIffGiven(given, funcs);
    HasOverlapIff(pf.intervals);
    if HasOverlap(pf.intervals) then Err(OverlappingDomains) else Ok(pf)
  }

  /* ---------- evaluation ---------- */

  /** An input value: a real, or something `float()` rejects. */
  datatype Input = Real(r: real) | NotReal

  /** A single input, or an iterable of them. */
  datatype Arg = Scalar(x: Input) | Batch(xs: seq<Input>)

  /** A scalar is promoted to a one-element tuple. */
  function Inputs(arg: Arg): seq<Input> {
    match arg
    case Scalar(x) => [x]
    case Batch(xs) => xs
  }

  /** `compress` pairs domains with callbacks and stops at the shorter list. */
  function Branches(pf: Piecewise): nat {
    if |pf.intervals| <= |pf.funcs| then |pf.intervals| else |pf.funcs|
  }

  /** Branch `k` is the first branch whose domain contains `v`. */
  ghost predicate FirstContaining(pf: Piecewise, v: real, k: int) {
    && 0 <= k < Branches(pf)
    && Contains(pf.intervals[k], v)
    && forall j :: 0 <= j < k ==> !Contains(pf.intervals[j], v)
  }

  /** The first of the domains `s[i..]` that contains `v`. */
  function SelectFrom(s: seq<Interval>, v: real, i: nat): (r: Option<nat>)
    requires i <= |s|
    decreases |s| - i
    ensures r.Some? ==> i <= r.value < |s| && Contains(s[r.value], v)
    ensures r.Some? ==> forall k :: i <= k < r.value ==> !Contains(s[k], v)
    ensures r.None? <==> forall k :: i <= k < |s| ==> !Contains(s[k], v)
  {
    if i == |s| then None
    else if Contains(s[i], v) then Some(i)
    else SelectFrom(s, v, i + 1)
  }

  /** The branch `next(compress(...))` selects, if any. */
  function Select(pf: Piecewise, v: real): (r: Option<nat>)
    ensures r.Some? ==> FirstContaining(pf, v, r.value)
    ensures r.None? <==> forall k :: 0 <= k < Branches(pf) ==> !Contains(pf.intervals[k], v)
  {
    SelectFrom(pf.intervals[..Branches(pf)], v, 0)
  }

  /** `_eval`: the selected callback applied to the input, or `None`. The
      `float()` cast runs only while a branch remains to be tested, and the
      failure of a callback propagates. */
  function EvalAt(pf: Piecewise, x: Input): (r: Result<Option<real>>)
    ensures x.NotReal? && Branches(pf) > 0 ==> r.Err? && r.error == InputNotReal
    ensures x.Real? && (forall k :: 0 <= k < Branches(pf) ==> !Contains(pf.intervals[k], x.r)) ==> r == Ok(None)
    ensures x.Real? ==> forall k :: FirstContaining(pf, x.r, k) ==>
      && (r.Ok? <==> pf.funcs[k](x.r).Ok?)
      && (r.Ok? ==> r.value == Some(pf.funcs[k](x.r).value))
      && (r.Err? ==> r.error == pf.funcs[k](x.r).error)
  {
    if Branches(pf) == 0 then Ok(None)
    else
      match x
      case NotReal => Err(InputNotReal)
      case Real(v) =>
        match Select(pf, v)
        case None => Ok(None)
        case Some(k) =>
          var y :- pf.funcs[k](v);
          Ok(Some(y))
  }

  /** `__apply` / `__call__`: one output per input, in input order; the
      first failing input's error stops the whole computation. */
  function Apply(pf: Piecewise, arg: Arg): (r: Result<seq<Option<real>>>)
    ensures r.Ok? <==> forall i :: 0 <= i < |Inputs(arg)| ==> EvalAt(pf, Inputs(arg)[i]).Ok?
    ensures r.Ok? ==> |r.value| == |Inputs(arg)|
    ensures r.Ok? ==> forall i :: 0 <= i < |Inputs(arg)| ==> r.value[i] == EvalAt(pf, Inputs(arg)[i]).value
    ensures r.Err? ==> exists i :: && 0 <= i < |Inputs(arg)|
                                   && (forall j :: 0 <= j < i ==> EvalAt(pf, Inputs(arg)[j]).Ok?)
                                   && EvalAt(pf, Inputs(arg)[i]).Err?
                                   && r.error == EvalAt(pf, Inputs(arg)[i]).error
    ensures arg.Scalar? && r.Ok? ==> EvalAt(pf, arg.x).Ok? && r.value == [EvalAt(pf, arg.x).value]
    ensures arg.Scalar? && r.Err? ==> EvalAt(pf, arg.x).Err? && r.error == EvalAt(pf, arg.x).error
  {
    MapAll(x => EvalAt(pf, x), Inputs(arg))
  }

  /** In a constructed function a real lies in at most one domain, so the
      first containing domain is the only one. */
  lemma ValidSelectsOnlyBranch(pf: Piecewise, v: real, k: nat)
    requires Valid(pf)
    requires k < |pf.intervals| && Contains(pf.intervals[k], v)
    ensures Select(pf, v) == Some(k)
    ensures forall j :: 0 <= j < |pf.intervals| && j != k ==> !Contains(pf.intervals[j], v)
  {
  }

  /* ---------- extrema ---------- */

  datatype Extremum = Least | Greatest

  /** `a` ranks strictly before `b` under `__bound_key_func`: `None` counts
      as +inf for `min` and as -inf for `max`. */
  predicate Beats(which: Extremum, a: Option<real>, b: Option<real>) {
    && a.Some?
    && (b.None? || (if which == Least then a.value < b.value else a.value > b.value))
  }

  /** Position `a` of `vals` ranks strictly before position `b`. */
  ghost predicate BeatsAt(which: Extremum, vals: seq<Option<real>>, a: int, b: int) {
    0 <= a < |vals| && 0 <= b < |vals| && Beats(which, vals[a], vals[b])
  }

  /** `i` is the position Python's `min`/`max` return: nothing ranks before
      it, and it ranks before everything to its left. */
  ghost predicate IsLeftmostExtreme(which: Extremum, vals: seq<Option<real>>, i: nat) {
    && i < |vals|
    && (forall j :: 0 <= j < |vals| ==> !Beats(which, vals[j], vals[i]))
    && (forall j :: 0 <= j < i ==> Beats(which, vals[i], vals[j]))
  }

  /** At most one position is the leftmost extreme. */
  lemma LeftmostExtremeUnique(which: Extremum, vals: seq<Option<real>>, i: nat, j: nat)
    requires IsLeftmostExtreme(which, vals, i) && IsLeftmostExtreme(which, vals, j)
    ensures i == j
  {
    assert i < j ==> BeatsAt(which, vals, j, i);
    assert j < i ==> BeatsAt(which, vals, i, j);
  }

  /** When every value is `None`, the leftmost extreme is position 0. */
  lemma AllNoneGivesFirst(which: Extremum, vals: seq<Option<real>>)
    requires |vals| > 0 && forall k :: 0 <= k < |vals| ==> vals[k].None?
    ensures IsLeftmostExtreme(which, vals, 0)
  {
  }

  /** The scan of Python's `min`/`max` with a key: keep the current best
      and replace it only by a value that ranks strictly before it. */
  method ArgExtreme(which: Extremum, vals: seq<Option<real>>) returns (i: nat)
    requires |vals| > 0
    ensures IsLeftmostExtreme(which, vals, i)
  {
    i := 0;
    var n := 1;
    while n < |vals|
      invariant 1 <= n <= |vals|
      invariant i < n
      invariant forall j :: 0 <= j < n ==> !Beats(which, vals[j], vals[i])
      invariant forall j :: 0 <= j < i ==> Beats(which, vals[i], vals[j])
    {
      if Beats(which, vals[n], vals[i]) {
        i := n;
      }
      n := n + 1;
    }
  }

  /** `min` (`which == Least`) and `max` (`which == Greatest`): the leftmost
      extremal position of the applied values and the value there. */
  method Extreme(which: Extremum, pf: Piecewise, arg: Arg) returns (r: Result<(nat, Option<real>)>)
    ensures r.Ok? <==> Apply(pf, arg).Ok? && |Inputs(arg)| > 0
    ensures Apply(pf, arg).Err? ==> r.Err? && r.error == Apply(pf, arg).error
    ensures Apply(pf, arg).Ok? && |Inputs(arg)| == 0 ==> r.Err? && r.error == EmptyBatch
    ensures r.Ok? ==> IsLeftmostExtreme(which, Apply(pf, arg).value, r.value.0)
    ensures r.Ok? ==> r.value.1 == Apply(pf, arg).value[r.value.0]
    ensures r.Ok? && (forall k :: 0 <= k < |Apply(pf, arg).value| ==> Apply(pf, arg).value[k].None?) ==>
      r.value == (0, None)
  {
    var ys := Apply(pf, arg);
    if ys.Err? {
      return Err(ys.error);
    }
    if |ys.value| == 0 {
      return Err(EmptyBatch);
    }
    var i := ArgExtreme(which, ys.value);
    if forall k :: 0 <= k < |ys.value| ==> ys.value[k].None? {
      AllNoneGivesFirst(which, ys.value);
      LeftmostExtremeUnique(which, ys.value, i, 0);
    }
    return Ok((i, ys.value[i]));
  }

  method Min(pf: Piecewise, arg: Arg) returns (r: Result<(nat, Option<real>)>)
    ensures r.Ok? <==> Apply(pf, arg).Ok? && |Inputs(arg)| > 0
    ensures Apply(pf, arg).Err? ==> r.Err? && r.error == Apply(pf, arg).error
    ensures Apply(pf, arg).Ok? && |Inputs(arg)| == 0 ==> r.Err? && r.error == EmptyBatch
    ensures r.Ok? ==> IsLeftmostExtreme(Least, Apply(pf, arg).value, r.value.0)
    ensures r.Ok? ==> r.value.1 == Apply(pf, arg).value[r.value.0]
  {
    r := Extreme(Least, pf, arg);
  }

  method Max(pf: Piecewise, arg: Arg) returns (r: Result<(nat, Option<real>)>)
    ensures r.Ok? <==> Apply(pf, arg).Ok? && |Inputs(arg)| > 0
    ensures Apply(pf, arg).Err? ==> r.Err? && r.error == Apply(pf, arg).error
    ensures Apply(pf, arg).Ok? && |Inputs(arg)| == 0 ==> r.Err? && r.error == EmptyBatch
    ensures r.Ok? ==> IsLeftmostExtreme(Greatest, Apply(pf, arg).value, r.value.0)
    ensures r.Ok? ==> r.value.1 == Apply(pf, arg).value[r.value.0]
  {
    r := Extreme(Greatest, pf, arg);
  }
}
