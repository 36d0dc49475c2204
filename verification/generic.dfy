/** The assembler (`PiecewiseGeneric.__init__`): a list of branch domains
    and a list of branch callbacks become a piecewise function. There must be
    at least one callback, and either one callback per domain or one extra
    callback for an implicit "otherwise" branch, whose domain is every real
    in none of the given domains. */
module Generic {
  import opened Outcomes
  import opened Intervals

  /** The stored branches: `intervals[k]` is the domain of `funcs[k]`. */
  datatype Piecewise = Piecewise(intervals: seq<Interval>, funcs: seq<Callback>)

  /** The domain of the "otherwise" branch, `~reduce(or_, given or [empty])`. */
  function Otherwise(given: seq<Interval>): (o: Interval)
    ensures forall v :: Contains(o, v) <==> forall k :: 0 <= k < |given| ==> !Contains(given[k], v)
  {
    Compl(UnionAll(given))
  }

  /** The callback count exceeds the domain count by nothing or by one. */
  predicate ArityOk(domains: nat, callbacks: nat) {
    domains <= callbacks <= domains + 1
  }

  function Assemble(given: seq<Interval>, funcs: seq<Callback>): (r: Result<Piecewise>)
    ensures |funcs| == 0 ==> r.Err? && r.error == EmptyCallbacks
    ensures |funcs| > 0 && !ArityOk(|given|, |funcs|) ==> r.Err? && r.error == ArityMismatch
    ensures r.Ok? <==> |funcs| > 0 && ArityOk(|given|, |funcs|)
    ensures r.Ok? ==> r.value.funcs == funcs
    ensures r.Ok? ==> |r.value.intervals| == |funcs|
    ensures r.Ok? ==> r.value.intervals[..|given|] == given
    ensures r.Ok? && |funcs| == |given| ==> r.value.intervals == given
    ensures r.Ok? && |funcs| == |given| + 1 ==>
      forall v :: Contains(r.value.intervals[|given|], v) <==> forall k :: 0 <= k < |given| ==> !Contains(given[k], v)
  {
    if |funcs| == 0 then Err(EmptyCallbacks)
    else if !ArityOk(|given|, |funcs|) then Err(ArityMismatch)
    else if |funcs| == |given| + 1 then Ok(Piecewise(given + [Otherwise(given)], funcs))
    else Ok(Piecewise(given, funcs))
  }

  /** The "otherwise" domain shares no real with a given domain, and every
      real lies in it or in a given domain. */
  lemma OtherwiseComplementsGiven(given: seq<Interval>)
    ensures forall k :: 0 <= k < |given| ==> Disjoint(Otherwise(given), given[k])
    ensures forall v :: Contains(Otherwise(given), v) || exists k :: 0 <= k < |given| && Contains(given[k], v)
  {
  }

  /** With no domain given, the single callback applies everywhere. */
  lemma OtherwiseAloneIsWhole(f: Callback)
    ensures Assemble([], [f]).Ok?
    ensures |Assemble([], [f]).value.intervals| == 1
    ensures forall v :: Contains(Assemble([], [f]).value.intervals[0], v)
  {
  }
}
