/** Sets of reals built from half-lines, points and bounded intervals with
    union, intersection and complement: the stand-in for the `portion`
    intervals the compiler produces. A set is kept symbolically and means
    exactly the reals `Contains` accepts; infinite ends are never members.

    The package asks one question of these sets besides membership: whether
    an intersection is empty (`portion` intervals are falsy when empty).
    `IsEmpty` answers it by testing finitely many sample points, and
    `IsEmptyIff` proves the answer agrees with membership over all reals. */
module Intervals {

  datatype Bound = NegInf | PosInf | Fin(at: real, closed: bool)

  datatype Interval =
    | Empty
    | Atom(lower: Bound, upper: Bound)
    | Union(left: Interval, right: Interval)
    | Inter(left: Interval, right: Interval)
    | Compl(inner: Interval)

  /** `v` lies on the inner side of a lower bound. */
  predicate AboveLower(b: Bound, v: real) {
    match b
    case NegInf => true
    case PosInf => false
    case Fin(a, closed) => a < v || (closed && a == v)
  }

  /** `v` lies on the inner side of an upper bound. */
  predicate BelowUpper(b: Bound, v: real) {
    match b
    case NegInf => false
    case PosInf => true
    case Fin(a, closed) => v < a || (closed && a == v)
  }

  predicate Contains(i: Interval, v: real) {
    match i
    case Empty => false
    case Atom(lo, hi) => AboveLower(lo, v) && BelowUpper(hi, v)
    case Union(a, b) => Contains(a, v) || Contains(b, v)
    case Inter(a, b) => Contains(a, v) && Contains(b, v)
    case Compl(a) => !Contains(a, v)
  }

  /** The closed one-point interval `[c, c]`. */
  function Point(c: real): (i: Interval)
    ensures forall v :: Contains(i, v) <==> v == c
  {
    Atom(Fin(c, true), Fin(c, true))
  }

  /** The whole real line, `~empty`. */
  function Whole(): (i: Interval)
    ensures forall v :: Contains(i, v)
  {
    Compl(Empty)
  }

  /** `reduce(or_, s or [empty])`: the left-nested union of all sets. */
  function UnionAll(s: seq<Interval>): (u: Interval)
    ensures forall v :: Contains(u, v) <==> exists k :: 0 <= k < |s| && Contains(s[k], v)
  {
    if |s| == 0 then Empty
    else if |s| == 1 then s[0]
    else
      var front := UnionAll(s[..|s| - 1]);
      assert forall k :: 0 <= k < |s| - 1 ==> s[..|s| - 1][k] == s[k];
      Union(front, s[|s| - 1])
  }

  ghost predicate Disjoint(a: Interval, b: Interval) {
    forall v :: !(Contains(a, v) && Contains(b, v))
  }

  /* ---------- deciding emptiness ---------- */

  function BoundPoints(b: Bound): set<real> {
    if b.Fin? then {b.at} else {}
  }

  /** Every finite endpoint mentioned anywhere in the set. */
  function Endpoints(i: Interval): set<real> {
    match i
    case Empty => {}
    case Atom(lo, hi) => BoundPoints(lo) + BoundPoints(hi)
    case Union(a, b) => Endpoints(a) + Endpoints(b)
    case Inter(a, b) => Endpoints(a) + Endpoints(b)
    case Compl(a) => Endpoints(a)
  }

  /** One point in each cell of the line cut at the points of `E`: the
      points themselves, a point beyond each of them, and the midpoint of
      each pair. */
  function Samples(E: set<real>): set<real> {
    {0.0} + E
    + (set e | e in E :: e - 1.0)
    + (set e | e in E :: e + 1.0)
    + (set a, b | a in E && b in E :: (a + b) / 2.0)
  }

  /** Executable emptiness: no sample point is a member. */
  predicate IsEmpty(i: Interval) {
    forall s | s in Samples(Endpoints(i)) :: !Contains(i, s)
  }

  /** `portion`'s `a & b` is truthy. */
  predicate Overlaps(a: Interval, b: Interval) {
    !IsEmpty(Inter(a, b))
  }

  /** `v` and `w` sit on the same side of, or on, every point of `E`. */
  ghost predicate SameCell(E: set<real>, v: real, w: real) {
    forall e :: e in E ==> (v < e <==> w < e) && (v == e <==> w == e)
  }

  /** Membership cannot tell apart two reals in the same cell. */
  lemma {:induction false} SameCellSameMembership(i: Interval, v: real, w: real)
    requires SameCell(Endpoints(i), v, w)
    ensures Contains(i, v) <==> Contains(i, w)
  {
    match i
    case Empty =>
    case Atom(lo, hi) =>
      if lo.Fin? {
        assert lo.at in Endpoints(i);
      }
      if hi.Fin? {
        assert hi.at in Endpoints(i);
      }
    case Union(a, b) =>
      SameCellSameMembership(a, v, w);
      SameCellSameMembership(b, v, w);
    case Inter(a, b) =>
      SameCellSameMembership(a, v, w);
      SameCellSameMembership(b, v, w);
    case Compl(a) =>
      SameCellSameMembership(a, v, w);
  }

  lemma MaxOf(S: set<real>, x: real) returns (m: real)
    requires x in S
    ensures m in S && forall y :: y in S ==> y <= m
  {
    if forall y :: y in S ==> y <= x {
      m := x;
    } else {
      var y :| y in S && x < y;
      m := MaxOf(S - {x}, y);
      assert forall z :: z in S ==> z == x || z in S - {x};
    }
  }

  lemma MinOf(S: set<real>, x: real) returns (m: real)
    requires x in S
    ensures m in S && forall y :: y in S ==> m <= y
  {
    if forall y :: y in S ==> x <= y {
      m := x;
    } else {
      var y :| y in S && y < x;
      m := MinOf(S - {x}, y);
      assert forall z :: z in S ==> z == x || z in S - {x};
    }
  }

  /** Every real shares its cell with some sample point. */
  lemma SampleInCell(E: set<real>, v: real) returns (w: real)
    ensures w in Samples(E) && SameCell(E, v, w)
  {
    if v in E {
      w := v;
      return;
    }
    var below := set e | e in E && e < v;
    var above := set e | e in E && v < e;
    var hasBelow := exists e :: e in E && e < v;
    var hasAbove := exists e :: e in E && v < e;
    if !hasBelow && !hasAbove {
      assert forall e :: e !in E;
      w := 0.0;
    } else if !hasAbove {
      var e0 :| e0 in E && e0 < v;
      var a := MaxOf(below, e0);
      w := a + 1.0;
      assert w in (set e | e in E :: e + 1.0);
      assert forall e :: e in E ==> e in below;
    } else if !hasBelow {
      var e0 :| e0 in E && v < e0;
      var b := MinOf(above, e0);
      w := b - 1.0;
      assert w in (set e | e in E :: e - 1.0);
      assert forall e :: e in E ==> e in above;
    } else {
      var e0 :| e0 in E && e0 < v;
      var e1 :| e1 in E && v < e1;
      var a := MaxOf(below, e0);
      var b := MinOf(above, e1);
      w := (a + b) / 2.0;
      assert w in (set x, y | x in E && y in E :: (x + y) / 2.0);
      assert forall e :: e in E ==> e in below || e in above;
    }
  }

  /** The sample test decides emptiness over all reals. */
  lemma IsEmptyIff(i: Interval)
    ensures IsEmpty(i) <==> forall v :: !Contains(i, v)
  {
    if IsEmpty(i) {
      forall v
        ensures !Contains(i, v)
      {
        var w := SampleInCell(Endpoints(i), v);
        assert w in Samples(Endpoints(i));
        SameCellSameMembership(i, v, w);
        assert !Contains(i, w);
      }
    } else {
      // a sample point in the set is a real in it
      var s :| s in Samples(Endpoints(i)) && Contains(i, s);
      assert exists v :: Contains(i, v);
    }
  }

  /** A set with a member is not empty. */
  lemma MemberMeansNotEmpty(i: Interval, w: real)
    requires Contains(i, w)
    ensures !IsEmpty(i)
  {
    IsEmptyIff(i);
    if IsEmpty(i) {
      assert !Contains(i, w);
    }
  }

  /** A set without members is empty. */
  lemma NoMemberMeansEmpty(i: Interval)
    requires forall v :: !Contains(i, v)
    ensures IsEmpty(i)
  {
  }

  /** `a & b` is truthy exactly when the two sets share a real. */
  lemma OverlapsIff(a: Interval, b: Interval)
    ensures Overlaps(a, b) <==> !Disjoint(a, b)
  {
    IsEmptyIff(Inter(a, b));
    if Overlaps(a, b) {
      var v :| Contains(Inter(a, b), v);
      assert Contains(a, v) && Contains(b, v);
    } else {
      forall v
        ensures !(Contains(a, v) && Contains(b, v))
      {
        assert !Contains(Inter(a, b), v);
      }
    }
  }
}
