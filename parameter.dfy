/**
 * The domain of one tunable parameter (pygenetics/parameter.py): kind
 * inference from the bound types, sampling, and mutation with clamping and
 * retry-until-changed.
 */
module Parameters {
  import opened Wrappers
  import opened Values

  /** A Python object passed as a bound: an `int`, a `float`, or any other type. */
  datatype Bound = IntBound(i: int) | FloatBound(r: real) | OtherBound(typeName: string)

  /** Python's `type(x)` for a bound. */
  datatype PyType = IntType | FloatType | OtherType(name: string)

  function TypeOf(b: Bound): PyType {
    match b
    case IntBound(_) => IntType
    case FloatBound(_) => FloatType
    case OtherBound(name) => OtherType(name)
  }

  /** A numeric value seen as the Python object that holds it. */
  function ToBound(v: Value): Bound {
    match v
    case IntV(n) => IntBound(n)
    case RealV(x) => FloatBound(x)
  }

  /** The two ValueErrors the constructor raises. */
  datatype ParamError =
    | MismatchedBoundTypes   // `type(min_val) != type(max_val)`
    | UnsupportedBoundType   // the common type is neither int nor float

  /** A constructed parameter; `dtype` is the inferred kind. */
  datatype Parameter = Parameter(minVal: Value, maxVal: Value, dtype: Kind, restrict: bool) {

    /** Both bounds have the parameter's kind; every constructed parameter is valid. */
    predicate Valid() {
      minVal.KindOf() == dtype && maxVal.KindOf() == dtype
    }

    /** The bounds are in order (the constructor does not check this). */
    predicate Ordered() {
      minVal.Num() <= maxVal.Num()
    }

    /** `v` lies in `[min_val, max_val]`. */
    predicate Contains(v: Value) {
      minVal.Num() <= v.Num() <= maxVal.Num()
    }

    /** The kind/span test under which mutate accepts an unchanged value. */
    predicate SmallIntSpan() {
      dtype == IntKind && maxVal.Num() - minVal.Num() <= 2.0
    }
  }

  /** Parameter.__init__: type checks first, then the bounds are stored unchanged. */
  function NewParameter(minVal: Bound, maxVal: Bound, restrict: bool := true): (r: Result<Parameter, ParamError>)
    ensures TypeOf(minVal) != TypeOf(maxVal) ==> r == Failure(MismatchedBoundTypes)
    ensures TypeOf(minVal) == TypeOf(maxVal) && TypeOf(minVal).OtherType? ==> r == Failure(UnsupportedBoundType)
    ensures r.Success? <==> TypeOf(minVal) == TypeOf(maxVal) && !TypeOf(minVal).OtherType?
    ensures r.Success? ==> r.value.Valid() && r.value.restrict == restrict
    ensures r.Success? ==> ToBound(r.value.minVal) == minVal && ToBound(r.value.maxVal) == maxVal
    ensures r.Success? ==> (r.value.dtype == IntKind <==> TypeOf(minVal) == IntType)
  {
    if TypeOf(minVal) != TypeOf(maxVal) then Failure(MismatchedBoundTypes)
    else match (minVal, maxVal)
      case (IntBound(lo), IntBound(hi)) => Success(Parameter(IntV(lo), IntV(hi), IntKind, restrict))
      case (FloatBound(lo), FloatBound(hi)) => Success(Parameter(RealV(lo), RealV(hi), RealKind, restrict))
      case _ => Failure(UnsupportedBoundType)
  }

  /** Parameter.rand_val for the draw `u` of `uniform(0, 1)`. */
  function RandVal(p: Parameter, u: real): (v: Value)
    ensures v.KindOf() == p.dtype
  {
    Cast(p.dtype, p.minVal.Num() + u * (p.maxVal.Num() - p.minVal.Num()))
  }

  /** For a draw in [0,1] the sample lies in the bounds, truncation included. */
  lemma RandValWithinBounds(p: Parameter, u: real)
    requires p.Valid() && p.Ordered()
    requires 0.0 <= u <= 1.0
    ensures p.Contains(RandVal(p, u))
  {
    var lo, hi := p.minVal.Num(), p.maxVal.Num();
    var x := lo + u * (hi - lo);
    ScaledDrawWithin(u, hi - lo);
    assert lo <= x <= hi;
    assert RandVal(p, u) == Cast(p.dtype, x);
    match p.dtype
    case IntKind =>
      TruncBetween(x, p.minVal.i, p.maxVal.i);
      assert RandVal(p, u).Num() == Trunc(x) as real;
    case RealKind =>
      assert RandVal(p, u).Num() == x;
  }

  /**
   * For an int parameter with `0 <= min_val < max_val`, truncation means a
   * draw below 1 never samples `max_val`.
   */
  lemma RandValNeverMax(p: Parameter, u: real)
    requires p.Valid() && p.dtype == IntKind
    requires 0 <= p.minVal.i < p.maxVal.i
    requires 0.0 <= u < 1.0
    ensures RandVal(p, u) != p.maxVal
  {
    var lo, hi := p.minVal.i, p.maxVal.i;
    var x := lo as real + u * (hi - lo) as real;
    assert (hi as real) - x == (1.0 - u) * (hi - lo) as real;
    assert (1.0 - u) * (hi - lo) as real > 0.0;
    ScaledDrawWithin(u, (hi - lo) as real);
    assert 0.0 <= x < hi as real;
    assert RandVal(p, u) == IntV(Trunc(x));
  }

  /** A draw in [0,1] scales a non-negative span to at most itself. */
  lemma ScaledDrawWithin(u: real, span: real)
    requires 0.0 <= u <= 1.0 && 0.0 <= span
    ensures 0.0 <= u * span <= span
  {
    assert span - u * span == (1.0 - u) * span;
    assert (1.0 - u) * span >= 0.0;
  }

  /** The draws one mutation attempt consumes: `uniform(-1, 1)`, then rand_val's `uniform(0, 1)`. */
  datatype MutDraw = MutDraw(factor: real, pick: real)

  predicate ValidMutDraw(d: MutDraw) {
    -1.0 <= d.factor <= 1.0 && 0.0 <= d.pick < 1.0
  }

  /** The unclamped proposal `dtype(curr + u * (curr - rand_val))`. */
  function Proposal(p: Parameter, curr: Value, d: MutDraw): (v: Value)
    ensures v.KindOf() == p.dtype
  {
    Cast(p.dtype, curr.Num() + d.factor * (curr.Num() - RandVal(p, d.pick).Num()))
  }

  /** The clamp applied when `restrict` is set: above the maximum becomes it, else below the minimum becomes it. */
  function Clamp(p: Parameter, v: Value): (r: Value)
    ensures p.Valid() && v.KindOf() == p.dtype ==> r.KindOf() == p.dtype
    ensures p.Ordered() ==> p.Contains(r)
    ensures p.Contains(v) ==> r == v
    ensures r == v || r == p.minVal || r == p.maxVal
  {
    if v.Num() > p.maxVal.Num() then p.maxVal
    else if v.Num() < p.minVal.Num() then p.minVal
    else v
  }

  /** One mutation attempt: the proposal, clamped when the parameter is restricted. */
  function Step(p: Parameter, curr: Value, d: MutDraw): (r: Value)
    ensures p.Valid() ==> r.KindOf() == p.dtype
    ensures p.restrict && p.Ordered() ==> p.Contains(r)
    ensures !p.restrict ==> r == Proposal(p, curr, d)
    ensures p.restrict && p.Contains(Proposal(p, curr, d)) ==> r == Proposal(p, curr, d)
  {
    var proposal := Proposal(p, curr, d);
    if p.restrict then Clamp(p, proposal) else proposal
  }

  /** Whether mutate returns an attempt: it changed the value, or the parameter is a small int range. */
  predicate Accepts(p: Parameter, curr: Value, v: Value)
    ensures v.Num() != curr.Num() ==> Accepts(p, curr, v)
    ensures v.Num() == curr.Num() ==> (Accepts(p, curr, v) <==> p.dtype == IntKind && p.maxVal.Num() - p.minVal.Num() <= 2.0)
  {
    v.Num() != curr.Num() || p.SmallIntSpan()
  }

  /**
   * Parameter.mutate, whose recursion retries until an attempt is accepted.
   * `tries` holds the draws of the successive attempts; None means that no
   * attempt among them was accepted, so the source would still be retrying.
   */
  function Mutate(p: Parameter, curr: Value, tries: seq<MutDraw>): (r: Option<Value>)
    ensures r.Some? ==> Accepts(p, curr, r.value)
    ensures r.Some? && !p.SmallIntSpan() ==> r.value.Num() != curr.Num()
    ensures r.Some? && p.Valid() ==> r.value.KindOf() == p.dtype
    ensures r.Some? && p.restrict && p.Ordered() ==> p.Contains(r.value)
    decreases |tries|
  {
    if |tries| == 0 then None
    else
      var v := Step(p, curr, tries[0]);
      if Accepts(p, curr, v) then Some(v) else Mutate(p, curr, tries[1..])
  }

  /** Mutate returns the first accepted attempt. */
  lemma {:induction false} MutateReturnsFirstAccepted(p: Parameter, curr: Value, tries: seq<MutDraw>, k: nat)
    requires k < |tries|
    requires Accepts(p, curr, Step(p, curr, tries[k]))
    requires forall j :: 0 <= j < k ==> !Accepts(p, curr, Step(p, curr, tries[j]))
    ensures Mutate(p, curr, tries) == Some(Step(p, curr, tries[k]))
  {
    if k > 0 {
      assert !Accepts(p, curr, Step(p, curr, tries[0]));
      forall j | 0 <= j < k - 1
        ensures !Accepts(p, curr, Step(p, curr, tries[1..][j]))
      {
        assert tries[1..][j] == tries[j + 1];
      }
      MutateReturnsFirstAccepted(p, curr, tries[1..], k - 1);
    }
  }

  /** Mutate returns nothing exactly when no attempt is accepted. */
  lemma {:induction false} MutateNoneIffNoneAccepted(p: Parameter, curr: Value, tries: seq<MutDraw>)
    ensures Mutate(p, curr, tries).None? <==> forall j :: 0 <= j < |tries| ==> !Accepts(p, curr, Step(p, curr, tries[j]))
  {
    if |tries| > 0 {
      MutateNoneIffNoneAccepted(p, curr, tries[1..]);
      if Mutate(p, curr, tries).None? {
        forall j | 0 <= j < |tries|
          ensures !Accepts(p, curr, Step(p, curr, tries[j]))
        {
          if j > 0 { assert tries[j] == tries[1..][j - 1]; }
        }
      } else if forall j :: 0 <= j < |tries| ==> !Accepts(p, curr, Step(p, curr, tries[j])) {
        assert !Accepts(p, curr, Step(p, curr, tries[0]));
        forall j | 0 <= j < |tries| - 1
          ensures !Accepts(p, curr, Step(p, curr, tries[1..][j]))
        {
          assert tries[1..][j] == tries[j + 1];
        }
        assert false;
      }
    }
  }

  /**
   * A float parameter whose bounds coincide, restricted or not, has one value:
   * every random value is that value, so no attempt ever changes it and
   * mutate never returns.
   */
  lemma {:induction false} MutateStuckOnPoint(p: Parameter, curr: Value, tries: seq<MutDraw>)
    requires p.Valid() && p.dtype == RealKind
    requires p.minVal.Num() == p.maxVal.Num() == curr.Num()
    ensures Mutate(p, curr, tries) == None
  {
    if |tries| > 0 {
      assert RandVal(p, tries[0].pick).Num() == curr.Num();
      assert Proposal(p, curr, tries[0]).Num() == curr.Num();
      assert Step(p, curr, tries[0]).Num() == curr.Num();
      MutateStuckOnPoint(p, curr, tries[1..]);
    }
  }
}
