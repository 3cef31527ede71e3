// Knot vectors: validation, expansion, active span and parameter domain.
module SplineAxes {
  import opened Results
  import opened DeBoor
  import opened SplineJet

  const MAX_DEGREE := 64
  const MAX_VALUES := 1000000

  datatype SplineAxis = SplineAxis(
    degree: nat,
    controlCount: nat,
    periodic: bool,
    closed: bool,
    knots: seq<real>,
    multiplicities: seq<nat>)

  function Total(counts: seq<nat>): nat {
    if counts == [] then 0 else Total(counts[..|counts| - 1]) + counts[|counts| - 1]
  }

  predicate KnotAllowed(axis: SplineAxis, i: nat)
    requires i < |axis.knots| == |axis.multiplicities|
  {
    var count := axis.multiplicities[i];
    && (i > 0 ==> axis.knots[i - 1] < axis.knots[i])
    && 1 <= count <= axis.degree + 1
    && (0 < i < |axis.knots| - 1 ==> count <= axis.degree)
  }

  predicate WithinLimits(axis: SplineAxis) {
    && axis.degree <= MAX_DEGREE
    && |axis.knots| <= MAX_VALUES
    && |axis.multiplicities| <= MAX_VALUES
    && axis.controlCount + axis.degree + 1 <= MAX_VALUES
  }

  predicate ValidAxis(axis: SplineAxis) {
    && WithinLimits(axis)
    && 1 <= axis.degree < axis.controlCount
    && |axis.knots| == |axis.multiplicities| >= 2
    && (axis.periodic ==> axis.closed)
    && (forall i :: 0 <= i < |axis.knots| ==> KnotAllowed(axis, i))
    && Total(axis.multiplicities) == axis.controlCount + axis.degree + 1
  }

  method ValidateAxis(axis: SplineAxis) returns (error: Option<ErrorCode>)
    ensures error.None? <==> ValidAxis(axis)
    ensures error == Some(ResourceLimit) <==> !WithinLimits(axis)
    ensures error.Some? ==> error.value == ResourceLimit || error.value == InvalidRecord
  {
    if axis.degree > MAX_DEGREE || |axis.knots| > MAX_VALUES || |axis.multiplicities| > MAX_VALUES
       || axis.controlCount + axis.degree + 1 > MAX_VALUES {
      return Some(ResourceLimit);
    }
    if axis.degree == 0 || axis.degree >= axis.controlCount || |axis.knots| < 2
       || |axis.knots| != |axis.multiplicities| || (axis.periodic && !axis.closed) {
      return Some(InvalidRecord);
    }
    var expanded := 0;
    for i := 0 to |axis.knots|
      invariant forall k :: 0 <= k < i ==> KnotAllowed(axis, k)
      invariant expanded == Total(axis.multiplicities[..i])
    {
      var count := axis.multiplicities[i];
      if (i > 0 && axis.knots[i] <= axis.knots[i - 1]) || count == 0 || count > axis.degree + 1
         || (i > 0 && i + 1 < |axis.knots| && count > axis.degree) {
        assert !KnotAllowed(axis, i);
        return Some(InvalidRecord);
      }
      expanded := expanded + count;
      assert axis.multiplicities[..i + 1][..i] == axis.multiplicities[..i];
    }
    assert axis.multiplicities[..|axis.knots|] == axis.multiplicities;
    if expanded != axis.controlCount + axis.degree + 1 {
      return Some(InvalidRecord);
    }
    return None;
  }

  // ---------------------------------------------------------------- expansion

  // Every distinct knot repeated by its multiplicity.
  function Expand(knots: seq<real>, counts: seq<nat>): (r: seq<real>)
    requires |knots| == |counts|
    ensures |r| == Total(counts)
  {
    if knots == [] then []
    else
      var last := |knots| - 1;
      Expand(knots[..last], counts[..last]) + Repeat(knots[last], counts[last])
  }

  function FullKnots(axis: SplineAxis): (r: seq<real>)
    requires ValidAxis(axis)
    ensures |r| == axis.controlCount + axis.degree + 1
  {
    Expand(axis.knots, axis.multiplicities)
  }

  predicate Nondecreasing(s: seq<real>) {
    forall i, j :: 0 <= i <= j < |s| ==> s[i] <= s[j]
  }

  // Block i of the expansion is exactly the i-th knot.
  lemma {:induction false} ExpandBlocks(knots: seq<real>, counts: seq<nat>, i: nat, k: nat)
    requires i < |knots| == |counts|
    requires Total(counts[..i]) <= k < Total(counts[..i]) + counts[i]
    ensures k < |Expand(knots, counts)| && Expand(knots, counts)[k] == knots[i]
  {
    var last := |knots| - 1;
    if i == last {
      assert counts[..last] == counts[..i];
    } else {
      assert counts[..last][..i] == counts[..i];
      ExpandBlocks(knots[..last], counts[..last], i, k);
    }
  }

  lemma {:induction false} ExpandNondecreasing(knots: seq<real>, counts: seq<nat>)
    requires |knots| == |counts|
    requires forall i :: 0 < i < |knots| ==> knots[i - 1] < knots[i]
    ensures Nondecreasing(Expand(knots, counts))
    ensures forall k :: 0 <= k < |Expand(knots, counts)| ==> Expand(knots, counts)[k] <= knots[|knots| - 1]
  {
    if knots != [] {
      var last := |knots| - 1;
      ExpandNondecreasing(knots[..last], counts[..last]);
    }
  }

  lemma FullKnotsNondecreasing(axis: SplineAxis)
    requires ValidAxis(axis)
    ensures Nondecreasing(FullKnots(axis))
  {
    forall i | 0 < i < |axis.knots|
      ensures axis.knots[i - 1] < axis.knots[i]
    {
      assert KnotAllowed(axis, i);
    }
    ExpandNondecreasing(axis.knots, axis.multiplicities);
  }

  // ---------------------------------------------------------------- active span

  // Number of leading entries below x: std::lower_bound on a sorted vector.
  function LowerBound(s: seq<real>, x: real): (k: nat)
    requires Nondecreasing(s)
    ensures k <= |s|
    ensures forall i :: 0 <= i < k ==> s[i] < x
    ensures forall i :: k <= i < |s| ==> s[i] >= x
  {
    if s == [] || s[0] >= x then 0 else 1 + LowerBound(s[1..], x)
  }

  // Number of leading entries not above x: std::upper_bound.
  function UpperBound(s: seq<real>, x: real): (k: nat)
    requires Nondecreasing(s)
    ensures k <= |s|
    ensures forall i :: 0 <= i < k ==> s[i] <= x
    ensures forall i :: k <= i < |s| ==> s[i] > x
  {
    if s == [] || s[0] > x then 0 else 1 + UpperBound(s[1..], x)
  }

  datatype AxisEvaluation = AxisEvaluation(knots: seq<real>, degree: nat, span: nat, parameter: real)

  // What Interpolate reads: indices in range, nothing about the knot values.
  predicate Readable(axis: AxisEvaluation) {
    1 <= axis.degree <= axis.span && axis.span + axis.degree < |axis.knots|
  }

  function LocalKnots(axis: AxisEvaluation): (r: seq<real>)
    requires Readable(axis)
    ensures |r| == 2 * axis.degree + 1
  {
    axis.knots[axis.span - axis.degree..axis.span + axis.degree + 1]
  }

  function DomainStart(axis: SplineAxis): real
    requires ValidAxis(axis)
  {
    FullKnots(axis)[axis.degree]
  }

  function DomainEnd(axis: SplineAxis): real
    requires ValidAxis(axis)
  {
    FullKnots(axis)[axis.controlCount]
  }

  // The span contains the parameter; it is the one to the right of an interior
  // knot and the one to the left of the domain's end.
  predicate ActiveSpan(axis: SplineAxis, e: AxisEvaluation)
    requires ValidAxis(axis)
  {
    && e.knots == FullKnots(axis) && e.degree == axis.degree
    && axis.degree <= e.span < axis.controlCount
    && e.knots[e.span] <= e.parameter <= e.knots[e.span + 1]
    && e.knots[e.span] < e.knots[e.span + 1]
    && (e.parameter < DomainEnd(axis) ==> e.parameter < e.knots[e.span + 1])
  }

  method PrepareAxis(axis: SplineAxis, parameter: real) returns (r: Result<AxisEvaluation>)
    requires ValidAxis(axis)
    ensures r == Err(InvalidRecord) <==> DomainStart(axis) >= DomainEnd(axis)
    ensures r.Ok? <==> DomainStart(axis) <= parameter <= DomainEnd(axis) && DomainStart(axis) < DomainEnd(axis)
    ensures r.Err? ==> r.error == InvalidRecord || r.error == InvalidOptions
    ensures r.Ok? ==> ActiveSpan(axis, r.value) && r.value.parameter == parameter
  {
    var knots := [];
    for i := 0 to |axis.knots|
      invariant knots == Expand(axis.knots[..i], axis.multiplicities[..i])
    {
      knots := knots + Repeat(axis.knots[i], axis.multiplicities[i]);
      assert axis.knots[..i + 1][..i] == axis.knots[..i];
      assert axis.multiplicities[..i + 1][..i] == axis.multiplicities[..i];
    }
    assert axis.knots[..|axis.knots|] == axis.knots;
    assert axis.multiplicities[..|axis.knots|] == axis.multiplicities;
    FullKnotsNondecreasing(axis);
    var start, end := knots[axis.degree], knots[axis.controlCount];
    if !(start < end) {
      return Err(InvalidRecord);
    }
    if parameter < start || parameter > end {
      return Err(InvalidOptions);
    }
    var boundary := if parameter == end then LowerBound(knots, end) else UpperBound(knots, parameter);
    return Ok(AxisEvaluation(knots, axis.degree, boundary - 1, parameter));
  }

  // Every interpolation width is positive and every alpha lies in [0, 1].
  lemma ActiveSpanIsSpan(axis: SplineAxis, e: AxisEvaluation)
    requires ValidAxis(axis) && ActiveSpan(axis, e)
    ensures Readable(e) && Span(e.degree, LocalKnots(e), e.parameter)
  {
    FullKnotsNondecreasing(axis);
    var local := LocalKnots(e);
    assert forall i, j :: 0 <= i <= j < |local| ==> local[i] <= local[j];
  }

  // ---------------------------------------------------------------- domain

  // The knot whose block covers expanded index `index`.
  method KnotAt(axis: SplineAxis, index: nat) returns (knot: real)
    requires ValidAxis(axis) && index <= axis.controlCount
    ensures knot == FullKnots(axis)[index]
  {
    var end := 0;
    knot := 0.0;
    assert axis.multiplicities[..|axis.knots|] == axis.multiplicities;
    for i := 0 to |axis.knots|
      invariant end == Total(axis.multiplicities[..i]) <= index
    {
      end := end + axis.multiplicities[i];
      assert axis.multiplicities[..i + 1][..i] == axis.multiplicities[..i];
      if index < end {
        ExpandBlocks(axis.knots, axis.multiplicities, i, index);
        return axis.knots[i];
      }
    }
    assert false;
  }

  method AxisDomain(axis: SplineAxis) returns (r: Result<(real, real)>)
    requires ValidAxis(axis)
    ensures r == if DomainStart(axis) < DomainEnd(axis) then Ok((DomainStart(axis), DomainEnd(axis)))
                 else Err(InvalidRecord)
  {
    var low := KnotAt(axis, axis.degree);
    var high := KnotAt(axis, axis.controlCount);
    if low >= high {
      return Err(InvalidRecord);
    }
    return Ok((low, high));
  }
}
