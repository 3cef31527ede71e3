// Curve and surface evaluation: homogeneous jets through the in-place de Boor
// scheme, then projection with the quotient rule.
module SplineEvaluate {
  import opened Results
  import opened Integers
  import opened DeBoor
  import opened SplineJet
  import opened SplineAxes

  // One value for each of the four homogeneous components x, y, z, weight.
  datatype Quad = Quad(x: real, y: real, z: real, weight: real) {
    function At(c: nat): real
      requires c < 4
    {
      if c == 0 then x else if c == 1 then y else if c == 2 then z else weight
    }
  }

  const ZERO := Quad(0.0, 0.0, 0.0, 0.0)

  datatype Jet = Jet(value: Quad, du: Quad, dv: Quad)

  datatype Direction = U | V

  function LerpQuad(a: Quad, b: Quad, t: real): Quad {
    Quad(Lerp(a.x, b.x, t), Lerp(a.y, b.y, t), Lerp(a.z, b.z, t), Lerp(a.weight, b.weight, t))
  }

  function AddSteps(slope: Quad, a: Quad, b: Quad, width: real): Quad
    requires width > 0.0
  {
    Quad(slope.x + Ratio(b.x - a.x, width), slope.y + Ratio(b.y - a.y, width),
         slope.z + Ratio(b.z - a.z, width), slope.weight + Ratio(b.weight - a.weight, width))
  }

  // The loop over components in Interpolate.
  function Blend(left: Jet, right: Jet, alpha: real, width: real, direction: Direction): Jet
    requires width > 0.0
  {
    var du := LerpQuad(left.du, right.du, alpha);
    var dv := LerpQuad(left.dv, right.dv, alpha);
    Jet(LerpQuad(left.value, right.value, alpha),
        if direction == U then AddSteps(du, left.value, right.value, width) else du,
        if direction == V then AddSteps(dv, left.value, right.value, width) else dv)
  }

  // Entry j after `level` levels of the recursion Interpolate overwrites.
  function JetEntry(p: nat, knots: seq<real>, row: seq<Jet>, t: real, direction: Direction, level: nat, j: nat): Jet
    requires Window(p, knots) && |row| == p + 1 && level <= j <= p
    decreases level
  {
    if level == 0 then row[j]
    else Blend(JetEntry(p, knots, row, t, direction, level - 1, j - 1),
               JetEntry(p, knots, row, t, direction, level - 1, j),
               Alpha(p, knots, level, j, t), Width(p, knots, level, j), direction)
  }

  // Descending updates in place; the result is the last entry of the row.
  method Interpolate(axis: AxisEvaluation, work: array<Jet>, direction: Direction) returns (r: Result<Jet>)
    requires Readable(axis) && work.Length == axis.degree + 1
    modifies work
    ensures Window(axis.degree, LocalKnots(axis)) ==>
      r == Ok(JetEntry(axis.degree, LocalKnots(axis), old(work[..]), axis.parameter, direction,
                       axis.degree, axis.degree))
    ensures !Window(axis.degree, LocalKnots(axis)) ==> r == Err(InvalidRecord)
  {
    hide Blend, JetEntry, RowAt, Ratio, WidthsChecked, Window;
    var p := axis.degree;
    ghost var knots, row, t := LocalKnots(axis), work[..], axis.parameter;
    RowStart(p, knots, row, t, direction);
    for level := 1 to p + 1
      invariant WidthsChecked(p, knots, level, p + 1)
      invariant Window(p, knots) ==> RowAt(p, knots, row, t, direction, work[..], level, p + 1)
    {
      for j := p + 1 downto level
        invariant WidthsChecked(p, knots, level, j)
        invariant Window(p, knots) ==> RowAt(p, knots, row, t, direction, work[..], level, j)
      {
        var i := axis.span - p + j;
        var low := axis.knots[i];
        var width := axis.knots[i + p + 1 - level] - low;
        assert low == knots[j] && axis.knots[i + p + 1 - level] == knots[j + p + 1 - level];
        WidthStep(p, knots, level, j);
        if width <= 0.0 {
          return Err(InvalidRecord);
        }
        var alpha := Ratio(axis.parameter - low, width);
        var left, right := work[j - 1], work[j];
        if Window(p, knots) {
          RowStep(p, knots, row, t, direction, work[..], level, j, alpha, width);
        }
        work[j] := Blend(left, right, alpha, width, direction);
      }
      LevelChecked(p, knots, row, t, direction, work[..], level);
    }
    AllChecked(p, knots, row, t, direction, work[..]);
    return Ok(work[p]);
  }

  // The widths of all earlier levels, and of this one from j == next on.
  ghost predicate WidthsChecked(p: nat, knots: seq<real>, level: nat, next: nat)
    requires |knots| == 2 * p + 1
  {
    forall i, j | 1 <= i <= p < j <= i + p && (i + p + 1 - j < level || (i + p + 1 - j == level && i >= next)) ::
      knots[i] < knots[j]
  }

  lemma WidthStep(p: nat, knots: seq<real>, level: nat, j: nat)
    requires |knots| == 2 * p + 1 && 1 <= level <= j <= p
    requires WidthsChecked(p, knots, level, j + 1)
    ensures knots[j] < knots[j + p + 1 - level] ==> WidthsChecked(p, knots, level, j)
    ensures knots[j] >= knots[j + p + 1 - level] ==> !Window(p, knots)
  {
  }

  lemma LevelChecked(p: nat, knots: seq<real>, row: seq<Jet>, t: real, direction: Direction,
                     work: seq<Jet>, level: nat)
    requires |knots| == 2 * p + 1 && |row| == p + 1 && 1 <= level <= p
    requires WidthsChecked(p, knots, level, level)
    requires Window(p, knots) ==> RowAt(p, knots, row, t, direction, work, level, level)
    ensures WidthsChecked(p, knots, level + 1, p + 1)
    ensures Window(p, knots) ==> RowAt(p, knots, row, t, direction, work, level + 1, p + 1)
  {
    hide JetEntry;
  }

  lemma AllChecked(p: nat, knots: seq<real>, row: seq<Jet>, t: real, direction: Direction, work: seq<Jet>)
    requires |knots| == 2 * p + 1 && |row| == p + 1 && 1 <= p
    requires WidthsChecked(p, knots, p + 1, p + 1)
    requires Window(p, knots) ==> RowAt(p, knots, row, t, direction, work, p + 1, p + 1)
    ensures Window(p, knots)
    ensures |work| == p + 1 && work[p] == JetEntry(p, knots, row, t, direction, p, p)
  {
    hide JetEntry;
  }

  // During level `level`, entries from `next` on are already overwritten.
  ghost predicate RowAt(p: nat, knots: seq<real>, row: seq<Jet>, t: real, direction: Direction,
                        work: seq<Jet>, level: nat, next: nat)
    requires Window(p, knots) && |row| == p + 1
  {
    && 1 <= level && |work| == p + 1
    && (forall k :: level - 1 <= k < next && k <= p ==>
          work[k] == JetEntry(p, knots, row, t, direction, level - 1, k))
    && (forall k :: level <= k <= p && next <= k ==>
          work[k] == JetEntry(p, knots, row, t, direction, level, k))
  }

  lemma RowStart(p: nat, knots: seq<real>, row: seq<Jet>, t: real, direction: Direction)
    requires |row| == p + 1 && |knots| == 2 * p + 1
    ensures WidthsChecked(p, knots, 1, p + 1)
    ensures Window(p, knots) ==> RowAt(p, knots, row, t, direction, row, 1, p + 1)
  {
  }

  lemma RowStep(p: nat, knots: seq<real>, row: seq<Jet>, t: real, direction: Direction,
                work: seq<Jet>, level: nat, j: nat, alpha: real, width: real)
    requires Window(p, knots) && |row| == p + 1 && 1 <= level <= j <= p
    requires RowAt(p, knots, row, t, direction, work, level, j + 1)
    requires width == knots[j + p + 1 - level] - knots[j] > 0.0 && alpha == Ratio(t - knots[j], width)
    ensures RowAt(p, knots, row, t, direction, work[j := Blend(work[j - 1], work[j], alpha, width, direction)], level, j)
  {
    assert alpha == Alpha(p, knots, level, j, t) && width == Width(p, knots, level, j);
    hide Blend, Alpha, Width;
    assert JetEntry(p, knots, row, t, direction, level, j) == Blend(work[j - 1], work[j], alpha, width, direction);
  }

  // ---------------------------------------------------------------- components

  function Values(row: seq<Jet>, c: nat): (r: seq<real>)
    requires c < 4
    ensures |r| == |row|
  {
    seq(|row|, k requires 0 <= k < |row| => row[k].value.At(c))
  }

  function Slots(row: seq<Jet>, direction: Direction, c: nat): (r: seq<real>)
    requires c < 4
    ensures |r| == |row|
  {
    seq(|row|, k requires 0 <= k < |row| => Slot(row[k], direction).At(c))
  }

  function Slot(jet: Jet, direction: Direction): Quad {
    if direction == U then jet.du else jet.dv
  }

  function Other(direction: Direction): Direction {
    if direction == U then V else U
  }

  // Component by component: the value slot runs de Boor's recursion, the slot
  // of the differentiated direction its derivative, the other slot is merely
  // interpolated.
  lemma {:induction false} JetEntryComponents(p: nat, knots: seq<real>, row: seq<Jet>, t: real, direction: Direction,
                                              level: nat, j: nat, c: nat)
    requires Window(p, knots) && |row| == p + 1 && level <= j <= p && c < 4
    ensures JetEntry(p, knots, row, t, direction, level, j).value.At(c)
         == ValueAt(p, knots, Values(row, c), t, level, j)
    ensures Slot(JetEntry(p, knots, row, t, direction, level, j), direction).At(c)
         == SlopeAt(p, knots, Values(row, c), Slots(row, direction, c), t, level, j)
    ensures Slot(JetEntry(p, knots, row, t, direction, level, j), Other(direction)).At(c)
         == ValueAt(p, knots, Slots(row, Other(direction), c), t, level, j)
    decreases level
  {
    hide Lerp, Alpha, Width, Ratio, Blend;
    if level > 0 {
      JetEntryComponents(p, knots, row, t, direction, level - 1, j - 1, c);
      JetEntryComponents(p, knots, row, t, direction, level - 1, j, c);
      ValueStep(p, knots, Values(row, c), t, level, j);
      ValueStep(p, knots, Slots(row, Other(direction), c), t, level, j);
      BlendComponents(JetEntry(p, knots, row, t, direction, level - 1, j - 1),
                      JetEntry(p, knots, row, t, direction, level - 1, j),
                      Alpha(p, knots, level, j, t), Width(p, knots, level, j), direction, c);
    }
  }

  lemma BlendComponents(left: Jet, right: Jet, alpha: real, width: real, direction: Direction, c: nat)
    requires width > 0.0 && c < 4
    ensures Blend(left, right, alpha, width, direction).value.At(c)
         == Lerp(left.value.At(c), right.value.At(c), alpha)
    ensures Slot(Blend(left, right, alpha, width, direction), direction).At(c)
         == Lerp(Slot(left, direction).At(c), Slot(right, direction).At(c), alpha)
            + Ratio(right.value.At(c) - left.value.At(c), width)
    ensures Slot(Blend(left, right, alpha, width, direction), Other(direction)).At(c)
         == Lerp(Slot(left, Other(direction)).At(c), Slot(right, Other(direction)).At(c), alpha)
  {
    hide Lerp, Ratio;
  }

  // ---------------------------------------------------------------- projection

  datatype Vector = Vector(x: real, y: real, z: real) {
    function At(c: nat): real
      requires c < 3
    {
      if c == 0 then x else if c == 1 then y else z
    }
  }

  datatype SurfaceEvaluation = SurfaceEvaluation(position: Vector, uDerivative: Vector, vDerivative: Vector)

  // point * weight == value, and the product rule for point * weight.
  predicate Projects(jet: Jet, point: real, du: real, dv: real, c: nat)
    requires c < 3
  {
    && point * jet.value.weight == jet.value.At(c)
    && du * jet.value.weight + point * jet.du.weight == jet.du.At(c)
    && dv * jet.value.weight + point * jet.dv.weight == jet.dv.At(c)
  }

  predicate InRange(x: real, limit: real) {
    -limit <= x <= limit
  }

  // limit is the largest finite double.
  method Project(jet: Jet, limit: real) returns (r: Result<SurfaceEvaluation>)
    requires limit > 0.0
    ensures r.Ok? ==> jet.value.weight > 0.0
    ensures r.Ok? ==> forall c :: 0 <= c < 3 ==>
      && Projects(jet, r.value.position.At(c), r.value.uDerivative.At(c), r.value.vDerivative.At(c), c)
      && InRange(r.value.position.At(c), limit)
      && InRange(r.value.uDerivative.At(c), limit)
      && InRange(r.value.vDerivative.At(c), limit)
    ensures r.Err? ==> r.error == InvalidRecord
    ensures r.Err? && jet.value.weight > 0.0 ==>
      exists c, point, du, dv :: 0 <= c < 3 && Projects(jet, point, du, dv, c)
        && !(InRange(point, limit) && InRange(du, limit) && InRange(dv, limit))
  {
    var weight := jet.value.weight;
    if weight <= 0.0 {
      return Err(InvalidRecord);
    }
    var position, du, dv := new real[3], new real[3], new real[3];
    for i := 0 to 3
      invariant forall c :: 0 <= c < i ==>
        && Projects(jet, position[c], du[c], dv[c], c)
        && InRange(position[c], limit) && InRange(du[c], limit) && InRange(dv[c], limit)
    {
      var point := jet.value.At(i) / weight;
      var uTangent := (jet.du.At(i) - point * jet.du.weight) / weight;
      var vTangent := (jet.dv.At(i) - point * jet.dv.weight) / weight;
      Quotients(jet, i, point, uTangent, vTangent);
      if !InRange(point, limit) || !InRange(uTangent, limit) || !InRange(vTangent, limit) {
        return Err(InvalidRecord);
      }
      position[i], du[i], dv[i] := point, uTangent, vTangent;
    }
    return Ok(SurfaceEvaluation(Vector(position[0], position[1], position[2]), Vector(du[0], du[1], du[2]),
                                Vector(dv[0], dv[1], dv[2])));
  }

  lemma Quotients(jet: Jet, c: nat, point: real, du: real, dv: real)
    requires c < 3 && jet.value.weight > 0.0
    requires point == jet.value.At(c) / jet.value.weight
    requires du == (jet.du.At(c) - point * jet.du.weight) / jet.value.weight
    requires dv == (jet.dv.At(c) - point * jet.dv.weight) / jet.value.weight
    ensures Projects(jet, point, du, dv, c)
  {
    QuotientTimes(jet.value.At(c), jet.value.weight);
    QuotientTimes(jet.du.At(c) - point * jet.du.weight, jet.value.weight);
    QuotientTimes(jet.dv.At(c) - point * jet.dv.weight, jet.value.weight);
  }

  lemma QuotientTimes(x: real, d: real)
    requires d > 0.0
    ensures x / d * d == x
  {
  }

  // ---------------------------------------------------------------- controls

  datatype SplineControlNet = SplineControlNet(dimension: nat, rational: bool, values: seq<real>)

  predicate DimensionAllowed(controls: SplineControlNet, surface: bool) {
    if surface then controls.dimension == (if controls.rational then 4 else 3)
    else if controls.rational then controls.dimension == 3 || controls.dimension == 4
    else controls.dimension == 2 || controls.dimension == 3
  }

  predicate ControlAllowed(controls: SplineControlNet, i: nat)
    requires i < |controls.values| && controls.dimension > 0
  {
    controls.rational && i % controls.dimension + 1 == controls.dimension ==> controls.values[i] > 0.0
  }

  predicate ValidControls(controls: SplineControlNet, count: nat, surface: bool) {
    && DimensionAllowed(controls, surface)
    && |controls.values| <= MAX_VALUES
    && count <= MAX_VALUES / controls.dimension
    && |controls.values| == count * controls.dimension
    && forall i :: 0 <= i < |controls.values| ==> ControlAllowed(controls, i)
  }

  method ValidateControls(controls: SplineControlNet, count: nat, surface: bool) returns (error: Option<ErrorCode>)
    ensures error.None? <==> ValidControls(controls, count, surface)
    ensures error.Some? ==> error.value == ResourceLimit || error.value == InvalidRecord
    ensures !DimensionAllowed(controls, surface) ==> error == Some(InvalidRecord)
    ensures DimensionAllowed(controls, surface) ==>
      (error == Some(ResourceLimit) <==>
       |controls.values| > MAX_VALUES || count > MAX_VALUES / controls.dimension)
  {
    var dimension := controls.dimension;
    if (surface && dimension != (if controls.rational then 4 else 3))
       || (!surface && controls.rational && dimension != 3 && dimension != 4)
       || (!surface && !controls.rational && dimension != 2 && dimension != 3) {
      return Some(InvalidRecord);
    }
    if |controls.values| > MAX_VALUES || count > MAX_VALUES / dimension {
      return Some(ResourceLimit);
    }
    if |controls.values| != count * dimension {
      return Some(InvalidRecord);
    }
    for i := 0 to |controls.values|
      invariant forall k :: 0 <= k < i ==> ControlAllowed(controls, k)
    {
      if controls.rational && i % dimension + 1 == dimension && controls.values[i] <= 0.0 {
        assert !ControlAllowed(controls, i);
        return Some(InvalidRecord);
      }
    }
    return None;
  }

  lemma NextMultiple(dimension: nat, count: nat, index: nat)
    requires index < count
    ensures 0 <= index * dimension && index * dimension + dimension <= count * dimension
  {
    var rest := count - index - 1;
    assert count * dimension == index * dimension + dimension + rest * dimension;
  }

  lemma ControlIndex(dimension: nat, count: nat, index: nat, k: nat)
    requires index < count && k < dimension
    ensures 0 <= index * dimension + k < count * dimension
    ensures (index * dimension + k) % dimension == k
  {
    NextMultiple(dimension, count, index);
    DivideMultiple(index, dimension, k);
  }

  // Homogeneous control `index`; an absent weight is one.
  function Control(controls: SplineControlNet, count: nat, surface: bool, index: nat): (jet: Jet)
    requires ValidControls(controls, count, surface) && index < count
    ensures jet.du == ZERO && jet.dv == ZERO && jet.value.weight > 0.0
  {
    var d := controls.dimension;
    var spatial := d - (if controls.rational then 1 else 0);
    ControlIndex(d, count, index, 0);
    ControlIndex(d, count, index, 1);
    ControlIndex(d, count, index, d - 1);
    ControlIndex(d, count, index, spatial - 1);
    var at := index * d;
    assert ControlAllowed(controls, at + d - 1);
    Jet(Quad(controls.values[at], controls.values[at + 1],
             if spatial == 3 then controls.values[at + 2] else 0.0,
             if controls.rational then controls.values[at + spatial] else 1.0), ZERO, ZERO)
  }

  // ---------------------------------------------------------------- curves

  datatype NurbsCurve = NurbsCurve(axis: SplineAxis, controls: SplineControlNet)

  predicate ValidCurve(curve: NurbsCurve) {
    ValidAxis(curve.axis) && ValidControls(curve.controls, curve.axis.controlCount, false)
  }

  datatype CurveEvaluation = CurveEvaluation(position: Vector, derivative: Vector)

  // The controls active on a span.
  function CurveRow(curve: NurbsCurve, span: nat): (row: seq<Jet>)
    requires ValidCurve(curve) && curve.axis.degree <= span < curve.axis.controlCount
    ensures |row| == curve.axis.degree + 1
    ensures forall j :: 0 <= j < |row| ==>
      row[j] == Control(curve.controls, curve.axis.controlCount, false, span - curve.axis.degree + j)
  {
    seq(curve.axis.degree + 1, j requires 0 <= j <= curve.axis.degree =>
      Control(curve.controls, curve.axis.controlCount, false, span - curve.axis.degree + j))
  }

  function HomogeneousValue(curve: NurbsCurve, e: AxisEvaluation, c: nat): real
    requires ValidCurve(curve) && ActiveSpan(curve.axis, e) && c < 4
  {
    ActiveSpanIsSpan(curve.axis, e);
    Value(e.degree, LocalKnots(e), Values(CurveRow(curve, e.span), c), e.parameter)
  }

  function HomogeneousSlope(curve: NurbsCurve, e: AxisEvaluation, c: nat): real
    requires ValidCurve(curve) && ActiveSpan(curve.axis, e) && c < 4
  {
    ActiveSpanIsSpan(curve.axis, e);
    Slope(e.degree, LocalKnots(e), Values(CurveRow(curve, e.span), c), e.parameter)
  }

  // x is the projected coordinate and dx its derivative: x * W == X and
  // (x * W)' == X' for the homogeneous spline (X, W).
  predicate CoordinateIs(curve: NurbsCurve, e: AxisEvaluation, c: nat, x: real, dx: real)
    requires ValidCurve(curve) && ActiveSpan(curve.axis, e) && c < 3
  {
    && x * HomogeneousValue(curve, e, 3) == HomogeneousValue(curve, e, c)
    && dx * HomogeneousValue(curve, e, 3) + x * HomogeneousSlope(curve, e, 3) == HomogeneousSlope(curve, e, c)
  }

  lemma WeightPositive(curve: NurbsCurve, e: AxisEvaluation)
    requires ValidCurve(curve) && ActiveSpan(curve.axis, e)
    ensures HomogeneousValue(curve, e, 3) > 0.0
  {
    ActiveSpanIsSpan(curve.axis, e);
    PositiveValue(e.degree, LocalKnots(e), Values(CurveRow(curve, e.span), 3), e.parameter);
  }

  // Every control of the span has its projected coordinate c in [low, high].
  predicate ControlsWithin(row: seq<Jet>, c: nat, low: real, high: real)
    requires c < 3
  {
    forall k :: 0 <= k < |row| ==>
      Excess(row[k].value.At(c), low, row[k].value.weight) >= 0.0 && Excess(row[k].value.At(c), high, row[k].value.weight) <= 0.0
  }

  lemma ValueInRange(p: nat, knots: seq<real>, t: real, row: seq<Jet>, c: nat, low: real, high: real)
    requires Span(p, knots, t) && |row| == p + 1 && c < 3 && ControlsWithin(row, c, low, high)
    ensures Excess(Value(p, knots, Values(row, c), t), low, Value(p, knots, Values(row, 3), t)) >= 0.0
    ensures Excess(Value(p, knots, Values(row, c), t), high, Value(p, knots, Values(row, 3), t)) <= 0.0
  {
    hide Excess, ValueAt, Entry;
    ValueIsEntry(p, knots, Values(row, c), t);
    ValueIsEntry(p, knots, Values(row, 3), t);
    WeightedWithin(p, knots, Values(row, c), Values(row, 3), t, p, p, low, high);
  }

  lemma ValueIsEntry(p: nat, knots: seq<real>, row: seq<real>, t: real)
    requires Window(p, knots) && |row| == p + 1
    ensures Value(p, knots, row, t) == ValueAt(p, knots, row, t, p, p)
  {
  }

  lemma WeightedPoint(curve: NurbsCurve, e: AxisEvaluation, c: nat, x: real, dx: real)
    requires ValidCurve(curve) && ActiveSpan(curve.axis, e) && c < 3 && CoordinateIs(curve, e, c, x, dx)
    ensures x * HomogeneousValue(curve, e, 3) == HomogeneousValue(curve, e, c)
  {
  }

  // The point stays inside the coordinate ranges of its controls.
  lemma PointInControlRange(curve: NurbsCurve, e: AxisEvaluation, c: nat, x: real, dx: real, low: real, high: real)
    requires ValidCurve(curve) && ActiveSpan(curve.axis, e) && c < 3 && CoordinateIs(curve, e, c, x, dx)
    requires ControlsWithin(CurveRow(curve, e.span), c, low, high)
    ensures low <= x <= high
  {
    hide Excess, Value, LocalKnots, CurveRow, Span, ControlsWithin, CoordinateIs, Values;
    ActiveSpanIsSpan(curve.axis, e);
    WeightPositive(curve, e);
    WeightedPoint(curve, e, c, x, dx);
    ValueInRange(e.degree, LocalKnots(e), e.parameter, CurveRow(curve, e.span), c, low, high);
    QuotientBetween(HomogeneousValue(curve, e, c), HomogeneousValue(curve, e, 3), x, low, high);
  }

  // A coordinate or derivative of the curve at the parameter is too large.
  ghost predicate CurveOverflows(curve: NurbsCurve, parameter: real, limit: real)
    requires ValidCurve(curve)
  {
    exists e, c, x, dx :: ActiveSpan(curve.axis, e) && e.parameter == parameter
      && CoordinateExceeds(curve, e, c, x, dx, limit)
  }

  predicate CoordinateExceeds(curve: NurbsCurve, e: AxisEvaluation, c: nat, x: real, dx: real, limit: real)
    requires ValidCurve(curve) && ActiveSpan(curve.axis, e)
  {
    c < 3 && CoordinateIs(curve, e, c, x, dx) && !(InRange(x, limit) && InRange(dx, limit))
  }

  // What one pass of Interpolate over controls with zero slopes leaves.
  lemma FreshRow(p: nat, knots: seq<real>, row: seq<Jet>, t: real, direction: Direction, c: nat)
    requires Window(p, knots) && |row| == p + 1 && c < 4
    requires forall j :: 0 <= j <= p ==> Slot(row[j], direction) == ZERO
    ensures JetEntry(p, knots, row, t, direction, p, p).value.At(c) == Value(p, knots, Values(row, c), t)
    ensures Slot(JetEntry(p, knots, row, t, direction, p, p), direction).At(c) == Slope(p, knots, Values(row, c), t)
    ensures Slot(JetEntry(p, knots, row, t, direction, p, p), Other(direction)).At(c)
         == Value(p, knots, Slots(row, Other(direction), c), t)
  {
    JetEntryComponents(p, knots, row, t, direction, p, p, c);
    assert Slots(row, direction, c) == Repeat(0.0, p + 1);
  }

  // Inside the domain of a valid curve the evaluation fails only on overflow.
  method EvaluateNurbsCurve(curve: NurbsCurve, parameter: real, limit: real) returns (r: Result<CurveEvaluation>)
    requires limit > 0.0
    ensures !ValidCurve(curve) ==> r == Err(ResourceLimit) || r == Err(InvalidRecord)
    ensures ValidCurve(curve) && DomainStart(curve.axis) < DomainEnd(curve.axis) ==>
      (DomainStart(curve.axis) <= parameter <= DomainEnd(curve.axis) <==> r != Err(InvalidOptions))
    ensures r.Ok? ==> ValidCurve(curve) && DomainStart(curve.axis) <= parameter <= DomainEnd(curve.axis)
    ensures r.Ok? ==> exists e ::
      && ActiveSpan(curve.axis, e) && e.parameter == parameter
      && forall c :: 0 <= c < 3 ==>
           CoordinateIs(curve, e, c, r.value.position.At(c), r.value.derivative.At(c))
    ensures r.Ok? ==> forall c :: 0 <= c < 3 ==>
      InRange(r.value.position.At(c), limit) && InRange(r.value.derivative.At(c), limit)
    ensures ValidCurve(curve) && DomainStart(curve.axis) < DomainEnd(curve.axis) ==>
      (r.Err? && r.error != InvalidOptions ==> CurveOverflows(curve, parameter, limit))
  {
    var invalid := ValidateAxis(curve.axis);
    if invalid.Some? {
      return Err(invalid.value);
    }
    invalid := ValidateControls(curve.controls, curve.axis.controlCount, false);
    if invalid.Some? {
      return Err(invalid.value);
    }
    var prepared := PrepareAxis(curve.axis, parameter);
    if prepared.Err? {
      return Err(prepared.error);
    }
    var e := prepared.value;
    ActiveSpanIsSpan(curve.axis, e);
    var work := new Jet[e.degree + 1](_ => Jet(ZERO, ZERO, ZERO));
    for j := 0 to e.degree + 1
      invariant forall k :: 0 <= k < j ==> work[k] == CurveRow(curve, e.span)[k]
    {
      work[j] := Control(curve.controls, curve.axis.controlCount, false, e.span - e.degree + j);
    }
    assert work[..] == CurveRow(curve, e.span);
    var jet := Interpolate(e, work, U);
    if jet.Err? {
      return Err(InvalidRecord);
    }
    var projected := Project(jet.value, limit);
    if projected.Err? {
      OverflowFound(curve, e, jet.value, limit);
      return Err(projected.error);
    }
    ProjectedCoordinates(curve, e, jet.value, projected.value);
    return Ok(CurveEvaluation(projected.value.position, projected.value.uDerivative));
  }

  lemma OverflowFound(curve: NurbsCurve, e: AxisEvaluation, jet: Jet, limit: real)
    requires limit > 0.0 && ValidCurve(curve) && ActiveSpan(curve.axis, e)
    requires Readable(e) && Window(e.degree, LocalKnots(e))
    requires jet == JetEntry(e.degree, LocalKnots(e), CurveRow(curve, e.span), e.parameter, U, e.degree, e.degree)
    requires jet.value.weight > 0.0 ==>
      exists c, point, du, dv :: 0 <= c < 3 && Projects(jet, point, du, dv, c)
        && !(InRange(point, limit) && InRange(du, limit) && InRange(dv, limit))
    ensures CurveOverflows(curve, e.parameter, limit)
  {
    hide JetEntry, Value, Slope, Values, Slots, CurveRow, LocalKnots, CoordinateIs, ActiveSpan, ValidCurve;
    WeightPositive(curve, e);
    JetWeight(curve, e, jet, 0);
    var c, point, du, dv :| 0 <= c < 3 && Projects(jet, point, du, dv, c)
      && !(InRange(point, limit) && InRange(du, limit) && InRange(dv, limit));
    ProjectedCoordinate(curve, e, jet, c, point, du, dv);
    JetWeight(curve, e, jet, c);
    NoSideTangent(jet.value.weight, dv);
    assert CoordinateExceeds(curve, e, c, point, du, limit);
  }

  lemma NoSideTangent(w: real, dv: real)
    ensures w > 0.0 && dv * w == 0.0 ==> dv == 0.0
  {
  }

  // The weight is the homogeneous weight, and nothing moves in the other
  // direction.
  lemma JetWeight(curve: NurbsCurve, e: AxisEvaluation, jet: Jet, c: nat)
    requires ValidCurve(curve) && ActiveSpan(curve.axis, e) && c < 4
    requires Readable(e) && Window(e.degree, LocalKnots(e))
    requires jet == JetEntry(e.degree, LocalKnots(e), CurveRow(curve, e.span), e.parameter, U, e.degree, e.degree)
    ensures jet.value.weight == HomogeneousValue(curve, e, 3)
    ensures jet.dv.At(c) == 0.0 && jet.dv.weight == 0.0
  {
    hide JetEntry, Value, Slope, Values, CurveRow, LocalKnots;
    var row := CurveRow(curve, e.span);
    FreshRow(e.degree, LocalKnots(e), row, e.parameter, U, 3);
    FreshRow(e.degree, LocalKnots(e), row, e.parameter, U, c);
    assert Slots(row, V, c) == Repeat(0.0, e.degree + 1);
    assert Slots(row, V, 3) == Repeat(0.0, e.degree + 1);
    ZeroRow(e.degree, LocalKnots(e), e.parameter);
  }

  lemma ProjectedCoordinates(curve: NurbsCurve, e: AxisEvaluation, jet: Jet, s: SurfaceEvaluation)
    requires ValidCurve(curve) && ActiveSpan(curve.axis, e)
    requires Readable(e) && Window(e.degree, LocalKnots(e))
    requires jet == JetEntry(e.degree, LocalKnots(e), CurveRow(curve, e.span), e.parameter, U, e.degree, e.degree)
    requires forall c :: 0 <= c < 3 ==> Projects(jet, s.position.At(c), s.uDerivative.At(c), s.vDerivative.At(c), c)
    ensures forall c :: 0 <= c < 3 ==> CoordinateIs(curve, e, c, s.position.At(c), s.uDerivative.At(c))
  {
    forall c | 0 <= c < 3
      ensures CoordinateIs(curve, e, c, s.position.At(c), s.uDerivative.At(c))
    {
      ProjectedCoordinate(curve, e, jet, c, s.position.At(c), s.uDerivative.At(c), s.vDerivative.At(c));
    }
  }

  lemma ProjectedCoordinate(curve: NurbsCurve, e: AxisEvaluation, jet: Jet, c: nat, x: real, du: real, dv: real)
    requires ValidCurve(curve) && ActiveSpan(curve.axis, e) && c < 3
    requires Readable(e) && Window(e.degree, LocalKnots(e))
    requires jet == JetEntry(e.degree, LocalKnots(e), CurveRow(curve, e.span), e.parameter, U, e.degree, e.degree)
    requires Projects(jet, x, du, dv, c)
    ensures CoordinateIs(curve, e, c, x, du)
  {
    hide JetEntry, Value, Slope, Values, CurveRow, LocalKnots;
    var row := CurveRow(curve, e.span);
    FreshRow(e.degree, LocalKnots(e), row, e.parameter, U, 3);
    FreshRow(e.degree, LocalKnots(e), row, e.parameter, U, c);
  }
}
