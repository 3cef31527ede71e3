// CertifyMonotoneNurbsProjection: a certified curve moves strictly forward
// along the given direction at every parameter of its domain.
module MonotoneProjection {
  import opened Results
  import opened Reals
  import opened DeBoor
  import opened Polynomial
  import opened SplineJet
  import opened Bernstein
  import opened SplineAxes
  import opened SplineEvaluate
  import opened IntervalArithmetic
  import opened Rounding
  import opened Subdivision
  import opened Certificate

  // ---------------------------------------------------------------- linearity

  datatype Weights = Weights(x: real, y: real, z: real, w: real)

  // A fixed linear combination of four rows.
  function Combine(k: Weights, x: real, y: real, z: real, w: real): real {
    k.x * x + k.y * y + k.z * z + k.w * w
  }

  predicate IsCombination(k: Weights, row: seq<real>, x: seq<real>, y: seq<real>, z: seq<real>, w: seq<real>) {
    && |row| == |x| == |y| == |z| == |w|
    && forall i :: 0 <= i < |row| ==> row[i] == Combine(k, x[i], y[i], z[i], w[i])
  }

  lemma LerpCombine(k: Weights, x0: real, y0: real, z0: real, w0: real, x1: real, y1: real, z1: real, w1: real, t: real)
    ensures Lerp(Combine(k, x0, y0, z0, w0), Combine(k, x1, y1, z1, w1), t)
         == Combine(k, Lerp(x0, x1, t), Lerp(y0, y1, t), Lerp(z0, z1, t), Lerp(w0, w1, t))
  {
  }

  lemma RatioCombine(k: Weights, x0: real, y0: real, z0: real, w0: real, x1: real, y1: real, z1: real, w1: real, d: real)
    requires d > 0.0
    ensures Ratio(Combine(k, x1, y1, z1, w1) - Combine(k, x0, y0, z0, w0), d)
         == Combine(k, Ratio(x1 - x0, d), Ratio(y1 - y0, d), Ratio(z1 - z0, d), Ratio(w1 - w0, d))
  {
    var x, y, z, w := (x1 - x0) / d, (y1 - y0) / d, (z1 - z0) / d, (w1 - w0) / d;
    assert x * d == x1 - x0 && y * d == y1 - y0 && z * d == z1 - z0 && w * d == w1 - w0;
    CombineScaled(k, x, y, z, w, d);
    CombineDifference(k, x0, y0, z0, w0, x1, y1, z1, w1);
    hide Combine;
  }

  lemma CombineScaled(k: Weights, x: real, y: real, z: real, w: real, d: real)
    ensures Combine(k, x * d, y * d, z * d, w * d) == Combine(k, x, y, z, w) * d
  {
  }

  lemma CombineDifference(k: Weights, x0: real, y0: real, z0: real, w0: real, x1: real, y1: real, z1: real, w1: real)
    ensures Combine(k, x1, y1, z1, w1) - Combine(k, x0, y0, z0, w0) == Combine(k, x1 - x0, y1 - y0, z1 - z0, w1 - w0)
  {
  }

  lemma CombineSum(k: Weights, x0: real, y0: real, z0: real, w0: real, x1: real, y1: real, z1: real, w1: real)
    ensures Combine(k, x1, y1, z1, w1) + Combine(k, x0, y0, z0, w0) == Combine(k, x1 + x0, y1 + y0, z1 + z0, w1 + w0)
  {
  }

  // Values and derivatives depend linearly on the controls.
  lemma {:induction false} CombinedEntries(p: nat, knots: seq<real>, k: Weights, row: seq<real>, x: seq<real>,
                                           y: seq<real>, z: seq<real>, w: seq<real>, t: real, level: nat, j: nat)
    requires Window(p, knots) && |row| == p + 1 && IsCombination(k, row, x, y, z, w) && level <= j <= p
    ensures ValueAt(p, knots, row, t, level, j)
         == Combine(k, ValueAt(p, knots, x, t, level, j), ValueAt(p, knots, y, t, level, j),
                    ValueAt(p, knots, z, t, level, j), ValueAt(p, knots, w, t, level, j))
    decreases level
  {
    hide Lerp, Alpha, Combine;
    if level > 0 {
      CombinedEntries(p, knots, k, row, x, y, z, w, t, level - 1, j - 1);
      CombinedEntries(p, knots, k, row, x, y, z, w, t, level - 1, j);
      ValueStep(p, knots, row, t, level, j);
      ValueStep(p, knots, x, t, level, j);
      ValueStep(p, knots, y, t, level, j);
      ValueStep(p, knots, z, t, level, j);
      ValueStep(p, knots, w, t, level, j);
      LerpCombine(k, ValueAt(p, knots, x, t, level - 1, j - 1), ValueAt(p, knots, y, t, level - 1, j - 1),
                  ValueAt(p, knots, z, t, level - 1, j - 1), ValueAt(p, knots, w, t, level - 1, j - 1),
                  ValueAt(p, knots, x, t, level - 1, j), ValueAt(p, knots, y, t, level - 1, j),
                  ValueAt(p, knots, z, t, level - 1, j), ValueAt(p, knots, w, t, level - 1, j),
                  Alpha(p, knots, level, j, t));
    }
  }

  lemma {:induction false} CombinedSlopes(p: nat, knots: seq<real>, k: Weights, row: seq<real>, x: seq<real>,
                                          y: seq<real>, z: seq<real>, w: seq<real>, t: real, level: nat, j: nat)
    requires Window(p, knots) && |row| == p + 1 && IsCombination(k, row, x, y, z, w) && level <= j <= p
    ensures SlopeFrom(p, knots, row, t, level, j)
         == Combine(k, SlopeFrom(p, knots, x, t, level, j), SlopeFrom(p, knots, y, t, level, j),
                    SlopeFrom(p, knots, z, t, level, j), SlopeFrom(p, knots, w, t, level, j))
    decreases level
  {
    if level > 0 {
      CombinedSlopes(p, knots, k, row, x, y, z, w, t, level - 1, j - 1);
      CombinedSlopes(p, knots, k, row, x, y, z, w, t, level - 1, j);
      CombinedSlopeStep(p, knots, k, row, x, y, z, w, t, level, j);
    }
  }

  lemma CombinedSlopeStep(p: nat, knots: seq<real>, k: Weights, row: seq<real>, x: seq<real>,
                          y: seq<real>, z: seq<real>, w: seq<real>, t: real, level: nat, j: nat)
    requires Window(p, knots) && |row| == p + 1 && IsCombination(k, row, x, y, z, w) && 1 <= level <= j <= p
    requires forall i {:trigger SlopeFrom(p, knots, row, t, level - 1, i)} :: j - 1 <= i <= j ==>
      SlopeFrom(p, knots, row, t, level - 1, i)
      == Combine(k, SlopeFrom(p, knots, x, t, level - 1, i), SlopeFrom(p, knots, y, t, level - 1, i),
                 SlopeFrom(p, knots, z, t, level - 1, i), SlopeFrom(p, knots, w, t, level - 1, i))
    ensures SlopeFrom(p, knots, row, t, level, j)
         == Combine(k, SlopeFrom(p, knots, x, t, level, j), SlopeFrom(p, knots, y, t, level, j),
                    SlopeFrom(p, knots, z, t, level, j), SlopeFrom(p, knots, w, t, level, j))
  {
    hide Lerp, Alpha, Combine, Ratio, Width, SlopeFrom, ValueAt;
    var a, d := Alpha(p, knots, level, j, t), Width(p, knots, level, j);
    SlopeStep(p, knots, row, t, level, j);
    SlopeStep(p, knots, x, t, level, j);
    SlopeStep(p, knots, y, t, level, j);
    SlopeStep(p, knots, z, t, level, j);
    SlopeStep(p, knots, w, t, level, j);
    CombinedEntries(p, knots, k, row, x, y, z, w, t, level - 1, j - 1);
    CombinedEntries(p, knots, k, row, x, y, z, w, t, level - 1, j);
    var x0, y0 := ValueAt(p, knots, x, t, level - 1, j - 1), ValueAt(p, knots, y, t, level - 1, j - 1);
    var z0, w0 := ValueAt(p, knots, z, t, level - 1, j - 1), ValueAt(p, knots, w, t, level - 1, j - 1);
    var x1, y1 := ValueAt(p, knots, x, t, level - 1, j), ValueAt(p, knots, y, t, level - 1, j);
    var z1, w1 := ValueAt(p, knots, z, t, level - 1, j), ValueAt(p, knots, w, t, level - 1, j);
    RatioCombine(k, x0, y0, z0, w0, x1, y1, z1, w1, d);
    var sx0, sy0 := SlopeFrom(p, knots, x, t, level - 1, j - 1), SlopeFrom(p, knots, y, t, level - 1, j - 1);
    var sz0, sw0 := SlopeFrom(p, knots, z, t, level - 1, j - 1), SlopeFrom(p, knots, w, t, level - 1, j - 1);
    var sx1, sy1 := SlopeFrom(p, knots, x, t, level - 1, j), SlopeFrom(p, knots, y, t, level - 1, j);
    var sz1, sw1 := SlopeFrom(p, knots, z, t, level - 1, j), SlopeFrom(p, knots, w, t, level - 1, j);
    LerpCombine(k, sx0, sy0, sz0, sw0, sx1, sy1, sz1, sw1, a);
    CombineSum(k, Ratio(x1 - x0, d), Ratio(y1 - y0, d), Ratio(z1 - z0, d), Ratio(w1 - w0, d),
               Lerp(sx0, sx1, a), Lerp(sy0, sy1, a), Lerp(sz0, sz1, a), Lerp(sw0, sw1, a));
  }

  // ---------------------------------------------------------------- the claim

  function Dot(d: Vector, x: real, y: real, z: real): real {
    d.x * x + d.y * y + d.z * z
  }

  // (d . X)' W - (d . X) W' for the homogeneous curve (X, W).
  function ProjectedNumerator(curve: NurbsCurve, e: AxisEvaluation, d: Vector): real
    requires ValidCurve(curve) && ActiveSpan(curve.axis, e)
  {
    Det(Dot(d, HomogeneousSlope(curve, e, 0), HomogeneousSlope(curve, e, 1), HomogeneousSlope(curve, e, 2)),
        HomogeneousSlope(curve, e, 3),
        HomogeneousValue(curve, e, 3),
        Dot(d, HomogeneousValue(curve, e, 0), HomogeneousValue(curve, e, 1), HomogeneousValue(curve, e, 2)))
  }

  // The weight and the derivative numerator are strictly positive at e.
  predicate Rising(curve: NurbsCurve, e: AxisEvaluation, d: Vector)
    requires ValidCurve(curve) && ActiveSpan(curve.axis, e)
  {
    HomogeneousValue(curve, e, 3) > 0.0 && ProjectedNumerator(curve, e, d) > 0.0
  }

  // What Rising means for the evaluator's own output: the reported derivative
  // has a positive component along d.
  lemma RisingDerivative(curve: NurbsCurve, e: AxisEvaluation, d: Vector, position: Vector, derivative: Vector)
    requires ValidCurve(curve) && ActiveSpan(curve.axis, e) && Rising(curve, e, d)
    requires forall c :: 0 <= c < 3 ==> CoordinateIs(curve, e, c, position.At(c), derivative.At(c))
    ensures Dot(d, derivative.x, derivative.y, derivative.z) > 0.0
  {
    hide HomogeneousValue, HomogeneousSlope, Dot, Det, Times, CoordinateIs;
    var k := Times(HomogeneousValue(curve, e, 3), HomogeneousValue(curve, e, 3));
    TimesPositive(HomogeneousValue(curve, e, 3), HomogeneousValue(curve, e, 3));
    CoordinateTerm(curve, e, 0, position.At(0), derivative.At(0));
    CoordinateTerm(curve, e, 1, position.At(1), derivative.At(1));
    CoordinateTerm(curve, e, 2, position.At(2), derivative.At(2));
    DotOfDets(d, HomogeneousSlope(curve, e, 0), HomogeneousSlope(curve, e, 1), HomogeneousSlope(curve, e, 2),
              HomogeneousSlope(curve, e, 3), HomogeneousValue(curve, e, 3), HomogeneousValue(curve, e, 0),
              HomogeneousValue(curve, e, 1), HomogeneousValue(curve, e, 2));
    DotScaled(d, derivative.x, derivative.y, derivative.z, k);
    PositiveFactor(Dot(d, derivative.x, derivative.y, derivative.z), k);
  }

  lemma TimesPositive(x: real, y: real)
    requires x > 0.0 && y > 0.0
    ensures Times(x, y) > 0.0
  {
  }

  lemma CoordinateTerm(curve: NurbsCurve, e: AxisEvaluation, c: nat, p: real, dp: real)
    requires ValidCurve(curve) && ActiveSpan(curve.axis, e) && c < 3 && CoordinateIs(curve, e, c, p, dp)
    ensures Times(dp, Times(HomogeneousValue(curve, e, 3), HomogeneousValue(curve, e, 3)))
         == Det(HomogeneousSlope(curve, e, c), HomogeneousSlope(curve, e, 3),
                HomogeneousValue(curve, e, 3), HomogeneousValue(curve, e, c))
  {
    hide HomogeneousValue, HomogeneousSlope;
    QuotientTerm(p, dp, HomogeneousValue(curve, e, 3), HomogeneousSlope(curve, e, 3),
                 HomogeneousValue(curve, e, c), HomogeneousSlope(curve, e, c),
                 Times(HomogeneousValue(curve, e, 3), HomogeneousValue(curve, e, 3)));
  }

  lemma QuotientTerm(p: real, dp: real, w: real, dw: real, x: real, dx: real, k: real)
    requires p * w == x && dp * w + p * dw == dx && k == w * w
    ensures Times(dp, k) == Det(dx, dw, w, x)
  {
    assert dx * w == dp * w * w + p * dw * w;
    assert dw * x == dw * (p * w);
  }

  lemma DotOfDets(d: Vector, dx: real, dy: real, dz: real, dw: real, w: real, x: real, y: real, z: real)
    ensures Dot(d, Det(dx, dw, w, x), Det(dy, dw, w, y), Det(dz, dw, w, z))
         == Det(Dot(d, dx, dy, dz), dw, w, Dot(d, x, y, z))
  {
  }

  lemma DotScaled(d: Vector, x: real, y: real, z: real, k: real)
    ensures Dot(d, Times(x, k), Times(y, k), Times(z, k)) == Times(Dot(d, x, y, z), k)
  {
  }

  lemma PositiveFactor(x: real, k: real)
    requires k > 0.0 && Times(x, k) > 0.0
    ensures x > 0.0
  {
    if x <= 0.0 {
      ProductNonNegative(-x, k);
    }
  }

  // ---------------------------------------------------------------- one span

  // In span-local units the Bezier derivative is the spline's derivative
  // scaled by the span width.
  lemma PoleDerivative(p: nat, knots: seq<real>, row: seq<real>, low: real, high: real, s: real)
    requires Window(p, knots) && |row| == p + 1
    ensures Scale(p, Casteljau(Differences(BezierPoles(p, knots, row, low, high)), s))
         == Times(high - low, Slope(p, knots, row, Lerp(low, high, s)))
  {
    var poles := BezierPoles(p, knots, row, low, high);
    var f, g := x => Value(p, knots, row, x), x => Casteljau(poles, x);
    forall x
      ensures g(x) == f(Lerp(low, high, x))
    {
      ExtractionPreservesValue(p, knots, row, low, high, x);
    }
    SplineDerivative(p, knots, row, Lerp(low, high, s), f);
    DerivativeRescaled(f, g, low, high, s, Slope(p, knots, row, Lerp(low, high, s)),
                       Times(high - low, Slope(p, knots, row, Lerp(low, high, s))));
    CasteljauDerivative(poles, s);
    DerivativeUnique(x => Casteljau(poles, x), g, s, Scale(p, Casteljau(Differences(poles), s)),
                     Times(high - low, Slope(p, knots, row, Lerp(low, high, s))));
  }

  lemma SplineDerivative(p: nat, knots: seq<real>, row: seq<real>, t: real, f: real -> real)
    requires Window(p, knots) && |row| == p + 1 && forall x :: f(x) == Value(p, knots, row, x)
    ensures HasDerivative(f, t, Slope(p, knots, row, t))
  {
    var g := x => Value(p, knots, row, x);
    SlopeIsDerivative(p, knots, row, t);
    assert forall x :: f(x) == g(x);
    SameDerivative(g, f, t, Slope(p, knots, row, t));
  }

  lemma SameDerivative(f: real -> real, g: real -> real, t: real, d: real)
    requires (forall x :: f(x) == g(x)) && HasDerivative(f, t, d)
    ensures HasDerivative(g, t, d)
  {
    var q :| Expansion(f, t, d, q);
    assert Expansion(g, t, d, q);
  }

  lemma DetScaledSlopes(k: real, da: real, dw: real, w: real, a: real)
    ensures Det(Times(k, da), Times(k, dw), w, a) == Times(k, Det(da, dw, w, a))
  {
  }

  lemma PositiveOther(k: real, x: real)
    requires k > 0.0 && Times(k, x) > 0.0
    ensures x > 0.0
  {
  }

  // A positive Bernstein numerator on the extracted poles is a positive
  // numerator of the spline itself at every point of the span.
  lemma NumeratorOnSpan(p: nat, knots: seq<real>, a: seq<real>, w: seq<real>, low: real, high: real, t: real)
    requires 1 <= p <= CERTIFIED_DEGREE && Window(p, knots) && |a| == |w| == p + 1 && low <= t <= high && low < high
    requires Positive(NumeratorAfter(BezierPoles(p, knots, a, low, high), BezierPoles(p, knots, w, low, high),
                                     p, SIZE, p, 0)[..2 * p])
    ensures Det(Slope(p, knots, a, t), Slope(p, knots, w, t), Value(p, knots, w, t), Value(p, knots, a, t)) > 0.0
  {
    hide Det, Times, Lerp, Ratio, Casteljau, Scale, Value, Slope, Window, BezierPoles, NumeratorAfter, Differences;
    var s := Ratio(t - low, high - low);
    LocalParameter(low, high, t);
    var pa, pw := BezierPoles(p, knots, a, low, high), BezierPoles(p, knots, w, low, high);
    NumeratorIsCrossDerivative(pa, pw, p, SIZE, s);
    PoleDerivative(p, knots, a, low, high, s);
    PoleDerivative(p, knots, w, low, high, s);
    ExtractionPreservesValue(p, knots, a, low, high, s);
    ExtractionPreservesValue(p, knots, w, low, high, s);
    DetScaledSlopes(high - low, Slope(p, knots, a, t), Slope(p, knots, w, t), Value(p, knots, w, t), Value(p, knots, a, t));
    PositiveOther(high - low,
                  Det(Slope(p, knots, a, t), Slope(p, knots, w, t), Value(p, knots, w, t), Value(p, knots, a, t)));
  }

  lemma LocalParameter(low: real, high: real, t: real)
    requires low <= t <= high && low < high
    ensures 0.0 <= Ratio(t - low, high - low) <= 1.0
    ensures Lerp(low, high, Ratio(t - low, high - low)) == t
  {
    var w := high - low;
    var s := Ratio(t - low, w);
    assert s * w == t - low && (1.0 - s) * w == high - t;
    NonNegativeFactor(s, w);
    NonNegativeFactor(1.0 - s, w);
  }

  // The translated and normalized poles of one span.
  datatype Frame = Frame(scale: real, origin: Vector, direction: Vector)

  function LocalCoordinate(f: Frame, x: real, origin: real, weight: real, direction: real): real
    requires f.scale > 0.0
  {
    Times(Ratio(x - Times(origin, weight), f.scale), direction)
  }

  function LocalValue(f: Frame, control: Quad): real
    requires f.scale > 0.0
  {
    LocalCoordinate(f, control.x, f.origin.x, control.weight, f.direction.x)
    + LocalCoordinate(f, control.y, f.origin.y, control.weight, f.direction.y)
    + LocalCoordinate(f, control.z, f.origin.z, control.weight, f.direction.z)
  }

  function LocalWeight(f: Frame, control: Quad): real
    requires f.scale > 0.0
  {
    Ratio(control.weight, f.scale)
  }

  function LocalValues(f: Frame, row: seq<Jet>): (r: seq<real>)
    requires f.scale > 0.0
    ensures |r| == |row|
  {
    seq(|row|, i requires 0 <= i < |row| => LocalValue(f, row[i].value))
  }

  function LocalWeights(f: Frame, row: seq<Jet>): (r: seq<real>)
    requires f.scale > 0.0
    ensures |r| == |row|
  {
    seq(|row|, i requires 0 <= i < |row| => LocalWeight(f, row[i].value))
  }

  function ValueWeights(f: Frame): Weights
    requires f.scale > 0.0
  {
    var m, d, o := Ratio(1.0, f.scale), f.direction, f.origin;
    Weights(m * d.x, m * d.y, m * d.z, -(m * (o.x * d.x)) - m * (o.y * d.y) - m * (o.z * d.z))
  }

  function WeightWeights(f: Frame): Weights
    requires f.scale > 0.0
  {
    Weights(0.0, 0.0, 0.0, Ratio(1.0, f.scale))
  }

  lemma LocalIsCombination(f: Frame, q: Quad)
    requires f.scale > 0.0
    ensures LocalValue(f, q) == Combine(ValueWeights(f), q.x, q.y, q.z, q.weight)
    ensures LocalWeight(f, q) == Combine(WeightWeights(f), q.x, q.y, q.z, q.weight)
  {
    hide Ratio, LocalCoordinate;
    CoordinateIsLinear(f, q.x, f.origin.x, q.weight, f.direction.x);
    CoordinateIsLinear(f, q.y, f.origin.y, q.weight, f.direction.y);
    CoordinateIsLinear(f, q.z, f.origin.z, q.weight, f.direction.z);
    RatioAsProduct(q.weight, f.scale);
  }

  lemma RatioAsProduct(x: real, d: real)
    requires d > 0.0
    ensures Ratio(x, d) == Ratio(1.0, d) * x
  {
    QuotientAsProduct(x, d);
  }

  lemma CoordinateIsLinear(f: Frame, x: real, o: real, w: real, d: real)
    requires f.scale > 0.0
    ensures LocalCoordinate(f, x, o, w, d) == (Ratio(1.0, f.scale) * d) * x - (Ratio(1.0, f.scale) * (o * d)) * w
  {
    RatioAsProduct(x - Times(o, w), f.scale);
    LinearAlgebra(Ratio(1.0, f.scale), x, o, w, d);
    hide Ratio;
  }

  lemma LinearAlgebra(m: real, x: real, o: real, w: real, d: real)
    ensures (m * (x - o * w)) * d == (m * d) * x - (m * (o * d)) * w
  {
  }

  lemma CombineAsDot(f: Frame, x: real, y: real, z: real, w: real)
    requires f.scale > 0.0
    ensures Combine(ValueWeights(f), x, y, z, w)
         == Ratio(1.0, f.scale) * (Dot(f.direction, x, y, z) - Dot(f.direction, f.origin.x, f.origin.y, f.origin.z) * w)
    ensures Combine(WeightWeights(f), x, y, z, w) == Ratio(1.0, f.scale) * w
  {
    hide Ratio;
    var m := Ratio(1.0, f.scale);
    DotAlgebra(m, f.direction, f.origin, x, y, z, w);
  }

  lemma DotAlgebra(m: real, d: Vector, o: Vector, x: real, y: real, z: real, w: real)
    ensures (m * d.x) * x + (m * d.y) * y + (m * d.z) * z
            + (-(m * (o.x * d.x)) - m * (o.y * d.y) - m * (o.z * d.z)) * w
         == m * (Dot(d, x, y, z) - Dot(d, o.x, o.y, o.z) * w)
  {
  }

  // Any fixed origin and scale preserve the sign of the numerator.
  lemma OriginCancels(m: real, c: real, da: real, dw: real, w: real, a: real)
    requires m > 0.0
    requires Det(m * (da - c * dw), m * dw, m * w, m * (a - c * w)) > 0.0
    ensures Det(da, dw, w, a) > 0.0
  {
    assert Det(m * (da - c * dw), m * dw, m * w, m * (a - c * w)) == (m * m) * Det(da, dw, w, a) by {
      assert (m * (da - c * dw)) * (m * w) == (m * m) * (da * w - c * dw * w);
      assert (m * dw) * (m * (a - c * w)) == (m * m) * (dw * a - c * dw * w);
    }
    TimesPositive(m, m);
    hide Det;
    PositiveOther(Times(m, m), Det(da, dw, w, a));
  }

  lemma FramePositive(f: Frame, dx: real, dy: real, dz: real, dw: real, x: real, y: real, z: real, w: real)
    requires f.scale > 0.0
    requires Det(Combine(ValueWeights(f), dx, dy, dz, dw), Combine(WeightWeights(f), dx, dy, dz, dw),
                 Combine(WeightWeights(f), x, y, z, w), Combine(ValueWeights(f), x, y, z, w)) > 0.0
    ensures Det(Dot(f.direction, dx, dy, dz), dw, w, Dot(f.direction, x, y, z)) > 0.0
  {
    PositiveQuotient(1.0, f.scale);
    hide Ratio, Det, Dot, Combine, ValueWeights, WeightWeights;
    CombineAsDot(f, dx, dy, dz, dw);
    CombineAsDot(f, x, y, z, w);
    OriginCancels(Ratio(1.0, f.scale), Dot(f.direction, f.origin.x, f.origin.y, f.origin.z),
                  Dot(f.direction, dx, dy, dz), dw, w, Dot(f.direction, x, y, z));
  }

  lemma LocalRows(f: Frame, row: seq<Jet>)
    requires f.scale > 0.0
    ensures IsCombination(ValueWeights(f), LocalValues(f, row), Values(row, 0), Values(row, 1), Values(row, 2), Values(row, 3))
    ensures IsCombination(WeightWeights(f), LocalWeights(f, row), Values(row, 0), Values(row, 1), Values(row, 2), Values(row, 3))
  {
    hide Combine, ValueWeights, WeightWeights, LocalValue, LocalWeight;
    forall i | 0 <= i < |row|
      ensures LocalValues(f, row)[i]
           == Combine(ValueWeights(f), Values(row, 0)[i], Values(row, 1)[i], Values(row, 2)[i], Values(row, 3)[i])
      ensures LocalWeights(f, row)[i]
           == Combine(WeightWeights(f), Values(row, 0)[i], Values(row, 1)[i], Values(row, 2)[i], Values(row, 3)[i])
    {
      LocalIsCombination(f, row[i].value);
    }
  }

  // The numerator coefficients CertifyNumerator sees, for exact arithmetic.
  function SpanNumerator(curve: NurbsCurve, span: nat, f: Frame): (r: seq<real>)
    requires ValidCurve(curve) && curve.axis.degree <= span < curve.axis.controlCount && f.scale > 0.0
    requires curve.axis.degree <= CERTIFIED_DEGREE && span + curve.axis.degree < |FullKnots(curve.axis)|
    requires Window(curve.axis.degree, SpanKnots(curve, span))
    ensures |r| == 2 * curve.axis.degree
  {
    var p, row, knots := curve.axis.degree, CurveRow(curve, span), SpanKnots(curve, span);
    var low, high := FullKnots(curve.axis)[span], FullKnots(curve.axis)[span + 1];
    NumeratorAfter(BezierPoles(p, knots, LocalValues(f, row), low, high),
                   BezierPoles(p, knots, LocalWeights(f, row), low, high), p, SIZE, p, 0)[..2 * p]
  }

  function SpanKnots(curve: NurbsCurve, span: nat): (r: seq<real>)
    requires ValidCurve(curve) && curve.axis.degree <= span
    requires span + curve.axis.degree < |FullKnots(curve.axis)|
    ensures |r| == 2 * curve.axis.degree + 1
  {
    FullKnots(curve.axis)[span - curve.axis.degree..span + curve.axis.degree + 1]
  }

  lemma SpanRises(curve: NurbsCurve, e: AxisEvaluation, f: Frame)
    requires ValidCurve(curve) && ActiveSpan(curve.axis, e) && f.scale > 0.0 && curve.axis.degree <= CERTIFIED_DEGREE
    requires Window(curve.axis.degree, SpanKnots(curve, e.span))
    requires Positive(SpanNumerator(curve, e.span, f))
    ensures Rising(curve, e, f.direction)
  {
    hide Det, Combine, Dot, Value, Slope, Positive, NumeratorAfter, Window, BezierPoles, LocalValues, LocalWeights,
      Values, CurveRow, Rising;
    ActiveSpanIsSpan(curve.axis, e);
    var p, row, knots, t := e.degree, CurveRow(curve, e.span), LocalKnots(e), e.parameter;
    NumeratorOnSpan(p, knots, LocalValues(f, row), LocalWeights(f, row), e.knots[e.span], e.knots[e.span + 1], t);
    RowsRise(p, knots, f, row, t);
    RisingFromRow(curve, e, f.direction);
  }

  lemma RisingFromRow(curve: NurbsCurve, e: AxisEvaluation, d: Vector)
    requires ValidCurve(curve) && ActiveSpan(curve.axis, e) && Readable(e) && Window(e.degree, LocalKnots(e))
    requires var p, knots, row, t := e.degree, LocalKnots(e), CurveRow(curve, e.span), e.parameter;
      Det(Dot(d, Slope(p, knots, Values(row, 0), t), Slope(p, knots, Values(row, 1), t), Slope(p, knots, Values(row, 2), t)),
          Slope(p, knots, Values(row, 3), t),
          Value(p, knots, Values(row, 3), t),
          Dot(d, Value(p, knots, Values(row, 0), t), Value(p, knots, Values(row, 1), t),
              Value(p, knots, Values(row, 2), t))) > 0.0
    ensures Rising(curve, e, d)
  {
    WeightPositive(curve, e);
    hide Det, Dot, Value, Slope, Window, Values, CurveRow, ActiveSpan, ValidCurve;
  }

  lemma RowsRise(p: nat, knots: seq<real>, f: Frame, row: seq<Jet>, t: real)
    requires Window(p, knots) && |row| == p + 1 && f.scale > 0.0
    requires Det(Slope(p, knots, LocalValues(f, row), t), Slope(p, knots, LocalWeights(f, row), t),
                 Value(p, knots, LocalWeights(f, row), t), Value(p, knots, LocalValues(f, row), t)) > 0.0
    ensures Det(Dot(f.direction, Slope(p, knots, Values(row, 0), t), Slope(p, knots, Values(row, 1), t),
                    Slope(p, knots, Values(row, 2), t)),
                Slope(p, knots, Values(row, 3), t),
                Value(p, knots, Values(row, 3), t),
                Dot(f.direction, Value(p, knots, Values(row, 0), t), Value(p, knots, Values(row, 1), t),
                    Value(p, knots, Values(row, 2), t))) > 0.0
  {
    hide Det, Combine, Dot, ValueWeights, WeightWeights, Entry, SlopeAt, LocalValues, LocalWeights, Values, IsCombination;
    var x, y, z, w := Values(row, 0), Values(row, 1), Values(row, 2), Values(row, 3);
    LocalRows(f, row);
    CombinedEntries(p, knots, ValueWeights(f), LocalValues(f, row), x, y, z, w, t, p, p);
    CombinedEntries(p, knots, WeightWeights(f), LocalWeights(f, row), x, y, z, w, t, p, p);
    CombinedSlopes(p, knots, ValueWeights(f), LocalValues(f, row), x, y, z, w, t, p, p);
    CombinedSlopes(p, knots, WeightWeights(f), LocalWeights(f, row), x, y, z, w, t, p, p);
    FramePositive(f, Slope(p, knots, x, t), Slope(p, knots, y, t), Slope(p, knots, z, t), Slope(p, knots, w, t),
                  Value(p, knots, x, t), Value(p, knots, y, t), Value(p, knots, z, t), Value(p, knots, w, t));
  }

  // ---------------------------------------------------------------- local poles

  // Open clamped 3D curves, the only ones certified.
  predicate Certifiable(curve: NurbsCurve) {
    && ValidCurve(curve)
    && curve.controls.dimension == (if curve.controls.rational then 4 else 3)
    && !curve.axis.closed && !curve.axis.periodic
    && curve.axis.multiplicities[0] == curve.axis.degree + 1
    && curve.axis.multiplicities[|curve.axis.multiplicities| - 1] == curve.axis.degree + 1
  }

  function PoleAt(curve: NurbsCurve, span: nat, i: nat): nat
    requires curve.axis.degree <= span
  {
    curve.controls.dimension * (span - curve.axis.degree + i)
  }

  lemma ControlValues(curve: NurbsCurve, span: nat, i: nat)
    requires Certifiable(curve) && curve.axis.degree <= span < curve.axis.controlCount && i <= curve.axis.degree
    ensures var at := PoleAt(curve, span, i);
      && at + curve.controls.dimension <= |curve.controls.values|
      && CurveRow(curve, span)[i].value
         == Quad(curve.controls.values[at], curve.controls.values[at + 1], curve.controls.values[at + 2],
                 if curve.controls.rational then curve.controls.values[at + 3] else 1.0)
    ensures CurveRow(curve, span)[i].value.weight > 0.0
  {
    var dim, index := curve.controls.dimension, span - curve.axis.degree + i;
    ControlIndex(dim, curve.axis.controlCount, index, dim - 1);
    assert dim * index == index * dim;
  }

  function PoleCoordinate(ar: Arithmetic, x: real, origin: real, weight: real, scale: real, direction: real): Interval {
    Multiply(ar, Divide(ar, Subtract(ar, Exact(x), Multiply(ar, Exact(origin), Exact(weight))), Exact(scale)),
             Exact(direction))
  }

  lemma PoleCoordinateEnclosed(ar: Arithmetic, f: Frame, x: real, origin: real, weight: real, direction: real)
    requires ar.Outward() && f.scale > 0.0
    ensures PoleCoordinate(ar, x, origin, weight, f.scale, direction).Contains(LocalCoordinate(f, x, origin, weight, direction))
  {
    hide Multiply, Divide, Subtract, Times;
    MultiplyContains(ar, Exact(origin), Exact(weight), origin, weight);
    SubtractContains(ar, Exact(x), Multiply(ar, Exact(origin), Exact(weight)), x, Times(origin, weight));
    var translated := Subtract(ar, Exact(x), Multiply(ar, Exact(origin), Exact(weight)));
    DivideContains(ar, translated, Exact(f.scale), x - Times(origin, weight), f.scale);
    MultiplyContains(ar, Divide(ar, translated, Exact(f.scale)), Exact(direction),
                     Ratio(x - Times(origin, weight), f.scale), direction);
  }

  // One control, translated by the origin, normalized and projected.
  function LocalPole(ar: Arithmetic, f: Frame, q: Quad): Pole {
    Pole(
      Add(ar, Add(ar, Add(ar, Exact(0.0), PoleCoordinate(ar, q.x, f.origin.x, q.weight, f.scale, f.direction.x)),
                  PoleCoordinate(ar, q.y, f.origin.y, q.weight, f.scale, f.direction.y)),
          PoleCoordinate(ar, q.z, f.origin.z, q.weight, f.scale, f.direction.z)),
      Divide(ar, Exact(q.weight), Exact(f.scale)))
  }

  function LocalPoleRow(ar: Arithmetic, f: Frame, row: seq<Jet>): (r: seq<Pole>)
    ensures |r| == POLES
  {
    seq(POLES, i requires 0 <= i < POLES => if i < |row| then LocalPole(ar, f, row[i].value) else NO_POLE)
  }

  lemma LocalPolesEnclose(ar: Arithmetic, f: Frame, row: seq<Jet>)
    requires ar.Outward() && f.scale > 0.0 && |row| <= POLES
    ensures SpanEncloses(LocalPoleRow(ar, f, row), LocalValues(f, row), LocalWeights(f, row))
  {
    hide LocalPole, LocalValue, LocalWeight, Interval.Contains;
    forall i | 0 <= i < |row|
      ensures LocalPole(ar, f, row[i].value).value.Contains(LocalValue(f, row[i].value))
      ensures LocalPole(ar, f, row[i].value).weight.Contains(LocalWeight(f, row[i].value))
    {
      PoleEnclosed(ar, f, row[i].value);
    }
  }

  function MaxWeight(row: seq<Jet>): (r: real)
    ensures r >= 0.0
    ensures forall i :: 0 <= i < |row| ==> row[i].value.weight <= r
    ensures row != [] && row[0].value.weight > 0.0 ==> exists i :: 0 <= i < |row| && row[i].value.weight == r
  {
    if row == [] then 0.0 else Max(MaxWeight(row[..|row| - 1]), row[|row| - 1].value.weight)
  }

  // The largest weight of the span; one without weights.
  function ScaleOf(curve: NurbsCurve, span: nat): real
    requires ValidCurve(curve) && curve.axis.degree <= span < curve.axis.controlCount
  {
    if curve.controls.rational then MaxWeight(CurveRow(curve, span)) else 1.0
  }

  lemma ScalePositive(curve: NurbsCurve, span: nat)
    requires Certifiable(curve) && curve.axis.degree <= span < curve.axis.controlCount
    ensures ScaleOf(curve, span) > 0.0
  {
    hide MaxWeight;
    ControlValues(curve, span, 0);
  }

  // Translation by a fixed origin and normalization by the largest weight of
  // the span, all enclosed.
  method LocalPoles(ar: Arithmetic, curve: NurbsCurve, span: nat, origin: Vector, direction: Vector)
    returns (local: seq<Pole>)
    requires Certifiable(curve) && curve.axis.degree <= CERTIFIED_DEGREE
    requires curve.axis.degree <= span < curve.axis.controlCount
    ensures local == LocalPoleRow(ar, Frame(ScaleOf(curve, span), origin, direction), CurveRow(curve, span))
  {
    hide Add, PoleCoordinate, Divide, PoleAt, CurveRow, ValidCurve, ScaleOf;
    var values := curve.controls.values;
    var scale := LargestWeight(curve, span);
    ghost var f, row := Frame(scale, origin, direction), CurveRow(curve, span);
    local := seq(POLES, _ => NO_POLE);
    for i := 0 to curve.axis.degree + 1
      invariant |local| == POLES
      invariant forall k :: 0 <= k < i ==> local[k] == LocalPole(ar, f, row[k].value)
      invariant forall k :: i <= k < POLES ==> local[k] == NO_POLE
    {
      var at := PoleAt(curve, span, i);
      ControlValues(curve, span, i);
      var weight := if curve.controls.rational then values[at + 3] else 1.0;
      var value := Exact(0.0);
      value := Add(ar, value, PoleCoordinate(ar, values[at], origin.x, weight, scale, direction.x));
      value := Add(ar, value, PoleCoordinate(ar, values[at + 1], origin.y, weight, scale, direction.y));
      value := Add(ar, value, PoleCoordinate(ar, values[at + 2], origin.z, weight, scale, direction.z));
      local := local[i := Pole(value, Divide(ar, Exact(weight), Exact(scale)))];
    }
  }

  method LargestWeight(curve: NurbsCurve, span: nat) returns (scale: real)
    requires Certifiable(curve) && curve.axis.degree <= span < curve.axis.controlCount
    ensures scale == ScaleOf(curve, span)
  {
    hide PoleAt, CurveRow, ValidCurve;
    scale := 1.0;
    if curve.controls.rational {
      scale := 0.0;
      ghost var row := CurveRow(curve, span);
      for i := 0 to curve.axis.degree + 1
        invariant scale == MaxWeight(row[..i])
      {
        ControlValues(curve, span, i);
        scale := Max(scale, curve.controls.values[PoleAt(curve, span, i) + 3]);
        assert row[..i + 1][..i] == row[..i];
      }
      assert row[..curve.axis.degree + 1] == row;
    }
  }

  lemma PoleEnclosed(ar: Arithmetic, f: Frame, q: Quad)
    requires ar.Outward() && f.scale > 0.0
    ensures LocalPole(ar, f, q).value.Contains(LocalValue(f, q))
    ensures LocalPole(ar, f, q).weight.Contains(LocalWeight(f, q))
  {
    hide Add, PoleCoordinate, Divide, LocalCoordinate;
    var x := PoleCoordinate(ar, q.x, f.origin.x, q.weight, f.scale, f.direction.x);
    var y := PoleCoordinate(ar, q.y, f.origin.y, q.weight, f.scale, f.direction.y);
    var z := PoleCoordinate(ar, q.z, f.origin.z, q.weight, f.scale, f.direction.z);
    var cx := LocalCoordinate(f, q.x, f.origin.x, q.weight, f.direction.x);
    var cy := LocalCoordinate(f, q.y, f.origin.y, q.weight, f.direction.y);
    var cz := LocalCoordinate(f, q.z, f.origin.z, q.weight, f.direction.z);
    PoleCoordinateEnclosed(ar, f, q.x, f.origin.x, q.weight, f.direction.x);
    PoleCoordinateEnclosed(ar, f, q.y, f.origin.y, q.weight, f.direction.y);
    PoleCoordinateEnclosed(ar, f, q.z, f.origin.z, q.weight, f.direction.z);
    AddContains(ar, Exact(0.0), x, 0.0, cx);
    AddContains(ar, Add(ar, Exact(0.0), x), y, cx, cy);
    AddContains(ar, Add(ar, Add(ar, Exact(0.0), x), y), z, cx + cy, cz);
    DivideContains(ar, Exact(q.weight), Exact(f.scale), q.weight, f.scale);
  }

  // ---------------------------------------------------------------- all spans

  lemma {:induction false} TotalStep(counts: seq<nat>, i: nat)
    requires i < |counts|
    ensures Total(counts[..i + 1]) == Total(counts[..i]) + counts[i]
  {
    assert counts[..i + 1][..i] == counts[..i];
  }

  lemma {:induction false} TotalMonotone(counts: seq<nat>, i: nat, j: nat)
    requires i <= j <= |counts|
    ensures Total(counts[..i]) <= Total(counts[..j])
  {
    if i < j {
      TotalMonotone(counts, i, j - 1);
      TotalStep(counts, j - 1);
    }
  }

  // The last expanded index of distinct knot i.
  function SpanOf(axis: SplineAxis, i: nat): int
    requires i < |axis.multiplicities|
  {
    Total(axis.multiplicities[..i + 1]) - 1
  }

  // Inside the block of distinct knot i + 1 every span is empty.
  lemma NoSpanBetween(axis: SplineAxis, i: nat, k: nat)
    requires ValidAxis(axis) && i + 1 < |axis.knots|
    requires SpanOf(axis, i) < k < SpanOf(axis, i + 1)
    ensures k + 1 < |FullKnots(axis)| && FullKnots(axis)[k] == FullKnots(axis)[k + 1]
  {
    TotalStep(axis.multiplicities, i + 1);
    ExpandBlocks(axis.knots, axis.multiplicities, i + 1, k);
    ExpandBlocks(axis.knots, axis.multiplicities, i + 1, k + 1);
  }

  // Every nonempty span is SpanOf some distinct knot but the last.
  lemma SpanIsActive(axis: SplineAxis, i: nat)
    requires ValidAxis(axis) && i + 1 < |axis.knots|
    requires axis.multiplicities[0] == axis.degree + 1
    requires axis.multiplicities[|axis.multiplicities| - 1] == axis.degree + 1
    ensures axis.degree <= SpanOf(axis, i) < axis.controlCount
    ensures FullKnots(axis)[SpanOf(axis, i)] == axis.knots[i] < axis.knots[i + 1]
         == FullKnots(axis)[SpanOf(axis, i) + 1]
  {
    var counts, last := axis.multiplicities, |axis.multiplicities| - 1;
    assert KnotAllowed(axis, i) && KnotAllowed(axis, i + 1) && KnotAllowed(axis, last);
    TotalStep(counts, 0);
    TotalMonotone(counts, 1, i + 1);
    TotalMonotone(counts, i + 1, last);
    TotalStep(counts, last);
    assert counts[..|counts|] == counts;
    TotalStep(counts, i);
    TotalStep(counts, i + 1);
    SpanEnds(axis, i);
  }

  lemma SpanEnds(axis: SplineAxis, i: nat)
    requires ValidAxis(axis) && i + 1 < |axis.knots| && axis.multiplicities[i] > 0 && axis.multiplicities[i + 1] > 0
    ensures 0 <= SpanOf(axis, i) && SpanOf(axis, i) + 1 < |FullKnots(axis)|
    ensures FullKnots(axis)[SpanOf(axis, i)] == axis.knots[i]
    ensures FullKnots(axis)[SpanOf(axis, i) + 1] == axis.knots[i + 1]
  {
    var counts := axis.multiplicities;
    TotalStep(counts, i);
    TotalStep(counts, i + 1);
    ExpandBlocks(axis.knots, counts, i, SpanOf(axis, i));
    ExpandBlocks(axis.knots, counts, i + 1, SpanOf(axis, i) + 1);
  }

  lemma SpanWindow(curve: NurbsCurve, span: nat)
    requires ValidCurve(curve) && curve.axis.degree <= span < curve.axis.controlCount
    requires FullKnots(curve.axis)[span] < FullKnots(curve.axis)[span + 1]
    ensures Window(curve.axis.degree, SpanKnots(curve, span))
  {
    FullKnotsNondecreasing(curve.axis);
  }

  // All nonempty spans below `limit` rise.
  ghost predicate RisingBelow(curve: NurbsCurve, d: Vector, limit: int)
    requires ValidCurve(curve)
  {
    forall e :: ActiveSpan(curve.axis, e) && e.span < limit ==> Rising(curve, e, d)
  }

  const MAX_WORK := 1000000

  function WorkPerSpan(degree: nat): nat {
    32 * ((degree + 1) * degree * (degree + 1) / 2 + degree * (degree + 1))
  }

  // ---------------------------------------------------------------- the verdict on a span

  predicate WeightsPositive(poles: seq<Pole>, degree: nat) {
    degree < |poles| && forall i :: 0 <= i <= degree ==> PositiveInterval(poles[i].weight)
  }

  function SpanBezier(ar: Arithmetic, curve: NurbsCurve, span: nat, origin: Vector, direction: Vector): (r: seq<Pole>)
    requires Certifiable(curve) && curve.axis.degree <= CERTIFIED_DEGREE
    requires curve.axis.degree <= span < curve.axis.controlCount && span + curve.axis.degree < |FullKnots(curve.axis)|
    ensures |r| == POLES
  {
    SpanPoles(ar, LocalPoleRow(ar, Frame(ScaleOf(curve, span), origin, direction), CurveRow(curve, span)),
              curve.axis.degree, SpanKnots(curve, span), FullKnots(curve.axis)[span], FullKnots(curve.axis)[span + 1])
  }

  function SpanBox(ar: Arithmetic, curve: NurbsCurve, span: nat, origin: Vector, direction: Vector): (r: seq<Interval>)
    requires Certifiable(curve) && 1 <= curve.axis.degree <= CERTIFIED_DEGREE
    requires curve.axis.degree <= span < curve.axis.controlCount && span + curve.axis.degree < |FullKnots(curve.axis)|
    ensures |r| == SIZE
  {
    NumeratorBox(ar, SpanBezier(ar, curve, span, origin, direction), curve.axis.degree, curve.axis.degree, 0)
  }

  // Positive weights and a certified derivative numerator.
  function SpanVerdict(ar: Arithmetic, curve: NurbsCurve, span: nat, origin: Vector, direction: Vector): bool
    requires Certifiable(curve) && 1 <= curve.axis.degree <= CERTIFIED_DEGREE
    requires curve.axis.degree <= span < curve.axis.controlCount && span + curve.axis.degree < |FullKnots(curve.axis)|
  {
    && WeightsPositive(SpanBezier(ar, curve, span, origin, direction), curve.axis.degree)
    && Certified(ar, SpanBox(ar, curve, span, origin, direction), 2 * curve.axis.degree - 1, 0)
  }

  function SpanCost(ar: Arithmetic, curve: NurbsCurve, span: nat, origin: Vector, direction: Vector): nat
    requires Certifiable(curve) && 1 <= curve.axis.degree <= CERTIFIED_DEGREE
    requires curve.axis.degree <= span < curve.axis.controlCount && span + curve.axis.degree < |FullKnots(curve.axis)|
  {
    WorkPerSpan(curve.axis.degree) + Cost(ar, SpanBox(ar, curve, span, origin, direction), 2 * curve.axis.degree - 1, 0)
  }

  // A span that passes rises, for any outward rounding.
  lemma VerdictRises(ar: Arithmetic, curve: NurbsCurve, span: nat, origin: Vector, direction: Vector, e: AxisEvaluation)
    requires ar.Outward() && Certifiable(curve) && 1 <= curve.axis.degree <= CERTIFIED_DEGREE
    requires curve.axis.degree <= span < curve.axis.controlCount && span + curve.axis.degree < |FullKnots(curve.axis)|
    requires FullKnots(curve.axis)[span] < FullKnots(curve.axis)[span + 1]
    requires SpanVerdict(ar, curve, span, origin, direction) && ActiveSpan(curve.axis, e) && e.span == span
    ensures Rising(curve, e, direction)
  {
    hide Rising, Window, Positive, SpanNumerator, SpanEncloses, BezierPoles, NumeratorAfter, LocalValues,
      LocalWeights, ActiveSpan, SpanBox, Certified, WeightsPositive, ScaleOf;
    SpanWindow(curve, span);
    ScalePositive(curve, span);
    VerdictPositive(ar, curve, span, origin, direction);
    SpanRises(curve, e, Frame(ScaleOf(curve, span), origin, direction));
  }

  lemma VerdictPositive(ar: Arithmetic, curve: NurbsCurve, span: nat, origin: Vector, direction: Vector)
    requires ar.Outward() && Certifiable(curve) && 1 <= curve.axis.degree <= CERTIFIED_DEGREE
    requires curve.axis.degree <= span < curve.axis.controlCount && span + curve.axis.degree < |FullKnots(curve.axis)|
    requires Window(curve.axis.degree, SpanKnots(curve, span)) && ScaleOf(curve, span) > 0.0
    requires Certified(ar, SpanBox(ar, curve, span, origin, direction), 2 * curve.axis.degree - 1, 0)
    ensures Positive(SpanNumerator(curve, span, Frame(ScaleOf(curve, span), origin, direction)))
  {
    hide Window, Positive, SpanEncloses, Encloses, BezierPoles, NumeratorAfter, LocalValues, LocalWeights, Certified,
      ScaleOf, LocalPoleRow, SpanPoles, NumeratorBox, SpanKnots, CurveRow;
    var f, row, p := Frame(ScaleOf(curve, span), origin, direction), CurveRow(curve, span), curve.axis.degree;
    var low, high := FullKnots(curve.axis)[span], FullKnots(curve.axis)[span + 1];
    var a, w := LocalValues(f, row), LocalWeights(f, row);
    LocalPolesEnclose(ar, f, row);
    SpanPolesEnclose(ar, LocalPoleRow(ar, f, row), p, SpanKnots(curve, span), a, w, low, high);
    var pa, pw := BezierPoles(p, SpanKnots(curve, span), a, low, high), BezierPoles(p, SpanKnots(curve, span), w, low, high);
    NumeratorBoxEncloses(ar, SpanBezier(ar, curve, span, origin, direction), pa, pw, p, p, 0);
    var box := SpanBox(ar, curve, span, origin, direction);
    EnclosesPrefix(box, NumeratorAfter(pa, pw, p, SIZE, p, 0), 2 * p);
    CertifiedPositive(ar, box, NumeratorAfter(pa, pw, p, SIZE, p, 0)[..2 * p], 2 * p - 1, 0);
  }

  lemma EnclosesPrefix(box: seq<Interval>, c: seq<real>, n: nat)
    requires Encloses(box, c) && n <= |c|
    ensures Encloses(box, c[..n])
  {
    hide Interval.Contains;
  }

  // The loop body of CertifySpans.
  method CertifySpan(ar: Arithmetic, curve: NurbsCurve, knots: seq<real>, span: nat, origin: Vector,
                     direction: Vector, budget: nat)
    returns (r: Result<bool>, remaining: nat)
    requires ar.Outward() && Certifiable(curve) && 1 <= curve.axis.degree <= CERTIFIED_DEGREE
    requires knots == FullKnots(curve.axis) && curve.axis.degree <= span < curve.axis.controlCount
    requires span + curve.axis.degree < |FullKnots(curve.axis)|
    ensures r.Err? ==> r.error == ResourceLimit
    ensures r.Ok? ==> r.value == SpanVerdict(ar, curve, span, origin, direction)
    ensures budget >= SpanCost(ar, curve, span, origin, direction) ==> r.Ok?
    ensures r == Ok(true) ==> remaining == budget - SpanCost(ar, curve, span, origin, direction)
  {
    hide LocalPoleRow, SpanPoles, NumeratorBox, Certified, Cost, CurveRow, ScaleOf, Positive, Encloses, WorkPerSpan,
      PositiveInterval;
    var degree := curve.axis.degree;
    remaining := budget;
    var left := Spend(remaining, WorkPerSpan(degree));
    if left.None? {
      return Err(ResourceLimit), remaining;
    }
    remaining := left.value;
    var local := LocalPoles(ar, curve, span, origin, direction);
    var bezier := ExtractSpan(ar, local, degree, knots, span);
    for i := 0 to degree + 1
      invariant forall k :: 0 <= k < i ==> PositiveInterval(bezier[k].weight)
    {
      if !PositiveInterval(bezier[i].weight) {
        return Ok(false), remaining;
      }
    }
    var numerator := DerivativeNumerator(ar, bezier, degree);
    r, remaining := CertifyNumerator(ar, numerator, 2 * degree - 1, remaining);
  }

  // ---------------------------------------------------------------- the verdict on a curve

  // An exact constant near the first control point.
  function OriginOf(ar: Arithmetic, curve: NurbsCurve): Vector
    requires |curve.controls.values| >= 3
    requires curve.controls.rational ==> |curve.controls.values| >= 4 && curve.controls.values[3] > 0.0
  {
    var v, w := curve.controls.values, if curve.controls.rational then curve.controls.values[3] else 1.0;
    Vector(ar.nearest(v[0] / w), ar.nearest(v[1] / w), ar.nearest(v[2] / w))
  }

  // Every nonempty span below distinct knot n passes.
  ghost predicate SpansPass(ar: Arithmetic, curve: NurbsCurve, direction: Vector, n: nat)
    requires Certifiable(curve) && 1 <= curve.axis.degree <= CERTIFIED_DEGREE && n < |curve.axis.knots|
  {
    FirstPole(curve);
    forall i: nat :: i < n ==>
      SpanUsable(curve, i) && SpanVerdict(ar, curve, SpanOf(curve.axis, i), OriginOf(ar, curve), direction)
  }

  ghost predicate SpanUsable(curve: NurbsCurve, i: nat)
    requires Certifiable(curve) && i < |curve.axis.multiplicities|
  {
    curve.axis.degree <= SpanOf(curve.axis, i) < curve.axis.controlCount
    && SpanOf(curve.axis, i) + curve.axis.degree < |FullKnots(curve.axis)|
  }

  lemma SpanIsUsable(curve: NurbsCurve, i: nat)
    requires Certifiable(curve) && i + 1 < |curve.axis.knots|
    ensures SpanUsable(curve, i)
    ensures FullKnots(curve.axis)[SpanOf(curve.axis, i)] < FullKnots(curve.axis)[SpanOf(curve.axis, i) + 1]
  {
    SpanIsActive(curve.axis, i);
  }

  ghost function SpansCost(ar: Arithmetic, curve: NurbsCurve, direction: Vector, n: nat): nat
    requires Certifiable(curve) && 1 <= curve.axis.degree <= CERTIFIED_DEGREE && n < |curve.axis.knots|
  {
    FirstPole(curve);
    if n == 0 then 0
    else
      SpanIsUsable(curve, n - 1);
      SpansCost(ar, curve, direction, n - 1)
      + SpanCost(ar, curve, SpanOf(curve.axis, n - 1), OriginOf(ar, curve), direction)
  }

  ghost function TotalCost(ar: Arithmetic, curve: NurbsCurve, direction: Vector): nat
    requires Certifiable(curve) && 1 <= curve.axis.degree <= CERTIFIED_DEGREE
  {
    |curve.controls.values| + curve.axis.controlCount + curve.axis.degree + 1
    + SpansCost(ar, curve, direction, |curve.axis.knots| - 1)
  }

  ghost predicate CurvePasses(ar: Arithmetic, curve: NurbsCurve, direction: Vector)
    requires Certifiable(curve)
  {
    CertifiableDegree(curve);
    FirstPole(curve);
    var origin := OriginOf(ar, curve);
    && curve.axis.degree <= CERTIFIED_DEGREE
    && ar.fits(origin.x) && ar.fits(origin.y) && ar.fits(origin.z)
    && SpansPass(ar, curve, direction, |curve.axis.knots| - 1)
  }

  // The verdict is that of all nonempty spans; the work limit only decides
  // whether there is one.
  method CertifySpans(ar: Arithmetic, curve: NurbsCurve, direction: Vector) returns (r: Result<bool>)
    requires ar.Outward() && Certifiable(curve)
    ensures r.Err? ==> r.error == ResourceLimit
    ensures r.Ok? ==> r.value == CurvePasses(ar, curve, direction)
    ensures 1 <= curve.axis.degree <= CERTIFIED_DEGREE && TotalCost(ar, curve, direction) <= MAX_WORK ==> r.Ok?
    ensures curve.axis.degree > CERTIFIED_DEGREE ==> r == Ok(false)
  {
    CertifiableDegree(curve);
    hide ValidCurve, ValidAxis, WorkPerSpan, SpanVerdict, SpanCost, SpansPass, SpansCost, OriginOf, TotalCost, FullKnots,
      CurvePasses;
    var degree := curve.axis.degree;
    if degree > CERTIFIED_DEGREE {
      FirstPole(curve);
      PassParts(ar, curve, direction);
      return Ok(false);
    }
    var spans := |curve.axis.knots| - 1;
    PerSpanPositive(degree);
    var expandedSize := curve.axis.controlCount + degree + 1;
    CostParts(ar, curve, direction);
    if spans > MAX_WORK / WorkPerSpan(degree) {
      return Err(ResourceLimit);
    }
    var left := Spend(MAX_WORK, |curve.controls.values| + expandedSize);
    if left.None? {
      return Err(ResourceLimit);
    }
    var remaining := left.value;
    var knots := ExpandAxis(curve.axis);
    FirstPole(curve);
    var origin := ComputeOrigin(ar, curve);
    PassParts(ar, curve, direction);
    if !ar.fits(origin.x) || !ar.fits(origin.y) || !ar.fits(origin.z) {
      return Ok(false);
    }
    r := CertifyEach(ar, curve, knots, origin, direction, remaining);
  }

  lemma CostParts(ar: Arithmetic, curve: NurbsCurve, direction: Vector)
    requires Certifiable(curve) && 1 <= curve.axis.degree <= CERTIFIED_DEGREE
    requires |curve.axis.knots| >= 2 && WorkPerSpan(curve.axis.degree) > 0
    ensures TotalCost(ar, curve, direction)
      == |curve.controls.values| + curve.axis.controlCount + curve.axis.degree + 1
         + SpansCost(ar, curve, direction, |curve.axis.knots| - 1)
    ensures |curve.axis.knots| - 1 > MAX_WORK / WorkPerSpan(curve.axis.degree) ==>
      TotalCost(ar, curve, direction) > MAX_WORK
  {
    hide SpansCost, WorkPerSpan;
    var spans := |curve.axis.knots| - 1;
    SpansCostAtLeast(ar, curve, direction, spans);
    if spans > MAX_WORK / WorkPerSpan(curve.axis.degree) {
      TooManySpans(spans, WorkPerSpan(curve.axis.degree));
    }
  }

  lemma PassParts(ar: Arithmetic, curve: NurbsCurve, direction: Vector)
    requires Certifiable(curve) && |curve.controls.values| >= 3 && 1 <= curve.axis.degree && |curve.axis.knots| >= 2
    requires curve.controls.rational ==> |curve.controls.values| >= 4 && curve.controls.values[3] > 0.0
    ensures var origin := OriginOf(ar, curve);
      CurvePasses(ar, curve, direction) <==>
        && curve.axis.degree <= CERTIFIED_DEGREE
        && ar.fits(origin.x) && ar.fits(origin.y) && ar.fits(origin.z)
        && SpansPass(ar, curve, direction, |curve.axis.knots| - 1)
  {
    hide SpansPass, OriginOf;
  }

  // All nonempty spans in order, until one fails.
  method CertifyEach(ar: Arithmetic, curve: NurbsCurve, knots: seq<real>, origin: Vector, direction: Vector, budget: nat)
    returns (r: Result<bool>)
    requires ar.Outward() && Certifiable(curve) && 1 <= curve.axis.degree <= CERTIFIED_DEGREE
    requires ValidAxis(curve.axis) && knots == FullKnots(curve.axis)
    requires |curve.axis.knots| == |curve.axis.multiplicities| >= 2
    requires |curve.controls.values| >= 3
    requires curve.controls.rational ==> |curve.controls.values| >= 4 && curve.controls.values[3] > 0.0
    requires origin == OriginOf(ar, curve)
    ensures r.Err? ==> r.error == ResourceLimit
    ensures r.Ok? ==> r.value == SpansPass(ar, curve, direction, |curve.axis.knots| - 1)
    ensures budget >= SpansCost(ar, curve, direction, |curve.axis.knots| - 1) ==> r.Ok?
  {
    hide ValidCurve, ValidAxis, SpanVerdict, SpanCost, SpansPass, SpansCost, OriginOf, FullKnots, SpanOf, Total;
    var spans := |curve.axis.knots| - 1;
    var span := curve.axis.degree;
    var remaining: nat := budget;
    FirstSpan(curve);
    NoSpansYet(ar, curve, direction);
    for index := 0 to spans
      invariant span == SpanOf(curve.axis, index)
      invariant SpansPass(ar, curve, direction, index)
      invariant remaining + SpansCost(ar, curve, direction, index) == budget
    {
      SpanIsUsable(curve, index);
      NextVerdict(ar, curve, direction, index);
      SpansCostGrows(ar, curve, direction, index + 1, spans);
      var certified;
      certified, remaining := CertifySpan(ar, curve, knots, span, origin, direction, remaining);
      if certified.Err? {
        return certified;
      }
      if !certified.value {
        OneSpanFails(ar, curve, direction, index + 1, spans);
        return certified;
      }
      NextStart(curve.axis, index);
      span := span + curve.axis.multiplicities[index + 1];
    }
    return Ok(true);
  }

  lemma NextStart(axis: SplineAxis, index: nat)
    requires index + 1 < |axis.multiplicities|
    ensures SpanOf(axis, index + 1) == SpanOf(axis, index) + axis.multiplicities[index + 1]
  {
    TotalStep(axis.multiplicities, index + 1);
  }

  method ComputeOrigin(ar: Arithmetic, curve: NurbsCurve) returns (origin: Vector)
    requires |curve.controls.values| >= 3
    requires curve.controls.rational ==> |curve.controls.values| >= 4 && curve.controls.values[3] > 0.0
    ensures origin == OriginOf(ar, curve)
  {
    var values := curve.controls.values;
    var firstWeight := if curve.controls.rational then values[3] else 1.0;
    origin := Vector(ar.nearest(values[0] / firstWeight), ar.nearest(values[1] / firstWeight),
                     ar.nearest(values[2] / firstWeight));
  }

  lemma NoSpansYet(ar: Arithmetic, curve: NurbsCurve, direction: Vector)
    requires Certifiable(curve) && 1 <= curve.axis.degree <= CERTIFIED_DEGREE && |curve.axis.knots| >= 1
    ensures SpansPass(ar, curve, direction, 0) && SpansCost(ar, curve, direction, 0) == 0
  {
  }

  lemma NextVerdict(ar: Arithmetic, curve: NurbsCurve, direction: Vector, i: nat)
    requires Certifiable(curve) && 1 <= curve.axis.degree <= CERTIFIED_DEGREE && i + 1 < |curve.axis.knots|
    requires SpanUsable(curve, i) && curve.controls.dimension >= 3
    requires |curve.controls.values| >= 3
    requires curve.controls.rational ==> |curve.controls.values| >= 4 && curve.controls.values[3] > 0.0
    ensures SpansPass(ar, curve, direction, i + 1) <==>
      SpansPass(ar, curve, direction, i)
      && SpanVerdict(ar, curve, SpanOf(curve.axis, i), OriginOf(ar, curve), direction)
    ensures SpansCost(ar, curve, direction, i + 1)
      == SpansCost(ar, curve, direction, i)
         + SpanCost(ar, curve, SpanOf(curve.axis, i), OriginOf(ar, curve), direction)
  {
    hide SpanVerdict, SpanCost, OriginOf;
  }

  lemma {:induction false} OneSpanFails(ar: Arithmetic, curve: NurbsCurve, direction: Vector, i: nat, n: nat)
    requires Certifiable(curve) && 1 <= curve.axis.degree <= CERTIFIED_DEGREE && i <= n < |curve.axis.knots|
    requires !SpansPass(ar, curve, direction, i)
    ensures !SpansPass(ar, curve, direction, n)
  {
    hide SpanVerdict, OriginOf;
  }

  lemma {:induction false} SpansCostGrows(ar: Arithmetic, curve: NurbsCurve, direction: Vector, i: nat, n: nat)
    requires Certifiable(curve) && 1 <= curve.axis.degree <= CERTIFIED_DEGREE && i <= n < |curve.axis.knots|
    ensures SpansCost(ar, curve, direction, i) <= SpansCost(ar, curve, direction, n)
    decreases n
  {
    hide SpanCost, OriginOf;
    if i < n {
      SpansCostGrows(ar, curve, direction, i, n - 1);
    }
  }

  lemma OneMoreSpan(n: nat, work: nat)
    requires n > 0
    ensures n * work == (n - 1) * work + work
  {
  }

  lemma {:induction false} SpansCostAtLeast(ar: Arithmetic, curve: NurbsCurve, direction: Vector, n: nat)
    requires Certifiable(curve) && 1 <= curve.axis.degree <= CERTIFIED_DEGREE && n < |curve.axis.knots|
    ensures SpansCost(ar, curve, direction, n) >= n * WorkPerSpan(curve.axis.degree)
    decreases n
  {
    hide Cost, OriginOf, WorkPerSpan;
    if n > 0 {
      SpansCostAtLeast(ar, curve, direction, n - 1);
      OneMoreSpan(n, WorkPerSpan(curve.axis.degree));
    }
  }

  lemma TooManySpans(spans: nat, work: nat)
    requires work > 0 && spans > MAX_WORK / work
    ensures spans * work > MAX_WORK
  {
    assert spans >= MAX_WORK / work + 1;
    assert spans * work >= (MAX_WORK / work + 1) * work;
  }

  // A curve that passes rises everywhere, for any outward rounding.
  lemma PassingRises(ar: Arithmetic, curve: NurbsCurve, direction: Vector)
    requires ar.Outward() && Certifiable(curve) && CurvePasses(ar, curve, direction)
    ensures forall e :: ActiveSpan(curve.axis, e) ==> Rising(curve, e, direction)
  {
    hide Rising, ActiveSpan, SpanVerdict, OriginOf, ValidCurve, RisingBelow;
    CertifiableDegree(curve);
    FirstSpan(curve);
    FirstRising(curve, direction);
    FirstPole(curve);
    var spans := |curve.axis.knots| - 1;
    for index := 0 to spans
      invariant RisingBelow(curve, direction, SpanOf(curve.axis, index))
    {
      SpanIsUsable(curve, index);
      forall e | ActiveSpan(curve.axis, e) && e.span == SpanOf(curve.axis, index)
        ensures Rising(curve, e, direction)
      {
        VerdictRises(ar, curve, SpanOf(curve.axis, index), OriginOf(ar, curve), direction, e);
      }
      NextSpan(curve, index, direction);
    }
    LastSpan(curve, direction);
  }

  lemma CertifiableDegree(curve: NurbsCurve)
    requires Certifiable(curve)
    ensures 1 <= curve.axis.degree < curve.axis.controlCount
    ensures |curve.axis.knots| == |curve.axis.multiplicities| >= 2 && ValidAxis(curve.axis)
  {
  }

  lemma PerSpanPositive(degree: nat)
    requires degree >= 1
    ensures WorkPerSpan(degree) > 0
  {
    assert degree * (degree + 1) > 0;
    assert (degree + 1) * degree * (degree + 1) >= 0;
  }

  method ExpandAxis(axis: SplineAxis) returns (knots: seq<real>)
    requires ValidAxis(axis)
    ensures knots == FullKnots(axis)
  {
    knots := [];
    for i := 0 to |axis.knots|
      invariant knots == Expand(axis.knots[..i], axis.multiplicities[..i])
    {
      knots := knots + Repeat(axis.knots[i], axis.multiplicities[i]);
      assert axis.knots[..i + 1][..i] == axis.knots[..i];
      assert axis.multiplicities[..i + 1][..i] == axis.multiplicities[..i];
    }
    assert axis.knots[..|axis.knots|] == axis.knots;
    assert axis.multiplicities[..|axis.knots|] == axis.multiplicities;
  }

  lemma FirstPole(curve: NurbsCurve)
    requires Certifiable(curve)
    ensures curve.controls.dimension >= 3 && |curve.controls.values| >= 3
    ensures curve.controls.rational ==> |curve.controls.values| >= 4 && curve.controls.values[3] > 0.0
  {
    ControlValues(curve, curve.axis.degree, 0);
    assert PoleAt(curve, curve.axis.degree, 0) == curve.controls.dimension * 0;
  }

  lemma FirstSpan(curve: NurbsCurve)
    requires Certifiable(curve)
    ensures SpanOf(curve.axis, 0) == curve.axis.degree
  {
    TotalStep(curve.axis.multiplicities, 0);
  }

  lemma FirstRising(curve: NurbsCurve, d: Vector)
    requires Certifiable(curve)
    ensures RisingBelow(curve, d, curve.axis.degree)
  {
    hide Rising;
  }

  lemma LastSpan(curve: NurbsCurve, d: Vector)
    requires Certifiable(curve) && RisingBelow(curve, d, SpanOf(curve.axis, |curve.axis.knots| - 1))
    ensures forall e :: ActiveSpan(curve.axis, e) ==> Rising(curve, e, d)
  {
    hide Rising;
    assert curve.axis.multiplicities[..|curve.axis.knots|] == curve.axis.multiplicities;
  }

  lemma NextSpan(curve: NurbsCurve, index: nat, d: Vector)
    requires Certifiable(curve) && index + 1 < |curve.axis.knots|
    requires forall e :: ActiveSpan(curve.axis, e) && e.span == SpanOf(curve.axis, index) ==> Rising(curve, e, d)
    requires RisingBelow(curve, d, SpanOf(curve.axis, index))
    ensures RisingBelow(curve, d, SpanOf(curve.axis, index + 1))
  {
    hide Rising;
    forall e | ActiveSpan(curve.axis, e) && e.span < SpanOf(curve.axis, index + 1)
      ensures Rising(curve, e, d)
    {
      if e.span > SpanOf(curve.axis, index) {
        NoSpanBetween(curve.axis, index, e.span);
      }
    }
  }

  // ---------------------------------------------------------------- polynomial curves

  function DotRow(d: Vector, row: seq<Jet>): (r: seq<real>)
    ensures |r| == |row|
  {
    seq(|row|, i requires 0 <= i < |row| => Dot(d, row[i].value.x, row[i].value.y, row[i].value.z))
  }

  // With unit weights, strictly increasing projected poles are enough.
  lemma IncreasingPolesRise(curve: NurbsCurve, e: AxisEvaluation, d: Vector)
    requires Certifiable(curve) && !curve.controls.rational && ActiveSpan(curve.axis, e)
    requires forall i :: 1 <= i <= e.degree ==>
      DotRow(d, CurveRow(curve, e.span))[i - 1] < DotRow(d, CurveRow(curve, e.span))[i]
    ensures Rising(curve, e, d)
  {
    ActiveSpanIsSpan(curve.axis, e);
    hide Combine, Entry, SlopeAt, ActiveSpan;
    var p, row, knots, t := e.degree, CurveRow(curve, e.span), LocalKnots(e), e.parameter;
    var k := Weights(d.x, d.y, d.z, 0.0);
    var x, y, z, w := Values(row, 0), Values(row, 1), Values(row, 2), Values(row, 3);
    forall i | 0 <= i <= p
      ensures DotRow(d, row)[i] == Combine(k, x[i], y[i], z[i], w[i]) && w[i] == 1.0
    {
      ControlValues(curve, e.span, i);
      CombineIsDot(d, x[i], y[i], z[i], w[i]);
    }
    assert w == Repeat(1.0, p + 1);
    ConstantEntries(p, knots, 1.0, t, p, p);
    CombinedSlopes(p, knots, k, DotRow(d, row), x, y, z, w, t, p, p);
    CombineIsDot(d, SlopeFrom(p, knots, x, t, p, p), SlopeFrom(p, knots, y, t, p, p), SlopeFrom(p, knots, z, t, p, p), 0.0);
    SlopePositive(p, knots, DotRow(d, row), t, p, p);
    UnitWeight(Dot(d, HomogeneousSlope(curve, e, 0), HomogeneousSlope(curve, e, 1), HomogeneousSlope(curve, e, 2)),
               Dot(d, HomogeneousValue(curve, e, 0), HomogeneousValue(curve, e, 1), HomogeneousValue(curve, e, 2)));
  }

  lemma CombineIsDot(d: Vector, x: real, y: real, z: real, w: real)
    ensures Combine(Weights(d.x, d.y, d.z, 0.0), x, y, z, w) == Dot(d, x, y, z)
  {
  }

  lemma UnitWeight(da: real, a: real)
    ensures Det(da, 0.0, 1.0, a) == da
  {
  }

  // The pole step test of nonrational curves.
  function PoleStep(curve: NurbsCurve, i: nat, d: Vector): real
    requires 1 <= i && 3 * i + 3 <= |curve.controls.values|
  {
    var v := curve.controls.values;
    Dot(d, v[3 * i] - v[3 * i - 3], v[3 * i + 1] - v[3 * i - 2], v[3 * i + 2] - v[3 * i - 1])
  }

  lemma PoleStepIsDifference(curve: NurbsCurve, span: nat, i: nat, d: Vector)
    requires Certifiable(curve) && !curve.controls.rational
    requires curve.axis.degree <= span < curve.axis.controlCount && 1 <= i <= curve.axis.degree
    requires 3 * (span - curve.axis.degree + i) + 3 <= |curve.controls.values|
    ensures PoleStep(curve, span - curve.axis.degree + i, d)
         == DotRow(d, CurveRow(curve, span))[i] - DotRow(d, CurveRow(curve, span))[i - 1]
  {
    ControlValues(curve, span, i);
    ControlValues(curve, span, i - 1);
    var v, at := curve.controls.values, 3 * (span - curve.axis.degree + i);
    assert PoleAt(curve, span, i) == at && PoleAt(curve, span, i - 1) == at - 3;
    DotDifference(d, v[at], v[at + 1], v[at + 2], v[at - 3], v[at - 2], v[at - 1]);
    hide Dot;
  }

  lemma DotDifference(d: Vector, x1: real, y1: real, z1: real, x0: real, y0: real, z0: real)
    ensures Dot(d, x1 - x0, y1 - y0, z1 - z0) == Dot(d, x1, y1, z1) - Dot(d, x0, y0, z0)
  {
  }

  lemma PoleStepsRise(curve: NurbsCurve, d: Vector)
    requires Certifiable(curve) && !curve.controls.rational
    requires |curve.controls.values| == 3 * curve.axis.controlCount
    requires forall i :: 1 <= i < curve.axis.controlCount ==> PoleStep(curve, i, d) > 0.0
    ensures forall e :: ActiveSpan(curve.axis, e) ==> Rising(curve, e, d)
  {
    hide Rising, PoleStep, CurveRow, DotRow;
    forall e | ActiveSpan(curve.axis, e)
      ensures Rising(curve, e, d)
    {
      forall i | 1 <= i <= e.degree
        ensures DotRow(d, CurveRow(curve, e.span))[i - 1] < DotRow(d, CurveRow(curve, e.span))[i]
      {
        PoleStepIsDifference(curve, e.span, i, d);
      }
      IncreasingPolesRise(curve, e, d);
    }
  }

  // ---------------------------------------------------------------- certificate

  function Normalized(d: Vector, length: real): Vector
    requires length > 0.0
  {
    Vector(Ratio(d.x, length), Ratio(d.y, length), Ratio(d.z, length))
  }

  // The direction that is certified: every quotient is rounded.
  function UnitDirection(ar: Arithmetic, d: Vector): Vector
    requires ar.norm(d.x, d.y, d.z) > 0.0
  {
    var q := Normalized(d, ar.norm(d.x, d.y, d.z));
    Vector(ar.nearest(q.x), ar.nearest(q.y), ar.nearest(q.z))
  }

  predicate IsUnit(d: Vector) {
    Abs(d.x) <= 1.01 && Abs(d.y) <= 1.01 && Abs(d.z) <= 1.01
  }

  lemma UnitSize(ar: Arithmetic, d: Vector)
    requires Near(ar) && ar.norm(d.x, d.y, d.z) > 0.0
    ensures IsUnit(UnitDirection(ar, d))
  {
    hide Abs, Covers, Close;
    var length := ar.norm(d.x, d.y, d.z);
    UnitComponent(ar, d.x, length);
    UnitComponent(ar, d.y, length);
    UnitComponent(ar, d.z, length);
  }

  lemma DirectionScaled(curve: NurbsCurve, e: AxisEvaluation, d: Vector, length: real)
    requires ValidCurve(curve) && ActiveSpan(curve.axis, e) && length > 0.0
    requires Rising(curve, e, Normalized(d, length))
    ensures Rising(curve, e, d)
  {
    hide HomogeneousValue, HomogeneousSlope, Ratio, Dot, Det, Times, ActiveSpan, ValidCurve;
    var m := Ratio(1.0, length);
    PositiveQuotient(1.0, length);
    RatioAsProduct(d.x, length);
    RatioAsProduct(d.y, length);
    RatioAsProduct(d.z, length);
    assert Normalized(d, length) == Vector(m * d.x, m * d.y, m * d.z);
    var dx, dy, dz := HomogeneousSlope(curve, e, 0), HomogeneousSlope(curve, e, 1), HomogeneousSlope(curve, e, 2);
    var x, y, z := HomogeneousValue(curve, e, 0), HomogeneousValue(curve, e, 1), HomogeneousValue(curve, e, 2);
    var dw, w := HomogeneousSlope(curve, e, 3), HomogeneousValue(curve, e, 3);
    ScaledDirection(m, d, dx, dy, dz, dw, w, x, y, z);
    PositiveOther(m, Det(Dot(d, dx, dy, dz), dw, w, Dot(d, x, y, z)));
  }

  lemma ScaledDirection(m: real, d: Vector, dx: real, dy: real, dz: real, dw: real, w: real, x: real, y: real, z: real)
    ensures Det(Dot(Vector(m * d.x, m * d.y, m * d.z), dx, dy, dz), dw, w, Dot(Vector(m * d.x, m * d.y, m * d.z), x, y, z))
         == Times(m, Det(Dot(d, dx, dy, dz), dw, w, Dot(d, x, y, z)))
  {
  }

  method CurveDomain(curve: NurbsCurve) returns (r: Result<(real, real)>)
    ensures !ValidCurve(curve) ==> r == Err(ResourceLimit) || r == Err(InvalidRecord)
    ensures ValidCurve(curve) ==>
      r == if DomainStart(curve.axis) < DomainEnd(curve.axis)
           then Ok((DomainStart(curve.axis), DomainEnd(curve.axis))) else Err(InvalidRecord)
  {
    var invalid := ValidateAxis(curve.axis);
    if invalid.Some? {
      return Err(invalid.value);
    }
    invalid := ValidateControls(curve.controls, curve.axis.controlCount, false);
    if invalid.Some? {
      return Err(invalid.value);
    }
    r := AxisDomain(curve.axis);
  }

  function RoundedStep(ar: Arithmetic, curve: NurbsCurve, i: nat): Vector
    requires 1 <= i && 3 * i + 3 <= |curve.controls.values|
  {
    var v, at := curve.controls.values, 3 * i;
    Vector(ar.nearest(v[at] - v[at - 3]), ar.nearest(v[at + 1] - v[at - 2]), ar.nearest(v[at + 2] - v[at - 1]))
  }

  // The rounded projection of pole step i clears the rounding margin.
  predicate StepClears(ar: Arithmetic, curve: NurbsCurve, d: Vector, i: nat)
    requires 1 <= i && 3 * i + 3 <= |curve.controls.values|
  {
    var step := RoundedStep(ar, curve, i);
    RoundedSum(ar, step.x, step.y, step.z, d.x, d.y, d.z) > Margin(ar, ar.norm(step.x, step.y, step.z))
  }

  predicate StepsClear(ar: Arithmetic, curve: NurbsCurve, d: Vector)
    requires |curve.controls.values| >= 3 * curve.axis.controlCount
  {
    forall k :: 1 <= k < curve.axis.controlCount ==> StepClears(ar, curve, d, k)
  }

  // The exact step points along the direction when the rounded one clears the
  // margin.
  lemma ClearStepRises(ar: Arithmetic, curve: NurbsCurve, d: Vector, i: nat)
    requires Near(ar) && IsUnit(d) && 1 <= i && 3 * i + 3 <= |curve.controls.values| && StepClears(ar, curve, d, i)
    ensures PoleStep(curve, i, d) > 0.0
  {
    hide Close, RoundedSum, Margin, Covers, Abs;
    var v, at := curve.controls.values, 3 * i;
    var x, y, z := v[at] - v[at - 3], v[at + 1] - v[at - 2], v[at + 2] - v[at - 1];
    MarginCovers(ar, x, y, z, ar.nearest(x), ar.nearest(y), ar.nearest(z), d.x, d.y, d.z);
    DotAsTimes(d, x, y, z);
  }

  lemma DotAsTimes(d: Vector, x: real, y: real, z: real)
    ensures Dot(d, x, y, z) == Times(x, d.x) + Times(y, d.y) + Times(z, d.z)
  {
  }

  lemma ClearStepsRise(ar: Arithmetic, curve: NurbsCurve, d: Vector)
    requires Near(ar) && IsUnit(d) && Certifiable(curve) && !curve.controls.rational
    requires |curve.controls.values| >= 3 * curve.axis.controlCount && StepsClear(ar, curve, d)
    ensures forall k :: 1 <= k < curve.axis.controlCount ==> PoleStep(curve, k, d) > 0.0
  {
    hide PoleStep, StepClears, IsUnit, Near;
    forall k | 1 <= k < curve.axis.controlCount
      ensures PoleStep(curve, k, d) > 0.0
    {
      ClearStepRises(ar, curve, d, k);
    }
  }

  method PoleStepsPositive(ar: Arithmetic, curve: NurbsCurve, d: Vector) returns (positive: bool)
    requires |curve.controls.values| >= 3 * curve.axis.controlCount >= 3
    ensures positive == StepsClear(ar, curve, d)
  {
    for i := 1 to curve.axis.controlCount
      invariant forall k :: 1 <= k < i ==> StepClears(ar, curve, d, k)
    {
      var at := 3 * i;
      var step := [0.0, 0.0, 0.0];
      var projection := 0.0;
      for k := 0 to 3
        invariant |step| == 3
        invariant forall m :: 0 <= m < k ==> step[m] == RoundedStep(ar, curve, i).At(m)
        invariant projection == PartialSum(ar, RoundedStep(ar, curve, i), d, k)
      {
        step := step[k := ar.nearest(curve.controls.values[at + k] - curve.controls.values[at - 3 + k])];
        projection := ar.nearest(projection + ar.nearest(Times(step[k], d.At(k))));
      }
      if !(projection > ar.nearest(Times(64.0 * ar.epsilon, ar.norm(step[0], step[1], step[2])))) {
        assert !StepClears(ar, curve, d, i);
        return false;
      }
    }
    return true;
  }

  // The sum after the first k components.
  function PartialSum(ar: Arithmetic, step: Vector, d: Vector, k: nat): (sum: real)
    requires k <= 3
    ensures k == 3 ==> sum == RoundedSum(ar, step.x, step.y, step.z, d.x, d.y, d.z)
  {
    var first := ar.nearest(0.0 + ar.nearest(Times(step.x, d.x)));
    var second := ar.nearest(first + ar.nearest(Times(step.y, d.y)));
    if k == 0 then 0.0 else if k == 1 then first else if k == 2 then second
    else ar.nearest(second + ar.nearest(Times(step.z, d.z)))
  }

  // With either certificate.
  ghost predicate CurveCertified(ar: Arithmetic, curve: NurbsCurve, d: Vector)
    requires Certifiable(curve)
  {
    ControlsPerPole(curve);
    (!curve.controls.rational && StepsClear(ar, curve, d)) || CurvePasses(ar, curve, d)
  }

  ghost predicate WorkExceeded(ar: Arithmetic, curve: NurbsCurve, d: Vector)
    requires Certifiable(curve)
  {
    1 <= curve.axis.degree <= CERTIFIED_DEGREE && TotalCost(ar, curve, d) > MAX_WORK
  }

  lemma ControlsPerPole(curve: NurbsCurve)
    requires Certifiable(curve)
    ensures !curve.controls.rational ==> |curve.controls.values| == 3 * curve.axis.controlCount
  {
  }

  // A certified curve rises along the rounded unit direction at every parameter
  // of its domain, with either certificate and under any rounding that is
  // outward for intervals and near otherwise; and along the direction itself
  // where the division by its length is exact.
  method CertifyMonotoneNurbsProjection(ar: Arithmetic, curve: NurbsCurve, direction: Vector) returns (r: Result<bool>)
    requires ar.Outward() && Near(ar)
    ensures r == Ok(true) ==>
      && Certifiable(curve) && DomainStart(curve.axis) < DomainEnd(curve.axis)
      && ar.norm(direction.x, direction.y, direction.z) > 0.0
      && forall e :: ActiveSpan(curve.axis, e) ==>
           && Rising(curve, e, UnitDirection(ar, direction))
           && (UnitDirection(ar, direction) == Normalized(direction, ar.norm(direction.x, direction.y, direction.z)) ==>
                 Rising(curve, e, direction))
    ensures ValidCurve(curve) && DomainStart(curve.axis) < DomainEnd(curve.axis) && !Certifiable(curve) ==> r == Ok(false)
    ensures Certifiable(curve) && DomainStart(curve.axis) < DomainEnd(curve.axis) ==>
      && (ar.norm(direction.x, direction.y, direction.z) == 0.0 || !ar.fits(ar.norm(direction.x, direction.y, direction.z))
          <==> r == Err(InvalidOptions))
      && (r.Err? ==> r.error == InvalidOptions || r.error == ResourceLimit)
    ensures Certifiable(curve) && r.Ok? && ar.norm(direction.x, direction.y, direction.z) > 0.0 ==>
      r.value == CurveCertified(ar, curve, UnitDirection(ar, direction))
    ensures Certifiable(curve) && DomainStart(curve.axis) < DomainEnd(curve.axis) && r == Err(ResourceLimit) ==>
      && ar.norm(direction.x, direction.y, direction.z) > 0.0
      && WorkExceeded(ar, curve, UnitDirection(ar, direction))
  {
    hide Rising, ActiveSpan, StepsClear, CurvePasses, TotalCost, Ratio, Near, IsUnit;
    var domain := CurveDomain(curve);
    if domain.Err? {
      return Err(domain.error);
    }
    var axis := curve.axis;
    if curve.controls.dimension != (if curve.controls.rational then 4 else 3) || axis.closed || axis.periodic
       || axis.multiplicities[0] != axis.degree + 1
       || axis.multiplicities[|axis.multiplicities| - 1] != axis.degree + 1 {
      return Ok(false);
    }
    var length := ar.norm(direction.x, direction.y, direction.z);
    if !ar.fits(length) || length == 0.0 {
      return Err(InvalidOptions);
    }
    var d := Vector(ar.nearest(Ratio(direction.x, length)), ar.nearest(Ratio(direction.y, length)),
                    ar.nearest(Ratio(direction.z, length)));
    ControlsPerPole(curve);
    if !curve.controls.rational {
      var positive := PoleStepsPositive(ar, curve, d);
      if positive {
        UnitSize(ar, direction);
        ClearStepsRise(ar, curve, d);
        PoleStepsRise(curve, d);
        AllExact(curve, direction, length, d);
        return Ok(true);
      }
    }
    r := CertifySpans(ar, curve, d);
    if r == Ok(true) {
      PassingRises(ar, curve, d);
      AllExact(curve, direction, length, d);
    }
  }

  lemma AllExact(curve: NurbsCurve, direction: Vector, length: real, d: Vector)
    requires ValidCurve(curve) && length > 0.0
    requires forall e :: ActiveSpan(curve.axis, e) ==> Rising(curve, e, d)
    ensures d == Normalized(direction, length) ==> forall e :: ActiveSpan(curve.axis, e) ==> Rising(curve, e, direction)
  {
    hide Rising, ActiveSpan, Normalized;
    if d == Normalized(direction, length) {
      AllScaled(curve, direction, length);
    }
  }

  lemma AllScaled(curve: NurbsCurve, d: Vector, length: real)
    requires ValidCurve(curve) && length > 0.0
    requires forall e :: ActiveSpan(curve.axis, e) ==> Rising(curve, e, Normalized(d, length))
    ensures forall e :: ActiveSpan(curve.axis, e) ==> Rising(curve, e, d)
  {
    hide Rising, ActiveSpan;
    forall e | ActiveSpan(curve.axis, e)
      ensures Rising(curve, e, d)
    {
      DirectionScaled(curve, e, d, length);
    }
  }

  // End to end: on a certified curve, whatever the evaluator reports at any
  // parameter has a derivative with a positive component along the certified
  // direction.
  method EvaluateCertified(ar: Arithmetic, curve: NurbsCurve, direction: Vector, parameter: real, limit: real)
    returns (certified: Result<bool>, sample: Result<CurveEvaluation>)
    requires ar.Outward() && Near(ar) && limit > 0.0
    ensures certified == Ok(true) && sample.Ok? ==>
      && ar.norm(direction.x, direction.y, direction.z) > 0.0
      && var d, v := UnitDirection(ar, direction), sample.value.derivative;
         && Dot(d, v.x, v.y, v.z) > 0.0
         && (d == Normalized(direction, ar.norm(direction.x, direction.y, direction.z)) ==>
               Dot(direction, v.x, v.y, v.z) > 0.0)
  {
    hide Rising, CoordinateIs, ActiveSpan, Dot, Near;
    certified := CertifyMonotoneNurbsProjection(ar, curve, direction);
    sample := EvaluateNurbsCurve(curve, parameter, limit);
    if certified == Ok(true) && sample.Ok? {
      ghost var e :| ActiveSpan(curve.axis, e) && e.parameter == parameter
        && forall c :: 0 <= c < 3 ==>
             CoordinateIs(curve, e, c, sample.value.position.At(c), sample.value.derivative.At(c));
      ghost var d := UnitDirection(ar, direction);
      RisingDerivative(curve, e, d, sample.value.position, sample.value.derivative);
      if d == Normalized(direction, ar.norm(direction.x, direction.y, direction.z)) {
        RisingDerivative(curve, e, direction, sample.value.position, sample.value.derivative);
      }
    }
  }
}
