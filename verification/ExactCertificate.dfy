// What the certificate decides when nothing is rounded.
module ExactCertificate {
  import opened Reals
  import opened DeBoor
  import opened Bernstein
  import opened SplineAxes
  import opened SplineEvaluate
  import opened IntervalArithmetic
  import opened Subdivision
  import opened Certificate
  import opened MonotoneProjection

  predicate SharpPole(pole: Pole) {
    Sharp(pole.value) && Sharp(pole.weight)
  }

  predicate SharpPoles(poles: seq<Pole>, n: nat) {
    n <= |poles| && forall i :: 0 <= i < n ==> SharpPole(poles[i])
  }

  // ---------------------------------------------------------------- local poles

  lemma CoordinateSharp(ar: Arithmetic, x: real, origin: real, weight: real, scale: real, direction: real)
    requires ar.Exactly() && scale > 0.0
    ensures Sharp(PoleCoordinate(ar, x, origin, weight, scale, direction))
  {
    hide Multiply, Subtract, Divide;
    MultiplySharp(ar, Exact(origin), Exact(weight));
    var product := Multiply(ar, Exact(origin), Exact(weight));
    SumSharp(ar, Exact(x), product);
    DivideSharp(ar, Subtract(ar, Exact(x), product), Exact(scale));
    MultiplySharp(ar, Divide(ar, Subtract(ar, Exact(x), product), Exact(scale)), Exact(direction));
  }

  lemma LocalPoleSharp(ar: Arithmetic, f: Frame, q: Quad)
    requires ar.Exactly() && f.scale > 0.0
    ensures SharpPole(LocalPole(ar, f, q))
  {
    hide Add, Divide, PoleCoordinate;
    var x := PoleCoordinate(ar, q.x, f.origin.x, q.weight, f.scale, f.direction.x);
    var y := PoleCoordinate(ar, q.y, f.origin.y, q.weight, f.scale, f.direction.y);
    var z := PoleCoordinate(ar, q.z, f.origin.z, q.weight, f.scale, f.direction.z);
    CoordinateSharp(ar, q.x, f.origin.x, q.weight, f.scale, f.direction.x);
    CoordinateSharp(ar, q.y, f.origin.y, q.weight, f.scale, f.direction.y);
    CoordinateSharp(ar, q.z, f.origin.z, q.weight, f.scale, f.direction.z);
    SumSharp(ar, Exact(0.0), x);
    SumSharp(ar, Add(ar, Exact(0.0), x), y);
    SumSharp(ar, Add(ar, Add(ar, Exact(0.0), x), y), z);
    DivideSharp(ar, Exact(q.weight), Exact(f.scale));
  }

  lemma LocalPolesSharp(ar: Arithmetic, f: Frame, row: seq<Jet>)
    requires ar.Exactly() && f.scale > 0.0 && |row| <= POLES
    ensures SharpPoles(LocalPoleRow(ar, f, row), |row|)
  {
    hide LocalPole, SharpPole;
    forall i | 0 <= i < |row|
      ensures SharpPole(LocalPoleRow(ar, f, row)[i])
    {
      LocalPoleSharp(ar, f, row[i].value);
    }
  }

  // ---------------------------------------------------------------- span poles

  lemma AlphaSharp(ar: Arithmetic, argument: real, low: real, high: real)
    requires ar.Exactly() && low < high
    ensures Sharp(AlphaInterval(ar, argument, low, high))
  {
    hide Divide;
    assert ar.down(high - low) == high - low == ar.up(high - low) && ar.fits(high - low);
    SumSharp(ar, Exact(argument), Exact(low));
    SumSharp(ar, Exact(high), Exact(low));
    DivideSharp(ar, Subtract(ar, Exact(argument), Exact(low)), Subtract(ar, Exact(high), Exact(low)));
  }

  lemma {:induction false} PoleEntrySharp(ar: Arithmetic, source: seq<Pole>, p: nat, local: seq<real>, args: seq<real>,
                                          level: nat, j: nat)
    requires ar.Exactly() && Window(p, local) && |local| == 2 * p + 1 && level <= j <= p < |source| && level <= |args|
    requires SharpPoles(source, p + 1)
    ensures SharpPole(PoleEntry(ar, source, p, local, args, level, j))
    decreases level
  {
    hide Mix, AlphaInterval, Sharp, Window;
    if level > 0 {
      PoleEntrySharp(ar, source, p, local, args, level - 1, j - 1);
      PoleEntrySharp(ar, source, p, local, args, level - 1, j);
      var left, right := PoleEntry(ar, source, p, local, args, level - 1, j - 1),
                         PoleEntry(ar, source, p, local, args, level - 1, j);
      WindowIncreases(p, local, level, j);
      AlphaSharp(ar, args[level - 1], local[j], local[j + p + 1 - level]);
      var alpha := AlphaInterval(ar, args[level - 1], local[j], local[j + p + 1 - level]);
      MixSharp(ar, left.value, right.value, alpha);
      MixSharp(ar, left.weight, right.weight, alpha);
    }
  }

  lemma WindowIncreases(p: nat, local: seq<real>, level: nat, j: nat)
    requires Window(p, local) && |local| == 2 * p + 1 && 1 <= level <= j <= p
    ensures local[j] < local[j + p + 1 - level]
  {
  }

  lemma SpanPolesSharp(ar: Arithmetic, source: seq<Pole>, p: nat, local: seq<real>, low: real, high: real)
    requires ar.Exactly() && Window(p, local) && |local| == 2 * p + 1 && p < |source| && p < POLES
    requires SharpPoles(source, p + 1)
    ensures SharpPoles(SpanPoles(ar, source, p, local, low, high), p + 1)
  {
    hide PoleEntry, SharpPole, Window;
    forall i | 0 <= i <= p
      ensures SharpPole(SpanPoles(ar, source, p, local, low, high)[i])
    {
      PoleEntrySharp(ar, source, p, local, MixedArgs(p, 0, i, low, low, high), p, p);
    }
  }

  // ---------------------------------------------------------------- numerator

  lemma FactorSharp(ar: Arithmetic, p: nat, i: nat, j: nat)
    requires ar.Exactly() && i < p && j <= p
    ensures Sharp(FactorInterval(ar, p, i, j))
  {
    hide Choose, Divide;
    ChooseOutside(2 * p - 1, i + j);
    DivideSharp(ar, Exact((p * Choose(p - 1, i) * Choose(p, j)) as real), Exact(Choose(2 * p - 1, i + j) as real));
  }

  lemma CrossSharp(ar: Arithmetic, controls: seq<Pole>, i: nat, j: nat)
    requires ar.Exactly() && i + 1 < |controls| && j < |controls|
    requires SharpPole(controls[i]) && SharpPole(controls[i + 1]) && SharpPole(controls[j])
    ensures Sharp(CrossInterval(ar, controls, i, j))
  {
    hide Subtract, Multiply;
    var da, dw := Subtract(ar, controls[i + 1].value, controls[i].value),
                  Subtract(ar, controls[i + 1].weight, controls[i].weight);
    SumSharp(ar, controls[i + 1].value, controls[i].value);
    SumSharp(ar, controls[i + 1].weight, controls[i].weight);
    MultiplySharp(ar, da, controls[j].weight);
    MultiplySharp(ar, dw, controls[j].value);
    SumSharp(ar, Multiply(ar, da, controls[j].weight), Multiply(ar, dw, controls[j].value));
  }

  predicate SharpBox(box: seq<Interval>) {
    forall i :: 0 <= i < |box| ==> Sharp(box[i])
  }

  lemma {:induction false} NumeratorSharp(ar: Arithmetic, controls: seq<Pole>, p: nat, i: nat, j: nat)
    requires ar.Exactly() && p < |controls| && 2 * p <= SIZE && i <= p && j <= p + 1 && (i == p ==> j == 0)
    requires SharpPoles(controls, p + 1)
    ensures SharpBox(NumeratorBox(ar, controls, p, i, j))
    decreases i, j
  {
    hide Add, Multiply, FactorInterval, CrossInterval, Sharp;
    if j > 0 {
      NumeratorSharp(ar, controls, p, i, j - 1);
      NumeratorTermSharp(ar, controls, NumeratorBox(ar, controls, p, i, j - 1)[i + j - 1], p, i, j - 1);
    } else if i > 0 {
      NumeratorSharp(ar, controls, p, i - 1, p + 1);
    } else {
      ZeroSharp();
    }
  }

  lemma ZeroSharp()
    ensures Sharp(Exact(0.0))
  {
  }

  lemma NumeratorTermSharp(ar: Arithmetic, controls: seq<Pole>, before: Interval, p: nat, i: nat, j: nat)
    requires ar.Exactly() && p < |controls| && i < p && j <= p && SharpPoles(controls, p + 1) && Sharp(before)
    ensures Sharp(Add(ar, before, Multiply(ar, FactorInterval(ar, p, i, j), CrossInterval(ar, controls, i, j))))
  {
    hide Add, Multiply, FactorInterval, CrossInterval, Sharp, SharpPole;
    FactorSharp(ar, p, i, j);
    assert SharpPole(controls[i]) && SharpPole(controls[i + 1]) && SharpPole(controls[j]);
    CrossSharp(ar, controls, i, j);
    MultiplySharp(ar, FactorInterval(ar, p, i, j), CrossInterval(ar, controls, i, j));
    SumSharp(ar, before, Multiply(ar, FactorInterval(ar, p, i, j), CrossInterval(ar, controls, i, j)));
  }

  lemma SharpIsExact(box: seq<Interval>, c: seq<real>)
    requires SharpBox(box) && Encloses(box, c)
    ensures IsExact(box, c)
  {
    hide Sharp, Interval.Contains;
    forall i | 0 <= i < |c|
      ensures box[i] == Exact(c[i])
    {
      assert Sharp(box[i]);
      SharpValue(box[i], c[i]);
    }
  }

  // ---------------------------------------------------------------- one span

  // The Bezier weights of a span.
  function SpanWeights(curve: NurbsCurve, span: nat, f: Frame): (r: seq<real>)
    requires ValidCurve(curve) && curve.axis.degree <= span < curve.axis.controlCount && f.scale > 0.0
    requires span + curve.axis.degree < |FullKnots(curve.axis)|
    requires Window(curve.axis.degree, SpanKnots(curve, span))
  {
    BezierPoles(curve.axis.degree, SpanKnots(curve, span), LocalWeights(f, CurveRow(curve, span)),
                FullKnots(curve.axis)[span], FullKnots(curve.axis)[span + 1])
  }

  lemma SpanPolesExact(ar: Arithmetic, curve: NurbsCurve, span: nat, origin: Vector, direction: Vector)
    requires ar.Outward() && ar.Exactly() && Certifiable(curve) && 1 <= curve.axis.degree <= CERTIFIED_DEGREE
    requires curve.axis.degree <= span < curve.axis.controlCount && span + curve.axis.degree < |FullKnots(curve.axis)|
    requires Window(curve.axis.degree, SpanKnots(curve, span)) && ScaleOf(curve, span) > 0.0
    ensures var f, row, p := Frame(ScaleOf(curve, span), origin, direction), CurveRow(curve, span), curve.axis.degree;
      var low, high := FullKnots(curve.axis)[span], FullKnots(curve.axis)[span + 1];
      && SharpPoles(SpanBezier(ar, curve, span, origin, direction), p + 1)
      && SpanEncloses(SpanBezier(ar, curve, span, origin, direction),
                      BezierPoles(p, SpanKnots(curve, span), LocalValues(f, row), low, high),
                      BezierPoles(p, SpanKnots(curve, span), LocalWeights(f, row), low, high))
  {
    hide Window, SpanEncloses, BezierPoles, LocalValues, LocalWeights, ScaleOf, LocalPoleRow, SpanPoles, SpanKnots,
      CurveRow, SharpPoles;
    var f, row, p := Frame(ScaleOf(curve, span), origin, direction), CurveRow(curve, span), curve.axis.degree;
    var low, high := FullKnots(curve.axis)[span], FullKnots(curve.axis)[span + 1];
    LocalPolesEnclose(ar, f, row);
    SpanPolesEnclose(ar, LocalPoleRow(ar, f, row), p, SpanKnots(curve, span), LocalValues(f, row), LocalWeights(f, row),
                     low, high);
    LocalPolesSharp(ar, f, row);
    SpanPolesSharp(ar, LocalPoleRow(ar, f, row), p, SpanKnots(curve, span), low, high);
  }

  lemma WeightsExact(poles: seq<Pole>, a: seq<real>, w: seq<real>, p: nat)
    requires SharpPoles(poles, p + 1) && |w| == p + 1 && SpanEncloses(poles, a, w)
    ensures WeightsPositive(poles, p) <==> AllAbove(w)
  {
    forall i | 0 <= i <= p
      ensures poles[i].weight == Exact(w[i])
    {
      assert SharpPole(poles[i]);
      SharpValue(poles[i].weight, w[i]);
    }
    assert forall i :: 0 <= i <= p ==> (PositiveInterval(poles[i].weight) <==> w[i] > 0.0);
  }

  lemma SpanBoxExact(ar: Arithmetic, curve: NurbsCurve, span: nat, origin: Vector, direction: Vector)
    requires ar.Outward() && ar.Exactly() && Certifiable(curve) && 1 <= curve.axis.degree <= CERTIFIED_DEGREE
    requires curve.axis.degree <= span < curve.axis.controlCount && span + curve.axis.degree < |FullKnots(curve.axis)|
    requires Window(curve.axis.degree, SpanKnots(curve, span)) && ScaleOf(curve, span) > 0.0
    ensures IsExact(SpanBox(ar, curve, span, origin, direction),
                    SpanNumerator(curve, span, Frame(ScaleOf(curve, span), origin, direction)))
  {
    hide Window, SpanEncloses, Encloses, BezierPoles, NumeratorAfter, LocalValues, LocalWeights, ScaleOf, SpanBezier,
      SpanPoles, NumeratorBox, SpanKnots, CurveRow, IsExact, SharpPoles, SharpBox;
    var f, row, p := Frame(ScaleOf(curve, span), origin, direction), CurveRow(curve, span), curve.axis.degree;
    var low, high := FullKnots(curve.axis)[span], FullKnots(curve.axis)[span + 1];
    var a, w := LocalValues(f, row), LocalWeights(f, row);
    SpanPolesExact(ar, curve, span, origin, direction);
    var pa, pw := BezierPoles(p, SpanKnots(curve, span), a, low, high), BezierPoles(p, SpanKnots(curve, span), w, low, high);
    NumeratorBoxEncloses(ar, SpanBezier(ar, curve, span, origin, direction), pa, pw, p, p, 0);
    NumeratorSharp(ar, SpanBezier(ar, curve, span, origin, direction), p, p, 0);
    var box := SpanBox(ar, curve, span, origin, direction);
    EnclosesPrefix(box, NumeratorAfter(pa, pw, p, SIZE, p, 0), 2 * p);
    SharpIsExact(box, NumeratorAfter(pa, pw, p, SIZE, p, 0)[..2 * p]);
  }

  // Positive Bezier weights, and after sixteen halvings nothing but positive
  // coefficients of the derivative numerator.
  ghost predicate SpanSettles(curve: NurbsCurve, span: nat, f: Frame)
    requires ValidCurve(curve) && curve.axis.degree <= span < curve.axis.controlCount && f.scale > 0.0
    requires curve.axis.degree <= CERTIFIED_DEGREE && span + curve.axis.degree < |FullKnots(curve.axis)|
    requires Window(curve.axis.degree, SpanKnots(curve, span))
  {
    AllAbove(SpanWeights(curve, span, f)) && PiecesPositive(SpanNumerator(curve, span, f), 16)
  }

  lemma SpanExact(ar: Arithmetic, curve: NurbsCurve, span: nat, origin: Vector, direction: Vector)
    requires ar.Outward() && ar.Exactly() && Certifiable(curve) && 1 <= curve.axis.degree <= CERTIFIED_DEGREE
    requires curve.axis.degree <= span < curve.axis.controlCount && span + curve.axis.degree < |FullKnots(curve.axis)|
    requires Window(curve.axis.degree, SpanKnots(curve, span)) && ScaleOf(curve, span) > 0.0
    ensures SpanVerdict(ar, curve, span, origin, direction)
       <==> SpanSettles(curve, span, Frame(ScaleOf(curve, span), origin, direction))
  {
    hide Window, SpanEncloses, BezierPoles, SpanNumerator, LocalValues, LocalWeights, ScaleOf, SpanBezier, SpanBox,
      SpanKnots, CurveRow, IsExact, SharpPoles, AllAbove, PiecesPositive, Certified, WeightsPositive;
    var f, row, p := Frame(ScaleOf(curve, span), origin, direction), CurveRow(curve, span), curve.axis.degree;
    var low, high := FullKnots(curve.axis)[span], FullKnots(curve.axis)[span + 1];
    SpanPolesExact(ar, curve, span, origin, direction);
    WeightsExact(SpanBezier(ar, curve, span, origin, direction),
                 BezierPoles(p, SpanKnots(curve, span), LocalValues(f, row), low, high),
                 BezierPoles(p, SpanKnots(curve, span), LocalWeights(f, row), low, high), p);
    SpanBoxExact(ar, curve, span, origin, direction);
    CertifiedComplete(ar, SpanBox(ar, curve, span, origin, direction), SpanNumerator(curve, span, f), 2 * p - 1);
  }

  // ---------------------------------------------------------------- the curve

  ghost predicate SpanDecided(ar: Arithmetic, curve: NurbsCurve, direction: Vector, i: nat)
    requires Certifiable(curve) && curve.axis.degree <= CERTIFIED_DEGREE && i + 1 < |curve.axis.knots|
  {
    var span := SpanOf(curve.axis, i);
    SpanIsUsable(curve, i);
    SpanWindow(curve, span);
    ScalePositive(curve, span);
    FirstPole(curve);
    SpanSettles(curve, span, Frame(ScaleOf(curve, span), OriginOf(ar, curve), direction))
  }

  // Without rounding a curve passes the search exactly when its degree is at
  // most seven and every nonempty span settles.
  lemma PassesExactly(ar: Arithmetic, curve: NurbsCurve, direction: Vector)
    requires ar.Outward() && ar.Exactly() && Certifiable(curve)
    ensures CurvePasses(ar, curve, direction) <==>
      curve.axis.degree <= 7 && forall i: nat :: i + 1 < |curve.axis.knots| ==> SpanDecided(ar, curve, direction, i)
  {
    hide SpansPass, SpanVerdict, SpanDecided, OriginOf, FullKnots, ValidCurve;
    CertifiableDegree(curve);
    FirstPole(curve);
    PassParts(ar, curve, direction);
    var origin := OriginOf(ar, curve);
    assert ar.fits(origin.x) && ar.fits(origin.y) && ar.fits(origin.z);
    if curve.axis.degree <= 7 {
      AllSpansExactly(ar, curve, direction);
    }
  }

  lemma AllSpansExactly(ar: Arithmetic, curve: NurbsCurve, direction: Vector)
    requires ar.Outward() && ar.Exactly() && Certifiable(curve) && 1 <= curve.axis.degree <= CERTIFIED_DEGREE
    requires |curve.axis.knots| == |curve.axis.multiplicities| >= 2
    ensures SpansPass(ar, curve, direction, |curve.axis.knots| - 1)
       <==> forall i: nat :: i + 1 < |curve.axis.knots| ==> SpanDecided(ar, curve, direction, i)
  {
    hide SpanVerdict, SpanDecided, OriginOf, FullKnots, ValidCurve, SpanOf;
    FirstPole(curve);
    forall i: nat | i + 1 < |curve.axis.knots|
      ensures SpanUsable(curve, i)
      ensures SpanVerdict(ar, curve, SpanOf(curve.axis, i), OriginOf(ar, curve), direction)
         <==> SpanDecided(ar, curve, direction, i)
    {
      OneSpanExactly(ar, curve, direction, i);
    }
  }

  lemma OneSpanExactly(ar: Arithmetic, curve: NurbsCurve, direction: Vector, i: nat)
    requires ar.Outward() && ar.Exactly() && Certifiable(curve) && 1 <= curve.axis.degree <= CERTIFIED_DEGREE
    requires i + 1 < |curve.axis.knots|
    requires |curve.controls.values| >= 3
    requires curve.controls.rational ==> |curve.controls.values| >= 4 && curve.controls.values[3] > 0.0
    ensures SpanUsable(curve, i)
    ensures SpanVerdict(ar, curve, SpanOf(curve.axis, i), OriginOf(ar, curve), direction)
       <==> SpanDecided(ar, curve, direction, i)
  {
    hide SpanVerdict, SpanSettles, OriginOf, ScaleOf, Window, SpanOf;
    var span := SpanOf(curve.axis, i);
    SpanIsUsable(curve, i);
    SpanWindow(curve, span);
    ScalePositive(curve, span);
    SpanExact(ar, curve, span, OriginOf(ar, curve), direction);
  }

  // ---------------------------------------------------------------- pole steps

  // Step i of a nonrational net, from its stored values.
  function StoredStep(curve: NurbsCurve, i: nat): Vector
    requires 1 <= i && 3 * i + 3 <= |curve.controls.values|
  {
    var v := curve.controls.values;
    Vector(v[3 * i] - v[3 * i - 3], v[3 * i + 1] - v[3 * i - 2], v[3 * i + 2] - v[3 * i - 1])
  }

  // Without rounding of single operations a step clears exactly when its
  // projection exceeds 64 epsilon of its length.
  lemma ClearsExactly(ar: Arithmetic, curve: NurbsCurve, d: Vector, i: nat)
    requires 1 <= i && 3 * i + 3 <= |curve.controls.values| && forall x :: ar.nearest(x) == x
    ensures var step := StoredStep(curve, i);
      StepClears(ar, curve, d, i)
      <==> Dot(d, step.x, step.y, step.z) > Times(64.0 * ar.epsilon, ar.norm(step.x, step.y, step.z))
  {
    hide Dot, Times;
    var step := StoredStep(curve, i);
    assert RoundedStep(ar, curve, i) == step;
    DotAsTimes(d, step.x, step.y, step.z);
  }

  ghost predicate StepsRise(curve: NurbsCurve, d: Vector)
    requires Certifiable(curve)
  {
    ControlsPerPole(curve);
    !curve.controls.rational && forall k :: 1 <= k < curve.axis.controlCount ==> PoleStep(curve, k, d) > 0.0
  }

  // Without any rounding the whole verdict is: every step of a nonrational net
  // points along the direction, or the degree is at most seven and every span
  // settles.
  lemma CertifiedExactly(ar: Arithmetic, curve: NurbsCurve, d: Vector)
    requires ar.Outward() && ar.Exactly() && Certifiable(curve) && ar.epsilon == 0.0 && forall x :: ar.nearest(x) == x
    ensures CurveCertified(ar, curve, d) <==>
      || StepsRise(curve, d)
      || (curve.axis.degree <= 7 && forall i: nat :: i + 1 < |curve.axis.knots| ==> SpanDecided(ar, curve, d, i))
  {
    hide StepClears, CurvePasses, SpanDecided, PoleStep;
    ControlsPerPole(curve);
    PassesExactly(ar, curve, d);
    if !curve.controls.rational {
      forall k | 1 <= k < curve.axis.controlCount
        ensures StepClears(ar, curve, d, k) <==> PoleStep(curve, k, d) > 0.0
      {
        ClearsAbove(ar, curve, d, k);
      }
    }
  }

  lemma ClearsAbove(ar: Arithmetic, curve: NurbsCurve, d: Vector, k: nat)
    requires 1 <= k && 3 * k + 3 <= |curve.controls.values| && ar.epsilon == 0.0 && forall x :: ar.nearest(x) == x
    ensures StepClears(ar, curve, d, k) <==> PoleStep(curve, k, d) > 0.0
  {
    hide StepClears, Dot;
    ClearsExactly(ar, curve, d, k);
  }
}
