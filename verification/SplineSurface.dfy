// Tensor-product surfaces: rows in v, then u.
module SplineSurface {
  import opened Results
  import opened DeBoor
  import opened SplineJet
  import opened SplineAxes
  import opened SplineEvaluate

  // ---------------------------------------------------------------- linearity

  // Entrywise Lerp(sx, sy, a) + (y - x) / w.
  function BlendRows(sx: seq<real>, sy: seq<real>, x: seq<real>, y: seq<real>, a: real, w: real): (r: seq<real>)
    requires |sx| == |sy| == |x| == |y| && w > 0.0
    ensures |r| == |sx|
  {
    seq(|sx|, k requires 0 <= k < |sx| => Lerp(sx[k], sy[k], a) + Ratio(y[k] - x[k], w))
  }

  function LerpRows(x: seq<real>, y: seq<real>, a: real): (r: seq<real>)
    requires |x| == |y|
    ensures |r| == |x|
  {
    seq(|x|, k requires 0 <= k < |x| => Lerp(x[k], y[k], a))
  }

  lemma {:induction false} ValueOfLerp(p: nat, knots: seq<real>, x: seq<real>, y: seq<real>, a: real, t: real,
                                       level: nat, j: nat)
    requires Window(p, knots) && |x| == |y| == p + 1 && level <= j <= p
    ensures ValueAt(p, knots, LerpRows(x, y, a), t, level, j)
         == Lerp(ValueAt(p, knots, x, t, level, j), ValueAt(p, knots, y, t, level, j), a)
    decreases level
  {
    hide Lerp, Alpha;
    if level > 0 {
      ValueOfLerp(p, knots, x, y, a, t, level - 1, j - 1);
      ValueOfLerp(p, knots, x, y, a, t, level - 1, j);
      ValueStep(p, knots, LerpRows(x, y, a), t, level, j);
      ValueStep(p, knots, x, t, level, j);
      ValueStep(p, knots, y, t, level, j);
      LerpOfLerps(ValueAt(p, knots, x, t, level - 1, j - 1), ValueAt(p, knots, x, t, level - 1, j),
                  ValueAt(p, knots, y, t, level - 1, j - 1), ValueAt(p, knots, y, t, level - 1, j),
                  Alpha(p, knots, level, j, t), a);
    }
  }

  lemma LerpOfBlends(a0: real, b0: real, a1: real, b1: real, x0: real, x1: real, y0: real, y1: real,
                     t: real, s: real, w: real)
    requires w > 0.0
    ensures Lerp(Lerp(a0, a1, s) + Ratio(y0 - x0, w), Lerp(b0, b1, s) + Ratio(y1 - x1, w), t)
         == Lerp(Lerp(a0, b0, t), Lerp(a1, b1, t), s) + Ratio(Lerp(y0, y1, t) - Lerp(x0, x1, t), w)
  {
    LerpOfLerps(a0, b0, a1, b1, t, s);
    LerpOfSum(Lerp(a0, a1, s), Lerp(b0, b1, s), Ratio(y0 - x0, w), Ratio(y1 - x1, w), t);
    RatioAffine(y0 - x0, y1 - x1, w, t);
    LerpOfDifference(y0, y1, x0, x1, t);
    hide Lerp;
  }

  lemma LerpOfSum(a: real, b: real, c: real, d: real, t: real)
    ensures Lerp(a + c, b + d, t) == Lerp(a, b, t) + Lerp(c, d, t)
  {
  }

  lemma LerpOfDifference(a: real, b: real, c: real, d: real, t: real)
    ensures Lerp(a - c, b - d, t) == Lerp(a, b, t) - Lerp(c, d, t)
  {
  }

  lemma {:induction false} ValueOfBlend(p: nat, knots: seq<real>, sx: seq<real>, sy: seq<real>, x: seq<real>,
                                        y: seq<real>, a: real, w: real, t: real, level: nat, j: nat)
    requires Window(p, knots) && |sx| == |sy| == |x| == |y| == p + 1 && w > 0.0 && level <= j <= p
    ensures ValueAt(p, knots, BlendRows(sx, sy, x, y, a, w), t, level, j)
         == Lerp(ValueAt(p, knots, sx, t, level, j), ValueAt(p, knots, sy, t, level, j), a)
            + Ratio(ValueAt(p, knots, y, t, level, j) - ValueAt(p, knots, x, t, level, j), w)
    decreases level
  {
    hide Lerp, Alpha, Ratio;
    if level > 0 {
      ValueOfBlend(p, knots, sx, sy, x, y, a, w, t, level - 1, j - 1);
      ValueOfBlend(p, knots, sx, sy, x, y, a, w, t, level - 1, j);
      ValueStep(p, knots, BlendRows(sx, sy, x, y, a, w), t, level, j);
      ValueStep(p, knots, sx, t, level, j);
      ValueStep(p, knots, sy, t, level, j);
      ValueStep(p, knots, x, t, level, j);
      ValueStep(p, knots, y, t, level, j);
      LerpOfBlends(ValueAt(p, knots, sx, t, level - 1, j - 1), ValueAt(p, knots, sx, t, level - 1, j),
                   ValueAt(p, knots, sy, t, level - 1, j - 1), ValueAt(p, knots, sy, t, level - 1, j),
                   ValueAt(p, knots, x, t, level - 1, j - 1), ValueAt(p, knots, x, t, level - 1, j),
                   ValueAt(p, knots, y, t, level - 1, j - 1), ValueAt(p, knots, y, t, level - 1, j),
                   Alpha(p, knots, level, j, t), a, w);
    }
  }

  // ---------------------------------------------------------------- exchange of axes

  // A rectangular net: net[i] is the i-th row, indexed by v.
  predicate Net(net: seq<seq<real>>, pu: nat, pv: nat) {
    |net| == pu + 1 && forall i :: 0 <= i <= pu ==> |net[i]| == pv + 1
  }

  function Column(net: seq<seq<real>>, pu: nat, pv: nat, j: nat): (r: seq<real>)
    requires Net(net, pu, pv) && j <= pv
    ensures |r| == pu + 1
  {
    seq(pu + 1, i requires 0 <= i <= pu => net[i][j])
  }

  // The row values in v, one per u index.
  function RowValues(net: seq<seq<real>>, pu: nat, pv: nat, kv: seq<real>, v: real): (r: seq<real>)
    requires Net(net, pu, pv) && Window(pv, kv)
    ensures |r| == pu + 1
  {
    seq(pu + 1, i requires 0 <= i <= pu => Value(pv, kv, net[i], v))
  }

  function RowSlopes(net: seq<seq<real>>, pu: nat, pv: nat, kv: seq<real>, v: real): (r: seq<real>)
    requires Net(net, pu, pv) && Window(pv, kv)
    ensures |r| == pu + 1
  {
    seq(pu + 1, i requires 0 <= i <= pu => Slope(pv, kv, net[i], v))
  }

  function ColumnEntries(net: seq<seq<real>>, pu: nat, pv: nat, ku: seq<real>, u: real,
                         level: nat, i: nat): (r: seq<real>)
    requires Net(net, pu, pv) && Window(pu, ku) && level <= i <= pu
    ensures |r| == pv + 1
  {
    seq(pv + 1, j requires 0 <= j <= pv => ValueAt(pu, ku, Column(net, pu, pv, j), u, level, i))
  }

  function ColumnSlopeEntries(net: seq<seq<real>>, pu: nat, pv: nat, ku: seq<real>, u: real,
                              level: nat, i: nat): (r: seq<real>)
    requires Net(net, pu, pv) && Window(pu, ku) && level <= i <= pu
    ensures |r| == pv + 1
  {
    seq(pv + 1, j requires 0 <= j <= pv =>
      SlopeAt(pu, ku, Column(net, pu, pv, j), Repeat(0.0, pu + 1), u, level, i))
  }

  lemma {:induction false} ExchangeValue(net: seq<seq<real>>, pu: nat, pv: nat, ku: seq<real>, kv: seq<real>,
                                         u: real, v: real, level: nat, i: nat)
    requires Net(net, pu, pv) && Window(pu, ku) && Window(pv, kv) && level <= i <= pu
    ensures ValueAt(pu, ku, RowValues(net, pu, pv, kv, v), u, level, i)
         == Value(pv, kv, ColumnEntries(net, pu, pv, ku, u, level, i), v)
    decreases level
  {
    hide Lerp, Alpha;
    if level == 0 {
      assert ColumnEntries(net, pu, pv, ku, u, 0, i) == net[i];
    } else {
      ExchangeValue(net, pu, pv, ku, kv, u, v, level - 1, i - 1);
      ExchangeValue(net, pu, pv, ku, kv, u, v, level - 1, i);
      ValueStep(pu, ku, RowValues(net, pu, pv, kv, v), u, level, i);
      var x := ColumnEntries(net, pu, pv, ku, u, level - 1, i - 1);
      var y := ColumnEntries(net, pu, pv, ku, u, level - 1, i);
      var a := Alpha(pu, ku, level, i, u);
      ValueOfLerp(pv, kv, x, y, a, v, pv, pv);
      forall j | 0 <= j <= pv
        ensures ColumnEntries(net, pu, pv, ku, u, level, i)[j] == Lerp(x[j], y[j], a)
      {
        ValueStep(pu, ku, Column(net, pu, pv, j), u, level, i);
      }
      assert ColumnEntries(net, pu, pv, ku, u, level, i) == LerpRows(x, y, a);
    }
  }

  lemma {:induction false} ExchangeSlope(net: seq<seq<real>>, pu: nat, pv: nat, ku: seq<real>, kv: seq<real>,
                                         u: real, v: real, level: nat, i: nat)
    requires Net(net, pu, pv) && Window(pu, ku) && Window(pv, kv) && level <= i <= pu
    ensures SlopeAt(pu, ku, RowValues(net, pu, pv, kv, v), Repeat(0.0, pu + 1), u, level, i)
         == Value(pv, kv, ColumnSlopeEntries(net, pu, pv, ku, u, level, i), v)
    decreases level
  {
    hide Lerp, Alpha, Ratio, Width;
    if level == 0 {
      ZeroRow(pv, kv, v);
      assert ColumnSlopeEntries(net, pu, pv, ku, u, 0, i) == Repeat(0.0, pv + 1);
    } else {
      ExchangeSlope(net, pu, pv, ku, kv, u, v, level - 1, i - 1);
      ExchangeSlope(net, pu, pv, ku, kv, u, v, level - 1, i);
      ExchangeValue(net, pu, pv, ku, kv, u, v, level - 1, i - 1);
      ExchangeValue(net, pu, pv, ku, kv, u, v, level - 1, i);
      var sx := ColumnSlopeEntries(net, pu, pv, ku, u, level - 1, i - 1);
      var sy := ColumnSlopeEntries(net, pu, pv, ku, u, level - 1, i);
      var x := ColumnEntries(net, pu, pv, ku, u, level - 1, i - 1);
      var y := ColumnEntries(net, pu, pv, ku, u, level - 1, i);
      var a, w := Alpha(pu, ku, level, i, u), Width(pu, ku, level, i);
      ValueOfBlend(pv, kv, sx, sy, x, y, a, w, v, pv, pv);
      assert ColumnSlopeEntries(net, pu, pv, ku, u, level, i) == BlendRows(sx, sy, x, y, a, w);
    }
  }


  function Transpose(net: seq<seq<real>>, pu: nat, pv: nat): (r: seq<seq<real>>)
    requires Net(net, pu, pv)
    ensures Net(r, pv, pu)
  {
    seq(pv + 1, j requires 0 <= j <= pv => Column(net, pu, pv, j))
  }

  // The order of the two passes does not matter: rows in v and then u give the
  // same value and the same two partial derivatives as columns in u and then v.
  lemma TensorOrder(net: seq<seq<real>>, pu: nat, pv: nat, ku: seq<real>, kv: seq<real>, u: real, v: real)
    requires Net(net, pu, pv) && Window(pu, ku) && Window(pv, kv)
    ensures Value(pu, ku, RowValues(net, pu, pv, kv, v), u)
         == Value(pv, kv, RowValues(Transpose(net, pu, pv), pv, pu, ku, u), v)
    ensures Slope(pu, ku, RowValues(net, pu, pv, kv, v), u)
         == Value(pv, kv, RowSlopes(Transpose(net, pu, pv), pv, pu, ku, u), v)
    ensures Value(pu, ku, RowSlopes(net, pu, pv, kv, v), u)
         == Slope(pv, kv, RowValues(Transpose(net, pu, pv), pv, pu, ku, u), v)
  {
    var flipped := Transpose(net, pu, pv);
    ExchangeValue(net, pu, pv, ku, kv, u, v, pu, pu);
    assert ColumnEntries(net, pu, pv, ku, u, pu, pu) == RowValues(flipped, pv, pu, ku, u);
    ExchangeSlope(net, pu, pv, ku, kv, u, v, pu, pu);
    assert ColumnSlopeEntries(net, pu, pv, ku, u, pu, pu) == RowSlopes(flipped, pv, pu, ku, u);
    ExchangeSlope(flipped, pv, pu, kv, ku, v, u, pv, pv);
    forall i | 0 <= i <= pu
      ensures Column(flipped, pv, pu, i) == net[i]
    {
    }
    assert ColumnSlopeEntries(flipped, pv, pu, kv, v, pv, pv) == RowSlopes(net, pu, pv, kv, v);
  }

  // ---------------------------------------------------------------- evaluation

  datatype NurbsSurface = NurbsSurface(u: SplineAxis, v: SplineAxis, controls: SplineControlNet)

  function ControlCount(surface: NurbsSurface): nat {
    surface.u.controlCount * surface.v.controlCount
  }

  predicate ValidSurface(surface: NurbsSurface) {
    && ValidAxis(surface.u) && ValidAxis(surface.v)
    && ValidControls(surface.controls, ControlCount(surface), true)
  }

  // The pair of active spans at (u, v).
  predicate ActiveSpans(surface: NurbsSurface, eu: AxisEvaluation, ev: AxisEvaluation)
    requires ValidSurface(surface)
  {
    ActiveSpan(surface.u, eu) && ActiveSpan(surface.v, ev)
  }

  // Contiguous v rows: control (u, v) is at u * n_v + v.
  function GridControl(surface: NurbsSurface, i: nat, j: nat): (jet: Jet)
    requires ValidSurface(surface) && i < surface.u.controlCount && j < surface.v.controlCount
    ensures jet.du == ZERO && jet.dv == ZERO && jet.value.weight > 0.0
  {
    ControlIndex(surface.v.controlCount, surface.u.controlCount, i, j);
    Control(surface.controls, ControlCount(surface), true, i * surface.v.controlCount + j)
  }

  function GridRow(surface: NurbsSurface, eu: AxisEvaluation, ev: AxisEvaluation, i: nat): (row: seq<Jet>)
    requires ValidSurface(surface) && ActiveSpans(surface, eu, ev) && i <= eu.degree
    ensures |row| == ev.degree + 1
    ensures forall j :: 0 <= j < |row| ==>
      row[j] == GridControl(surface, eu.span - eu.degree + i, ev.span - ev.degree + j)
  {
    seq(ev.degree + 1, j requires 0 <= j <= ev.degree =>
      GridControl(surface, eu.span - eu.degree + i, ev.span - ev.degree + j))
  }

  // Component c of the active controls.
  function ActiveNet(surface: NurbsSurface, eu: AxisEvaluation, ev: AxisEvaluation, c: nat): (net: seq<seq<real>>)
    requires ValidSurface(surface) && ActiveSpans(surface, eu, ev) && c < 4
    ensures Net(net, eu.degree, ev.degree)
  {
    seq(eu.degree + 1, i requires 0 <= i <= eu.degree => Values(GridRow(surface, eu, ev, i), c))
  }

  // The homogeneous value and partials of component c.
  function TensorValue(surface: NurbsSurface, eu: AxisEvaluation, ev: AxisEvaluation, c: nat): real
    requires ValidSurface(surface) && ActiveSpans(surface, eu, ev) && c < 4
  {
    ActiveSpanIsSpan(surface.u, eu);
    ActiveSpanIsSpan(surface.v, ev);
    Value(eu.degree, LocalKnots(eu),
          RowValues(ActiveNet(surface, eu, ev, c), eu.degree, ev.degree, LocalKnots(ev), ev.parameter), eu.parameter)
  }

  function TensorU(surface: NurbsSurface, eu: AxisEvaluation, ev: AxisEvaluation, c: nat): real
    requires ValidSurface(surface) && ActiveSpans(surface, eu, ev) && c < 4
  {
    ActiveSpanIsSpan(surface.u, eu);
    ActiveSpanIsSpan(surface.v, ev);
    Slope(eu.degree, LocalKnots(eu),
          RowValues(ActiveNet(surface, eu, ev, c), eu.degree, ev.degree, LocalKnots(ev), ev.parameter), eu.parameter)
  }

  function TensorV(surface: NurbsSurface, eu: AxisEvaluation, ev: AxisEvaluation, c: nat): real
    requires ValidSurface(surface) && ActiveSpans(surface, eu, ev) && c < 4
  {
    ActiveSpanIsSpan(surface.u, eu);
    ActiveSpanIsSpan(surface.v, ev);
    Value(eu.degree, LocalKnots(eu),
          RowSlopes(ActiveNet(surface, eu, ev, c), eu.degree, ev.degree, LocalKnots(ev), ev.parameter), eu.parameter)
  }

  // Position and both partials satisfy the quotient rule.
  predicate SurfaceCoordinateIs(surface: NurbsSurface, eu: AxisEvaluation, ev: AxisEvaluation, c: nat,
                                x: real, du: real, dv: real)
    requires ValidSurface(surface) && ActiveSpans(surface, eu, ev) && c < 3
  {
    var w := TensorValue(surface, eu, ev, 3);
    && w > 0.0
    && x * w == TensorValue(surface, eu, ev, c)
    && du * w + x * TensorU(surface, eu, ev, 3) == TensorU(surface, eu, ev, c)
    && dv * w + x * TensorV(surface, eu, ev, 3) == TensorV(surface, eu, ev, c)
  }

  // The jet of row i after the pass in v.
  function RowJet(surface: NurbsSurface, eu: AxisEvaluation, ev: AxisEvaluation, i: nat): Jet
    requires ValidSurface(surface) && ActiveSpans(surface, eu, ev) && i <= eu.degree
  {
    ActiveSpanIsSpan(surface.v, ev);
    JetEntry(ev.degree, LocalKnots(ev), GridRow(surface, eu, ev, i), ev.parameter, V, ev.degree, ev.degree)
  }

  function RowJets(surface: NurbsSurface, eu: AxisEvaluation, ev: AxisEvaluation): (row: seq<Jet>)
    requires ValidSurface(surface) && ActiveSpans(surface, eu, ev)
    ensures |row| == eu.degree + 1
  {
    seq(eu.degree + 1, i requires 0 <= i <= eu.degree => RowJet(surface, eu, ev, i))
  }

  lemma RowJetComponents(surface: NurbsSurface, eu: AxisEvaluation, ev: AxisEvaluation, i: nat, c: nat)
    requires ValidSurface(surface) && ActiveSpans(surface, eu, ev) && i <= eu.degree && c < 4
    requires Readable(ev) && Window(ev.degree, LocalKnots(ev))
    ensures RowJet(surface, eu, ev, i).value.At(c)
         == RowValues(ActiveNet(surface, eu, ev, c), eu.degree, ev.degree, LocalKnots(ev), ev.parameter)[i]
    ensures RowJet(surface, eu, ev, i).du.At(c) == 0.0
    ensures RowJet(surface, eu, ev, i).dv.At(c)
         == RowSlopes(ActiveNet(surface, eu, ev, c), eu.degree, ev.degree, LocalKnots(ev), ev.parameter)[i]
  {
    var row := GridRow(surface, eu, ev, i);
    FreshRow(ev.degree, LocalKnots(ev), row, ev.parameter, V, c);
    assert Slots(row, U, c) == Repeat(0.0, ev.degree + 1);
    ZeroRow(ev.degree, LocalKnots(ev), ev.parameter);
  }

  lemma SurfaceJet(surface: NurbsSurface, eu: AxisEvaluation, ev: AxisEvaluation, jet: Jet, c: nat)
    requires ValidSurface(surface) && ActiveSpans(surface, eu, ev) && c < 4
    requires Readable(eu) && Window(eu.degree, LocalKnots(eu))
    requires jet == JetEntry(eu.degree, LocalKnots(eu), RowJets(surface, eu, ev), eu.parameter, U, eu.degree, eu.degree)
    ensures jet.value.At(c) == TensorValue(surface, eu, ev, c)
    ensures jet.du.At(c) == TensorU(surface, eu, ev, c)
    ensures jet.dv.At(c) == TensorV(surface, eu, ev, c)
  {
    ActiveSpanIsSpan(surface.v, ev);
    var row, net := RowJets(surface, eu, ev), ActiveNet(surface, eu, ev, c);
    forall i, d | 0 <= i <= eu.degree && 0 <= d < 4
      ensures row[i].du.At(d) == 0.0
    {
      RowJetComponents(surface, eu, ev, i, d);
    }
    forall i | 0 <= i <= eu.degree
      ensures Slot(row[i], U) == ZERO
    {
      assert row[i].du.At(0) == row[i].du.At(1) == row[i].du.At(2) == row[i].du.At(3) == 0.0;
    }
    forall i | 0 <= i <= eu.degree
      ensures Values(row, c)[i] == RowValues(net, eu.degree, ev.degree, LocalKnots(ev), ev.parameter)[i]
      ensures Slots(row, V, c)[i] == RowSlopes(net, eu.degree, ev.degree, LocalKnots(ev), ev.parameter)[i]
    {
      RowJetComponents(surface, eu, ev, i, c);
    }
    assert Values(row, c) == RowValues(net, eu.degree, ev.degree, LocalKnots(ev), ev.parameter);
    assert Slots(row, V, c) == RowSlopes(net, eu.degree, ev.degree, LocalKnots(ev), ev.parameter);
    FreshRow(eu.degree, LocalKnots(eu), row, eu.parameter, U, c);
  }

  lemma NetRowInRange(surface: NurbsSurface, eu: AxisEvaluation, ev: AxisEvaluation, c: nat, i: nat, low: real, high: real)
    requires ValidSurface(surface) && ActiveSpans(surface, eu, ev) && c < 3 && i <= eu.degree
    requires Readable(ev) && Span(ev.degree, LocalKnots(ev), ev.parameter)
    requires ControlsWithin(GridRow(surface, eu, ev, i), c, low, high)
    ensures
      var x := RowValues(ActiveNet(surface, eu, ev, c), eu.degree, ev.degree, LocalKnots(ev), ev.parameter)[i];
      var w := RowValues(ActiveNet(surface, eu, ev, 3), eu.degree, ev.degree, LocalKnots(ev), ev.parameter)[i];
      Excess(x, low, w) >= 0.0 && Excess(x, high, w) <= 0.0
  {
    hide Excess, LocalKnots, GridRow, Value, ActiveSpans, ControlsWithin, ActiveNet, Values, ValidSurface;
    NetRow(surface, eu, ev, c, i);
    NetRow(surface, eu, ev, 3, i);
    ValueInRange(ev.degree, LocalKnots(ev), ev.parameter, GridRow(surface, eu, ev, i), c, low, high);
  }

  lemma NetInRange(surface: NurbsSurface, eu: AxisEvaluation, ev: AxisEvaluation, c: nat, low: real, high: real)
    requires ValidSurface(surface) && ActiveSpans(surface, eu, ev) && c < 3
    requires forall i :: 0 <= i <= eu.degree ==> ControlsWithin(GridRow(surface, eu, ev, i), c, low, high)
    ensures Excess(TensorValue(surface, eu, ev, c), low, TensorValue(surface, eu, ev, 3)) >= 0.0
    ensures Excess(TensorValue(surface, eu, ev, c), high, TensorValue(surface, eu, ev, 3)) <= 0.0
  {
    hide Excess, LocalKnots, GridRow, Value, ValueAt, ActiveSpan, ControlsWithin, ActiveNet, ValidAxis, ValidControls,
      RowValues;
    ActiveSpanIsSpan(surface.u, eu);
    ActiveSpanIsSpan(surface.v, ev);
    var rowX := RowValues(ActiveNet(surface, eu, ev, c), eu.degree, ev.degree, LocalKnots(ev), ev.parameter);
    var rowW := RowValues(ActiveNet(surface, eu, ev, 3), eu.degree, ev.degree, LocalKnots(ev), ev.parameter);
    forall i | 0 <= i <= eu.degree
      ensures Excess(rowX[i], low, rowW[i]) >= 0.0 && Excess(rowX[i], high, rowW[i]) <= 0.0
    {
      NetRowInRange(surface, eu, ev, c, i, low, high);
    }
    WeightedWithin(eu.degree, LocalKnots(eu), rowX, rowW, eu.parameter, eu.degree, eu.degree, low, high);
    ValueIsEntry(eu.degree, LocalKnots(eu), rowX, eu.parameter);
    ValueIsEntry(eu.degree, LocalKnots(eu), rowW, eu.parameter);
  }

  // The point stays inside the coordinate ranges of the active controls.
  lemma PointInNetRange(surface: NurbsSurface, eu: AxisEvaluation, ev: AxisEvaluation, c: nat, x: real, du: real,
                        dv: real, low: real, high: real)
    requires ValidSurface(surface) && ActiveSpans(surface, eu, ev) && c < 3
    requires SurfaceCoordinateIs(surface, eu, ev, c, x, du, dv)
    requires forall i :: 0 <= i <= eu.degree ==> ControlsWithin(GridRow(surface, eu, ev, i), c, low, high)
    ensures low <= x <= high
  {
    hide Excess, TensorValue, TensorU, TensorV, ControlsWithin, ActiveSpans;
    NetInRange(surface, eu, ev, c, low, high);
    QuotientBetween(TensorValue(surface, eu, ev, c), TensorValue(surface, eu, ev, 3), x, low, high);
  }

  lemma NetRow(surface: NurbsSurface, eu: AxisEvaluation, ev: AxisEvaluation, c: nat, i: nat)
    requires ValidSurface(surface) && ActiveSpans(surface, eu, ev) && c < 4 && i <= eu.degree
    ensures |ActiveNet(surface, eu, ev, c)| == eu.degree + 1
    ensures ActiveNet(surface, eu, ev, c)[i] == Values(GridRow(surface, eu, ev, i), c)
  {
  }

  // A coordinate or partial of the surface at the parameters is too large.
  ghost predicate SurfaceOverflows(surface: NurbsSurface, u: real, v: real, limit: real)
    requires ValidSurface(surface)
  {
    exists eu, ev, c, x, du, dv :: ActiveSpans(surface, eu, ev) && eu.parameter == u && ev.parameter == v
      && SurfaceExceeds(surface, eu, ev, c, x, du, dv, limit)
  }

  predicate SurfaceExceeds(surface: NurbsSurface, eu: AxisEvaluation, ev: AxisEvaluation, c: nat, x: real, du: real,
                           dv: real, limit: real)
    requires ValidSurface(surface) && ActiveSpans(surface, eu, ev)
  {
    && c < 3 && SurfaceCoordinateIs(surface, eu, ev, c, x, du, dv)
    && !(InRange(x, limit) && InRange(du, limit) && InRange(dv, limit))
  }

  predicate InDomain(surface: NurbsSurface, u: real, v: real)
    requires ValidSurface(surface)
  {
    && DomainStart(surface.u) <= u <= DomainEnd(surface.u) && DomainStart(surface.u) < DomainEnd(surface.u)
    && DomainStart(surface.v) <= v <= DomainEnd(surface.v) && DomainStart(surface.v) < DomainEnd(surface.v)
  }

  // Inside the domain of a valid surface the evaluation fails only on overflow.
  method EvaluateNurbsSurface(surface: NurbsSurface, u: real, v: real, limit: real) returns (r: Result<SurfaceEvaluation>)
    requires limit > 0.0
    ensures !ValidSurface(surface) ==> r == Err(ResourceLimit) || r == Err(InvalidRecord)
    ensures r.Ok? ==> ValidSurface(surface) && InDomain(surface, u, v)
    ensures ValidSurface(surface) && InDomain(surface, u, v) && r.Err? ==> SurfaceOverflows(surface, u, v, limit)
    ensures
      ValidSurface(surface) && DomainStart(surface.u) < DomainEnd(surface.u)
      && DomainStart(surface.v) < DomainEnd(surface.v) ==>
        (!InDomain(surface, u, v) <==> r == Err(InvalidOptions))
    ensures r.Ok? ==> forall c :: 0 <= c < 3 ==>
      && InRange(r.value.position.At(c), limit)
      && InRange(r.value.uDerivative.At(c), limit) && InRange(r.value.vDerivative.At(c), limit)
    ensures r.Ok? ==> exists eu, ev ::
      && ActiveSpans(surface, eu, ev) && eu.parameter == u && ev.parameter == v
      && forall c :: 0 <= c < 3 ==>
           SurfaceCoordinateIs(surface, eu, ev, c, r.value.position.At(c), r.value.uDerivative.At(c),
                               r.value.vDerivative.At(c))
  {
    hide JetEntry, GridControl, TensorValue, TensorU, TensorV, ValidAxis, ValidControls, LocalKnots, Window,
      DomainStart, DomainEnd, FullKnots, ControlCount, SurfaceCoordinateIs, Projects, InRange;
    var invalid := ValidateAxis(surface.u);
    if invalid.Some? {
      return Err(invalid.value);
    }
    invalid := ValidateAxis(surface.v);
    if invalid.Some? {
      return Err(invalid.value);
    }
    invalid := ValidateControls(surface.controls, ControlCount(surface), true);
    if invalid.Some? {
      return Err(invalid.value);
    }
    var uAxis := PrepareAxis(surface.u, u);
    if uAxis.Err? {
      return Err(uAxis.error);
    }
    var vAxis := PrepareAxis(surface.v, v);
    if vAxis.Err? {
      return Err(vAxis.error);
    }
    var eu, ev := uAxis.value, vAxis.value;
    ActiveSpanIsSpan(surface.u, eu);
    ActiveSpanIsSpan(surface.v, ev);
    var uWork := new Jet[eu.degree + 1](_ => Jet(ZERO, ZERO, ZERO));
    var vWork := new Jet[ev.degree + 1](_ => Jet(ZERO, ZERO, ZERO));
    for i := 0 to eu.degree + 1
      invariant forall k :: 0 <= k < i ==> uWork[k] == RowJet(surface, eu, ev, k)
    {
      for j := 0 to ev.degree + 1
        invariant forall k :: 0 <= k < i ==> uWork[k] == RowJet(surface, eu, ev, k)
        invariant forall k :: 0 <= k < j ==> vWork[k] == GridRow(surface, eu, ev, i)[k]
      {
        vWork[j] := GridControl(surface, eu.span - eu.degree + i, ev.span - ev.degree + j);
      }
      assert vWork[..] == GridRow(surface, eu, ev, i);
      var row := Interpolate(ev, vWork, V);
      if row.Err? {
        return Err(InvalidRecord);
      }
      uWork[i] := row.value;
    }
    assert uWork[..] == RowJets(surface, eu, ev);
    var jet := Interpolate(eu, uWork, U);
    if jet.Err? {
      return Err(InvalidRecord);
    }
    r := Project(jet.value, limit);
    if r.Ok? {
      SurfaceCoordinates(surface, eu, ev, jet.value, r.value);
    } else {
      SurfaceOverflowFound(surface, eu, ev, jet.value, limit);
    }
  }

  lemma SurfaceOverflowFound(surface: NurbsSurface, eu: AxisEvaluation, ev: AxisEvaluation, jet: Jet, limit: real)
    requires limit > 0.0 && ValidSurface(surface) && ActiveSpans(surface, eu, ev)
    requires Readable(eu) && Window(eu.degree, LocalKnots(eu))
    requires jet == JetEntry(eu.degree, LocalKnots(eu), RowJets(surface, eu, ev), eu.parameter, U, eu.degree, eu.degree)
    requires jet.value.weight > 0.0 ==>
      exists c, point, du, dv :: 0 <= c < 3 && Projects(jet, point, du, dv, c)
        && !(InRange(point, limit) && InRange(du, limit) && InRange(dv, limit))
    ensures SurfaceOverflows(surface, eu.parameter, ev.parameter, limit)
  {
    hide JetEntry, TensorValue, TensorU, TensorV, ActiveSpans, InRange;
    SurfaceJet(surface, eu, ev, jet, 3);
    SurfaceWeight(surface, eu, ev);
    var c, point, du, dv :| 0 <= c < 3 && Projects(jet, point, du, dv, c)
      && !(InRange(point, limit) && InRange(du, limit) && InRange(dv, limit));
    SurfaceJet(surface, eu, ev, jet, c);
    assert SurfaceExceeds(surface, eu, ev, c, point, du, dv, limit);
  }

  // Positive weights give a positive tensor weight.
  lemma SurfaceWeight(surface: NurbsSurface, eu: AxisEvaluation, ev: AxisEvaluation)
    requires ValidSurface(surface) && ActiveSpans(surface, eu, ev)
    ensures TensorValue(surface, eu, ev, 3) > 0.0
  {
    hide LocalKnots, GridControl, Value;
    ActiveSpanIsSpan(surface.u, eu);
    ActiveSpanIsSpan(surface.v, ev);
    var net := ActiveNet(surface, eu, ev, 3);
    var row := RowValues(net, eu.degree, ev.degree, LocalKnots(ev), ev.parameter);
    forall i | 0 <= i <= eu.degree
      ensures row[i] > 0.0
    {
      PositiveValue(ev.degree, LocalKnots(ev), net[i], ev.parameter);
    }
    PositiveValue(eu.degree, LocalKnots(eu), row, eu.parameter);
  }

  lemma SurfaceCoordinates(surface: NurbsSurface, eu: AxisEvaluation, ev: AxisEvaluation, jet: Jet, s: SurfaceEvaluation)
    requires ValidSurface(surface) && ActiveSpans(surface, eu, ev)
    requires Readable(eu) && Window(eu.degree, LocalKnots(eu)) && jet.value.weight > 0.0
    requires jet == JetEntry(eu.degree, LocalKnots(eu), RowJets(surface, eu, ev), eu.parameter, U, eu.degree, eu.degree)
    requires forall c :: 0 <= c < 3 ==> Projects(jet, s.position.At(c), s.uDerivative.At(c), s.vDerivative.At(c), c)
    ensures forall c :: 0 <= c < 3 ==>
      SurfaceCoordinateIs(surface, eu, ev, c, s.position.At(c), s.uDerivative.At(c), s.vDerivative.At(c))
  {
    hide JetEntry, TensorValue, TensorU, TensorV;
    SurfaceJet(surface, eu, ev, jet, 3);
    forall c | 0 <= c < 3
      ensures SurfaceCoordinateIs(surface, eu, ev, c, s.position.At(c), s.uDerivative.At(c), s.vDerivative.At(c))
    {
      SurfaceJet(surface, eu, ev, jet, c);
      assert Projects(jet, s.position.At(c), s.uDerivative.At(c), s.vDerivative.At(c), c);
    }
  }
}
