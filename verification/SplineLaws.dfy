// What curves and surfaces are in terms of the stored knots and values alone.
module SplineLaws {
  import opened Integers
  import opened Reals
  import opened DeBoor
  import opened Polynomial
  import opened SplineJet
  import opened SplineAxes
  import opened SplineEvaluate
  import opened SplineSurface

  // ---------------------------------------------------------------- the identity as a spline

  // n knots from index `from` on.
  function KnotSum(knots: seq<real>, from: nat, n: nat): real
    requires from + n <= |knots|
  {
    if n == 0 then 0.0 else KnotSum(knots, from, n - 1) + knots[from + n - 1]
  }

  lemma {:induction false} KnotSumFront(knots: seq<real>, from: nat, n: nat)
    requires from + n <= |knots| && n > 0
    ensures KnotSum(knots, from, n) == knots[from] + KnotSum(knots, from + 1, n - 1)
  {
    if n > 1 {
      KnotSumFront(knots, from, n - 1);
    }
  }

  lemma {:induction false} KnotSumSlice(knots: seq<real>, start: nat, end: nat, from: nat, n: nat)
    requires start <= end <= |knots| && start + from + n <= end
    ensures KnotSum(knots[start..end], from, n) == KnotSum(knots, start + from, n)
  {
    if n > 0 {
      KnotSumSlice(knots, start, end, from, n - 1);
    }
  }

  // Every control is the mean of the p knots after its index.
  predicate Greville(p: nat, knots: seq<real>, row: seq<real>) {
    |row| == p + 1 && |knots| == 2 * p + 1
    && forall j :: 0 <= j <= p ==> p as real * row[j] == KnotSum(knots, j + 1, p)
  }

  lemma MeanStep(p: real, a: real, b: real, alpha: real, first: real, width: real, offset: real)
    requires Times(p, a) == first && Times(p, b) == first + width && Times(alpha, width) == offset
    ensures Times(p, Lerp(a, b, alpha)) == first + offset
  {
    assert p * (b - a) == width;
    assert p * (alpha * (b - a)) == alpha * (p * (b - a));
  }

  lemma AlphaWidth(p: nat, knots: seq<real>, level: nat, j: nat, x: real)
    requires Window(p, knots) && 1 <= level <= j <= p
    ensures Times(Alpha(p, knots, level, j, x), knots[j + p + 1 - level] - knots[j]) == x - knots[j]
  {
  }

  lemma {:induction false} GrevilleEntry(p: nat, knots: seq<real>, row: seq<real>, t: real, level: nat, j: nat)
    requires Window(p, knots) && Greville(p, knots, row) && level <= j <= p
    ensures Times(p as real, ValueAt(p, knots, row, t, level, j))
         == Times(level as real, t) + KnotSum(knots, j + 1, p - level)
    decreases level
  {
    hide Lerp, Alpha, ValueAt, KnotSum, Times;
    if level == 0 {
      ValueStart(p, knots, row, t, j);
      TimesNothing(t);
      ControlMean(p, knots, row, j);
    } else {
      var m: nat := level - 1;
      var before, rest := Times(m as real, t), KnotSum(knots, j + 1, p - level);
      GrevilleEntry(p, knots, row, t, m, j - 1);
      GrevilleEntry(p, knots, row, t, m, j);
      ValueStep(p, knots, row, t, level, j);
      KnotSums(knots, j, p - m);
      AlphaWidth(p, knots, level, j, t);
      var a, b := ValueAt(p, knots, row, t, m, j - 1), ValueAt(p, knots, row, t, m, j);
      OneMore(m, level, t);
      MeanStep(p as real, a, b, Alpha(p, knots, level, j, t), before + (knots[j] + rest),
               knots[j + p + 1 - level] - knots[j], t - knots[j]);
    }
  }

  // Dropping the last and the first of n + 1 knots.
  lemma KnotSums(knots: seq<real>, from: nat, n: nat)
    requires from + n < |knots| && n > 0
    ensures KnotSum(knots, from, n) == knots[from] + KnotSum(knots, from + 1, n - 1)
    ensures KnotSum(knots, from + 1, n) == KnotSum(knots, from + 1, n - 1) + knots[from + n]
  {
    KnotSumFront(knots, from, n);
  }

  lemma OneMore(m: nat, n: nat, t: real)
    requires n == m + 1
    ensures Times(n as real, t) == Times(m as real, t) + t
  {
  }

  lemma TimesNothing(t: real)
    ensures Times(0.0, t) == 0.0
  {
  }

  lemma ControlMean(p: nat, knots: seq<real>, row: seq<real>, j: nat)
    requires Greville(p, knots, row) && j <= p
    ensures Times(p as real, row[j]) == KnotSum(knots, j + 1, p)
  {
    hide KnotSum;
  }

  lemma ValueStart(p: nat, knots: seq<real>, row: seq<real>, t: real, j: nat)
    requires Window(p, knots) && |row| == p + 1 && j <= p
    ensures ValueAt(p, knots, row, t, 0, j) == row[j]
  {
  }

  // On those controls the scheme is the identity, and its slope is one.
  lemma GrevilleIdentity(p: nat, knots: seq<real>, row: seq<real>, t: real)
    requires Window(p, knots) && Greville(p, knots, row)
    ensures Value(p, knots, row, t) == t && Slope(p, knots, row, t) == 1.0
  {
    hide Greville, Slope, HasDerivative;
    GrevilleLength(p, knots, row);
    var f, g := x => Value(p, knots, row, x), (x: real) => x;
    forall x
      ensures f(x) == g(x)
    {
      GrevilleValue(p, knots, row, x);
    }
    SlopeIsDerivative(p, knots, row, t);
    IdentityDerivative(t);
    GrevilleValue(p, knots, row, t);
    DerivativeUnique(f, g, t, Slope(p, knots, row, t), 1.0);
  }

  lemma GrevilleLength(p: nat, knots: seq<real>, row: seq<real>)
    requires Greville(p, knots, row)
    ensures |row| == p + 1
  {
  }

  lemma GrevilleValue(p: nat, knots: seq<real>, row: seq<real>, t: real)
    requires Window(p, knots) && Greville(p, knots, row)
    ensures |row| == p + 1 && Value(p, knots, row, t) == t
  {
    GrevilleEntry(p, knots, row, t, p, p);
    ValueIsEntry(p, knots, row, t);
    SameProduct(p as real, Value(p, knots, row, t), t);
  }

  lemma SameProduct(p: real, a: real, b: real)
    requires p > 0.0 && Times(p, a) == Times(p, b)
    ensures a == b
  {
    assert p * (a - b) == 0.0;
  }

  lemma IdentityDerivative(t: real)
    ensures HasDerivative((x: real) => x, t, 1.0)
  {
    var q := [t, 1.0];
    forall h
      ensures t + h == Eval(q, h)
    {
      assert q[1..] == [1.0] && [1.0][1..] == [];
      assert Eval([], h) == 0.0;
      assert Eval([1.0], h) == 1.0;
    }
    ExpansionGivesDerivative((x: real) => x, t, q);
  }

  // Value i * d + c is the mean of the p knots after index i.
  ghost predicate KnotMean(curve: NurbsCurve, c: nat, i: nat)
    requires ValidCurve(curve) && i < curve.axis.controlCount
  {
    var address := i * curve.controls.dimension + c;
    && address < |curve.controls.values|
    && curve.axis.degree as real * curve.controls.values[address]
    == KnotSum(FullKnots(curve.axis), i + 1, curve.axis.degree)
  }

  ghost predicate KnotMeans(curve: NurbsCurve, c: nat)
    requires ValidCurve(curve)
  {
    forall i :: 0 <= i < curve.axis.controlCount ==> KnotMean(curve, c, i)
  }

  // What Control reads of a nonrational net.
  lemma PlainControl(controls: SplineControlNet, count: nat, surface: bool, index: nat, c: nat)
    requires ValidControls(controls, count, surface) && index < count && !controls.rational && c < controls.dimension
    ensures index * controls.dimension + c < |controls.values|
    ensures Control(controls, count, surface, index).value.At(c) == controls.values[index * controls.dimension + c]
    ensures Control(controls, count, surface, index).value.weight == 1.0
  {
    ControlIndex(controls.dimension, count, index, c);
  }

  // A curve whose controls are its knot means runs through its parameter with
  // unit speed, in whichever coordinate they are stored.
  lemma KnotMeansIdentity(curve: NurbsCurve, e: AxisEvaluation, c: nat, x: real, dx: real)
    requires ValidCurve(curve) && !curve.controls.rational && c < curve.controls.dimension && c < 3
    requires ActiveSpan(curve.axis, e) && KnotMeans(curve, c) && CoordinateIs(curve, e, c, x, dx)
    ensures x == e.parameter && dx == 1.0
  {
    hide Value, Slope, ValidAxis, Window, Greville, KnotSum, Control, ValidControls;
    ActiveSpanIsSpan(curve.axis, e);
    MeansAreGreville(curve, e, c);
    GrevilleIdentity(e.degree, LocalKnots(e), Values(CurveRow(curve, e.span), c), e.parameter);
    PlainCoordinate(curve, e, c, x, dx);
  }

  lemma UnitRow(curve: NurbsCurve, e: AxisEvaluation)
    requires ValidCurve(curve) && !curve.controls.rational && ActiveSpan(curve.axis, e)
    ensures Values(CurveRow(curve, e.span), 3) == Repeat(1.0, e.degree + 1)
  {
    hide ValidAxis, FullKnots, DomainEnd;
    forall j | 0 <= j <= e.degree
      ensures Values(CurveRow(curve, e.span), 3)[j] == 1.0
    {
      PlainControl(curve.controls, curve.axis.controlCount, false, e.span - e.degree + j, 0);
    }
  }

  lemma ConstantRow(p: nat, knots: seq<real>, c: real, t: real)
    requires Window(p, knots)
    ensures Value(p, knots, Repeat(c, p + 1), t) == c && Slope(p, knots, Repeat(c, p + 1), t) == 0.0
  {
    hide Window;
    ConstantEntries(p, knots, c, t, p, p);
    ValueIsEntry(p, knots, Repeat(c, p + 1), t);
    SlopeIsEntry(p, knots, Repeat(c, p + 1), t);
  }

  lemma SlopeIsEntry(p: nat, knots: seq<real>, row: seq<real>, t: real)
    requires Window(p, knots) && |row| == p + 1
    ensures Slope(p, knots, row, t) == SlopeFrom(p, knots, row, t, p, p)
  {
  }

  lemma MeansAreGreville(curve: NurbsCurve, e: AxisEvaluation, c: nat)
    requires ValidCurve(curve) && !curve.controls.rational && c < curve.controls.dimension && c < 3
    requires ActiveSpan(curve.axis, e) && KnotMeans(curve, c) && Readable(e)
    ensures Greville(e.degree, LocalKnots(e), Values(CurveRow(curve, e.span), c))
  {
    hide KnotSum, Control, KnotMean, ValidAxis, ValidControls, DomainEnd, LocalKnots;
    var p := e.degree;
    forall j | 0 <= j <= p
      ensures p as real * Values(CurveRow(curve, e.span), c)[j] == KnotSum(LocalKnots(e), j + 1, p)
    {
      assert KnotMean(curve, c, e.span - p + j);
      PlainMean(curve, c, e.span - p + j);
      LocalSum(e, j);
    }
  }

  lemma PlainMean(curve: NurbsCurve, c: nat, i: nat)
    requires ValidCurve(curve) && !curve.controls.rational && c < curve.controls.dimension && c < 3
    requires i < curve.axis.controlCount && KnotMean(curve, c, i)
    ensures curve.axis.degree as real * Control(curve.controls, curve.axis.controlCount, false, i).value.At(c)
         == KnotSum(FullKnots(curve.axis), i + 1, curve.axis.degree)
  {
    hide KnotSum, Control, ValidControls;
    PlainControl(curve.controls, curve.axis.controlCount, false, i, c);
  }

  lemma LocalSum(e: AxisEvaluation, j: nat)
    requires Readable(e) && j <= e.degree
    ensures KnotSum(LocalKnots(e), j + 1, e.degree) == KnotSum(e.knots, e.span - e.degree + j + 1, e.degree)
  {
    KnotSumSlice(e.knots, e.span - e.degree, e.span + e.degree + 1, j + 1, e.degree);
  }

  // ---------------------------------------------------------------- rational curves

  // The planar curve of one stored coordinate and the stored weight.
  ghost predicate WeightedColumn(curve: NurbsCurve, plain: NurbsCurve, c: nat, i: nat)
    requires ValidCurve(curve) && ValidCurve(plain)
  {
    var d, from, to := curve.controls.dimension, curve.controls.values, plain.controls.values;
    && i * d + c < |from| && 0 <= i * d + (d - 1) < |from| && i * 2 + 1 < |to|
    && to[i * 2] == from[i * d + c] && to[i * 2 + 1] == from[i * d + (d - 1)]
  }

  ghost predicate WeightedColumns(curve: NurbsCurve, plain: NurbsCurve, c: nat)
    requires ValidCurve(curve) && ValidCurve(plain)
  {
    && plain.axis == curve.axis && plain.controls.dimension == 2 && !plain.controls.rational
    && forall i :: 0 <= i < curve.axis.controlCount ==> WeightedColumn(curve, plain, c, i)
  }

  lemma ColumnControl(curve: NurbsCurve, plain: NurbsCurve, c: nat, i: nat)
    requires ValidCurve(curve) && curve.controls.rational && c + 1 < curve.controls.dimension && c < 3
    requires ValidCurve(plain) && plain.axis == curve.axis
    requires plain.controls.dimension == 2 && !plain.controls.rational
    requires i < curve.axis.controlCount && WeightedColumn(curve, plain, c, i)
    ensures Control(plain.controls, plain.axis.controlCount, false, i).value.At(0)
         == Control(curve.controls, curve.axis.controlCount, false, i).value.At(c)
    ensures Control(plain.controls, plain.axis.controlCount, false, i).value.At(1)
         == Control(curve.controls, curve.axis.controlCount, false, i).value.At(3)
  {
    hide ValidAxis;
    PlainControl(plain.controls, plain.axis.controlCount, false, i, 0);
    PlainControl(plain.controls, plain.axis.controlCount, false, i, 1);
  }

  lemma ColumnRows(curve: NurbsCurve, plain: NurbsCurve, c: nat, e: AxisEvaluation)
    requires ValidCurve(curve) && curve.controls.rational && c + 1 < curve.controls.dimension && c < 3
    requires ValidCurve(plain) && WeightedColumns(curve, plain, c) && ActiveSpan(curve.axis, e)
    ensures Values(CurveRow(plain, e.span), 0) == Values(CurveRow(curve, e.span), c)
    ensures Values(CurveRow(plain, e.span), 1) == Values(CurveRow(curve, e.span), 3)
  {
    hide WeightedColumn, Control, ValidAxis, ValidControls, FullKnots, DomainEnd;
    forall j | 0 <= j <= e.degree
      ensures Values(CurveRow(plain, e.span), 0)[j] == Values(CurveRow(curve, e.span), c)[j]
      ensures Values(CurveRow(plain, e.span), 1)[j] == Values(CurveRow(curve, e.span), 3)[j]
    {
      var i: nat := e.span - e.degree + j;
      assert WeightedColumn(curve, plain, c, i);
      ColumnControl(curve, plain, c, i);
    }
  }

  // A nonrational curve has weight one everywhere.
  lemma PlainCoordinate(curve: NurbsCurve, e: AxisEvaluation, c: nat, x: real, dx: real)
    requires ValidCurve(curve) && !curve.controls.rational && ActiveSpan(curve.axis, e) && c < 3
    requires CoordinateIs(curve, e, c, x, dx)
    ensures x == HomogeneousValue(curve, e, c) && dx == HomogeneousSlope(curve, e, c)
  {
    hide Value, Slope, ValidAxis, ValidControls, FullKnots, DomainEnd;
    ActiveSpanIsSpan(curve.axis, e);
    UnitRow(curve, e);
    ConstantRow(e.degree, LocalKnots(e), 1.0, e.parameter);
  }

  // The stored weights multiply: a rational coordinate is the quotient of the
  // nonrational splines of its stored column and of the stored weights.
  lemma RationalIsQuotient(curve: NurbsCurve, plain: NurbsCurve, e: AxisEvaluation, c: nat, x: real, dx: real,
                           n: real, dn: real, w: real, dw: real)
    requires ValidCurve(curve) && curve.controls.rational && c + 1 < curve.controls.dimension && c < 3
    requires ValidCurve(plain) && WeightedColumns(curve, plain, c) && ActiveSpan(curve.axis, e)
    requires CoordinateIs(curve, e, c, x, dx) && CoordinateIs(plain, e, 0, n, dn) && CoordinateIs(plain, e, 1, w, dw)
    ensures w > 0.0 && x * w == n && dx * w + x * dw == dn
  {
    hide Value, Slope, ValidAxis, ValidControls, Control, FullKnots, DomainEnd, WeightedColumn;
    ColumnRows(curve, plain, c, e);
    PlainCoordinate(plain, e, 0, n, dn);
    PlainCoordinate(plain, e, 1, w, dw);
    WeightPositive(curve, e);
  }

  // ---------------------------------------------------------------- rows of a surface

  // The curve in v on n_v consecutive controls.
  function RowCurve(surface: NurbsSurface, i: nat): NurbsCurve
    requires ValidSurface(surface) && i < surface.u.controlCount
  {
    var n, d := surface.v.controlCount, surface.controls.dimension;
    RowBounds(surface, i);
    NurbsCurve(surface.v, surface.controls.(values := surface.controls.values[i * n * d..(i + 1) * n * d]))
  }

  lemma RowBounds(surface: NurbsSurface, i: nat)
    requires ValidSurface(surface) && i < surface.u.controlCount
    ensures var n, d := surface.v.controlCount, surface.controls.dimension;
      && 0 <= i * n * d <= (i + 1) * n * d <= |surface.controls.values|
      && (i + 1) * n * d - i * n * d == n * d
  {
    hide ValidAxis, ControlAllowed;
    RowEnds(i, surface.u.controlCount, surface.v.controlCount, surface.controls.dimension);
  }

  lemma RowEnds(i: nat, m: nat, n: nat, d: nat)
    requires i < m
    ensures (i + 1) * n * d == i * n * d + n * d && 0 <= i * n * d && 0 <= n * d
    ensures (i + 1) * n * d <= m * n * d
  {
    assert (i + 1) * n == i * n + n;
    assert (i * n + n) * d == i * n * d + n * d;
    Grows(i + 1, m, n);
    Grows((i + 1) * n, m * n, d);
  }

  lemma Grows(a: nat, b: nat, k: nat)
    requires a <= b
    ensures a * k <= b * k
  {
  }

  lemma RowAddress(i: nat, j: nat, n: nat, d: nat, k: nat)
    ensures i * n * d + (j * d + k) == (i * n + j) * d + k
  {
  }

  lemma RowCurveValid(surface: NurbsSurface, i: nat)
    requires ValidSurface(surface) && i < surface.u.controlCount
    ensures ValidCurve(RowCurve(surface, i))
  {
    hide ValidAxis;
    var n, d := surface.v.controlCount, surface.controls.dimension;
    RowBounds(surface, i);
    var row := RowCurve(surface, i).controls;
    assert |row.values| == n * d;
    CountFits(n, surface.u.controlCount, d);
    forall k | 0 <= k < |row.values|
      ensures ControlAllowed(row, k)
    {
      SameRemainder(i * n, d, k);
      assert ControlAllowed(surface.controls, i * n * d + k);
    }
  }

  lemma CountFits(n: nat, m: nat, d: nat)
    requires m > 0 && d > 0 && m * n <= MAX_VALUES / d
    ensures n <= MAX_VALUES / d
  {
    Grows(1, m, n);
  }

  lemma SameRemainder(a: nat, d: nat, k: nat)
    requires d > 0
    ensures (a * d + k) % d == k % d
  {
    var q, r := k / d, k % d;
    assert a * d + k == (a + q) * d + r;
    DivideMultiple(a + q, d, r);
  }

  // Row i of the net is stored as the controls of that curve.
  lemma RowControl(surface: NurbsSurface, i: nat, j: nat)
    requires ValidSurface(surface) && i < surface.u.controlCount && j < surface.v.controlCount
    ensures ValidCurve(RowCurve(surface, i))
    ensures GridControl(surface, i, j) == Control(RowCurve(surface, i).controls, surface.v.controlCount, false, j)
  {
    hide ValidAxis;
    var n, d := surface.v.controlCount, surface.controls.dimension;
    RowCurveValid(surface, i);
    RowBounds(surface, i);
    ControlIndex(n, surface.u.controlCount, i, j);
    ControlIndex(d, n, j, 0);
    ControlIndex(d, n, j, d - 1);
    RowAddress(i, j, n, d, 0);
    RowAddress(i, j, n, d, 1);
    RowAddress(i, j, n, d, 2);
    RowAddress(i, j, n, d, d - 1);
  }

  // The pass in v evaluates the stored row as a curve.
  lemma RowsAreCurves(surface: NurbsSurface, eu: AxisEvaluation, ev: AxisEvaluation, c: nat, i: nat)
    requires ValidSurface(surface) && ActiveSpans(surface, eu, ev) && c < 4 && i <= eu.degree
    requires Readable(ev) && Window(ev.degree, LocalKnots(ev))
    ensures var row := RowCurve(surface, eu.span - eu.degree + i);
      var net := ActiveNet(surface, eu, ev, c);
      && ValidCurve(row) && ActiveSpan(row.axis, ev)
      && RowValues(net, eu.degree, ev.degree, LocalKnots(ev), ev.parameter)[i] == HomogeneousValue(row, ev, c)
      && RowSlopes(net, eu.degree, ev.degree, LocalKnots(ev), ev.parameter)[i] == HomogeneousSlope(row, ev, c)
  {
    hide GridControl, Control, ValidAxis, ValidControls, Value, Slope, FullKnots, DomainEnd;
    var k := eu.span - eu.degree + i;
    var row := RowCurve(surface, k);
    RowCurveValid(surface, k);
    forall j | 0 <= j <= ev.degree
      ensures Values(GridRow(surface, eu, ev, i), c)[j] == Values(CurveRow(row, ev.span), c)[j]
    {
      RowControl(surface, k, ev.span - ev.degree + j);
    }
    assert Values(GridRow(surface, eu, ev, i), c) == Values(CurveRow(row, ev.span), c);
  }

  // ---------------------------------------------------------------- cylinders

  // Component k of the d values of control i in a is that of control j in b.
  predicate Component(a: seq<real>, i: nat, b: seq<real>, j: nat, d: nat, k: nat) {
    i * d + k < |a| && j * d + k < |b| && a[i * d + k] == b[j * d + k]
  }

  predicate Stored(a: seq<real>, i: nat, b: seq<real>, j: nat, d: nat) {
    forall k :: 0 <= k < d ==> Component(a, i, b, j, d, k)
  }

  // The d values from (i * n_v + j) * d on are those of control k of a curve.
  predicate GridStores(surface: NurbsSurface, i: nat, j: nat, values: seq<real>, k: nat) {
    Stored(surface.controls.values, i * surface.v.controlCount + j, values, k, surface.controls.dimension)
  }

  // All values stored for control (i, j) depend on i only, and on j only.
  ghost predicate AlongU(surface: NurbsSurface, values: seq<real>) {
    && |values| == surface.u.controlCount * surface.controls.dimension
    && forall i, j :: 0 <= i < surface.u.controlCount && 0 <= j < surface.v.controlCount ==>
         GridStores(surface, i, j, values, i)
  }

  ghost predicate AlongV(surface: NurbsSurface, values: seq<real>) {
    && |values| == surface.v.controlCount * surface.controls.dimension
    && forall i, j :: 0 <= i < surface.u.controlCount && 0 <= j < surface.v.controlCount ==>
         GridStores(surface, i, j, values, j)
  }

  // The same controls with the values of a curve.
  function CurveOf(axis: SplineAxis, surface: NurbsSurface, values: seq<real>): NurbsCurve {
    NurbsCurve(axis, surface.controls.(values := values))
  }

  lemma SameControl(a: SplineControlNet, m: nat, s: bool, i: nat, b: SplineControlNet, n: nat, t: bool, j: nat)
    requires ValidControls(a, m, s) && i < m && ValidControls(b, n, t) && j < n
    requires a.dimension == b.dimension && a.rational == b.rational
    requires Stored(a.values, i, b.values, j, a.dimension)
    ensures Control(a, m, s, i) == Control(b, n, t, j)
  {
    var d := a.dimension;
    assert Component(a.values, i, b.values, j, d, 0);
    assert Component(a.values, i, b.values, j, d, 1);
    assert d > 2 ==> Component(a.values, i, b.values, j, d, 2);
    assert Component(a.values, i, b.values, j, d, d - 1);
  }

  lemma GridIs(surface: NurbsSurface, i: nat, j: nat, curve: NurbsCurve, k: nat)
    requires ValidSurface(surface) && ValidCurve(curve) && k < curve.axis.controlCount
    requires curve.controls == surface.controls.(values := curve.controls.values)
    requires i < surface.u.controlCount && j < surface.v.controlCount
    requires GridStores(surface, i, j, curve.controls.values, k)
    ensures GridControl(surface, i, j) == Control(curve.controls, curve.axis.controlCount, false, k)
  {
    hide Control, ValidAxis, ValidControls, Stored;
    ControlIndex(surface.v.controlCount, surface.u.controlCount, i, j);
    SameControl(surface.controls, ControlCount(surface), true, i * surface.v.controlCount + j, curve.controls,
                curve.axis.controlCount, false, k);
  }

  lemma AlongUControl(surface: NurbsSurface, values: seq<real>, i: nat, j: nat)
    requires ValidSurface(surface) && AlongU(surface, values) && ValidCurve(CurveOf(surface.u, surface, values))
    requires i < surface.u.controlCount && j < surface.v.controlCount
    ensures GridControl(surface, i, j)
         == Control(CurveOf(surface.u, surface, values).controls, surface.u.controlCount, false, i)
  {
    hide GridControl, Control, ValidAxis, ValidControls, GridStores;
    assert GridStores(surface, i, j, values, i);
    GridIs(surface, i, j, CurveOf(surface.u, surface, values), i);
  }

  lemma AlongVControl(surface: NurbsSurface, values: seq<real>, i: nat, j: nat)
    requires ValidSurface(surface) && AlongV(surface, values) && ValidCurve(CurveOf(surface.v, surface, values))
    requires i < surface.u.controlCount && j < surface.v.controlCount
    ensures GridControl(surface, i, j)
         == Control(CurveOf(surface.v, surface, values).controls, surface.v.controlCount, false, j)
  {
    hide GridControl, Control, ValidAxis, ValidControls, GridStores;
    assert GridStores(surface, i, j, values, j);
    GridIs(surface, i, j, CurveOf(surface.v, surface, values), j);
  }

  lemma AlongUTensor(surface: NurbsSurface, values: seq<real>, eu: AxisEvaluation, ev: AxisEvaluation, c: nat)
    requires ValidSurface(surface) && AlongU(surface, values) && ValidCurve(CurveOf(surface.u, surface, values))
    requires ActiveSpans(surface, eu, ev) && c < 4
    ensures var curve := CurveOf(surface.u, surface, values);
      && TensorValue(surface, eu, ev, c) == HomogeneousValue(curve, eu, c)
      && TensorU(surface, eu, ev, c) == HomogeneousSlope(curve, eu, c)
      && TensorV(surface, eu, ev, c) == 0.0
  {
    hide Value, Slope, ValidAxis, ValidControls, GridControl, Control, Window, AlongU, FullKnots, DomainEnd, LocalKnots;
    ActiveSpanIsSpan(surface.u, eu);
    ActiveSpanIsSpan(surface.v, ev);
    var curve, net := CurveOf(surface.u, surface, values), ActiveNet(surface, eu, ev, c);
    var row := Values(CurveRow(curve, eu.span), c);
    forall i | 0 <= i <= eu.degree
      ensures net[i] == Repeat(row[i], ev.degree + 1)
    {
      forall j | 0 <= j <= ev.degree
        ensures net[i][j] == row[i]
      {
        AlongUControl(surface, values, eu.span - eu.degree + i, ev.span - ev.degree + j);
      }
    }
    forall i | 0 <= i <= eu.degree
      ensures RowValues(net, eu.degree, ev.degree, LocalKnots(ev), ev.parameter)[i] == row[i]
      ensures RowSlopes(net, eu.degree, ev.degree, LocalKnots(ev), ev.parameter)[i] == 0.0
    {
      ConstantRow(ev.degree, LocalKnots(ev), row[i], ev.parameter);
    }
    assert RowValues(net, eu.degree, ev.degree, LocalKnots(ev), ev.parameter) == row;
    assert RowSlopes(net, eu.degree, ev.degree, LocalKnots(ev), ev.parameter) == Repeat(0.0, eu.degree + 1);
    ConstantRow(eu.degree, LocalKnots(eu), 0.0, eu.parameter);
  }

  lemma AlongVTensor(surface: NurbsSurface, values: seq<real>, eu: AxisEvaluation, ev: AxisEvaluation, c: nat)
    requires ValidSurface(surface) && AlongV(surface, values) && ValidCurve(CurveOf(surface.v, surface, values))
    requires ActiveSpans(surface, eu, ev) && c < 4
    ensures var curve := CurveOf(surface.v, surface, values);
      && TensorValue(surface, eu, ev, c) == HomogeneousValue(curve, ev, c)
      && TensorU(surface, eu, ev, c) == 0.0
      && TensorV(surface, eu, ev, c) == HomogeneousSlope(curve, ev, c)
  {
    hide Value, Slope, ValidAxis, ValidControls, GridControl, Control, Window, AlongV, FullKnots, DomainEnd, LocalKnots;
    ActiveSpanIsSpan(surface.u, eu);
    ActiveSpanIsSpan(surface.v, ev);
    var curve, net := CurveOf(surface.v, surface, values), ActiveNet(surface, eu, ev, c);
    var row := Values(CurveRow(curve, ev.span), c);
    var value, slope := HomogeneousValue(curve, ev, c), HomogeneousSlope(curve, ev, c);
    forall i | 0 <= i <= eu.degree
      ensures net[i] == row
    {
      forall j | 0 <= j <= ev.degree
        ensures net[i][j] == row[j]
      {
        AlongVControl(surface, values, eu.span - eu.degree + i, ev.span - ev.degree + j);
      }
    }
    assert RowValues(net, eu.degree, ev.degree, LocalKnots(ev), ev.parameter) == Repeat(value, eu.degree + 1);
    assert RowSlopes(net, eu.degree, ev.degree, LocalKnots(ev), ev.parameter) == Repeat(slope, eu.degree + 1);
    ConstantRow(eu.degree, LocalKnots(eu), value, eu.parameter);
    ConstantRow(eu.degree, LocalKnots(eu), slope, eu.parameter);
  }

  lemma NoSlope(w: real, x: real, dv: real)
    requires w > 0.0 && dv * w + x * 0.0 == 0.0
    ensures dv == 0.0
  {
    if dv != 0.0 {
      NonzeroProduct(dv, w);
    }
  }

  lemma NonzeroProduct(a: real, b: real)
    requires a != 0.0 && b > 0.0
    ensures a * b != 0.0
  {
  }

  // A net that does not change in v is the curve in u, at rest in v.
  lemma CylinderAlongU(surface: NurbsSurface, values: seq<real>, eu: AxisEvaluation, ev: AxisEvaluation, c: nat,
                       x: real, du: real, dv: real)
    requires ValidSurface(surface) && AlongU(surface, values) && ValidCurve(CurveOf(surface.u, surface, values))
    requires ActiveSpans(surface, eu, ev) && c < 3 && SurfaceCoordinateIs(surface, eu, ev, c, x, du, dv)
    ensures CoordinateIs(CurveOf(surface.u, surface, values), eu, c, x, du) && dv == 0.0
  {
    hide TensorValue, TensorU, TensorV, HomogeneousValue, HomogeneousSlope, AlongU, ValidCurve, ValidSurface, ActiveSpan;
    AlongUTensor(surface, values, eu, ev, c);
    AlongUTensor(surface, values, eu, ev, 3);
    NoSlope(TensorValue(surface, eu, ev, 3), x, dv);
  }

  // A net that does not change in u is the curve in v, at rest in u.
  lemma CylinderAlongV(surface: NurbsSurface, values: seq<real>, eu: AxisEvaluation, ev: AxisEvaluation, c: nat,
                       x: real, du: real, dv: real)
    requires ValidSurface(surface) && AlongV(surface, values) && ValidCurve(CurveOf(surface.v, surface, values))
    requires ActiveSpans(surface, eu, ev) && c < 3 && SurfaceCoordinateIs(surface, eu, ev, c, x, du, dv)
    ensures CoordinateIs(CurveOf(surface.v, surface, values), ev, c, x, dv) && du == 0.0
  {
    hide TensorValue, TensorU, TensorV, HomogeneousValue, HomogeneousSlope, AlongV, ValidCurve, ValidSurface, ActiveSpan;
    AlongVTensor(surface, values, eu, ev, c);
    AlongVTensor(surface, values, eu, ev, 3);
    NoSlope(TensorValue(surface, eu, ev, 3), x, du);
  }
}
