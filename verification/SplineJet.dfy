// What the derivative slot of Interpolate computes, and where its values lie.
module SplineJet {
  import opened DeBoor
  import opened Polynomial

  function Width(p: nat, knots: seq<real>, level: nat, j: nat): (w: real)
    requires Window(p, knots) && 1 <= level <= j <= p
    ensures w > 0.0
  {
    knots[j + p + 1 - level] - knots[j]
  }

  // Entry of the value scheme when every level uses the same parameter.
  function ValueAt(p: nat, knots: seq<real>, row: seq<real>, t: real, level: nat, j: nat): real
    requires Window(p, knots) && |row| == p + 1 && level <= j <= p
  {
    Entry(p, knots, row, Repeat(t, p), level, j)
  }

  lemma ValueStep(p: nat, knots: seq<real>, row: seq<real>, t: real, level: nat, j: nat)
    requires Window(p, knots) && |row| == p + 1 && 1 <= level <= j <= p
    ensures ValueAt(p, knots, row, t, level, j)
         == Lerp(ValueAt(p, knots, row, t, level - 1, j - 1), ValueAt(p, knots, row, t, level - 1, j),
                 Alpha(p, knots, level, j, t))
  {
  }

  // Entry of the derivative slot: `slopes` holds the slot's initial contents.
  function SlopeAt(p: nat, knots: seq<real>, row: seq<real>, slopes: seq<real>, t: real, level: nat, j: nat): real
    requires Window(p, knots) && |row| == |slopes| == p + 1 && level <= j <= p
    decreases level
  {
    if level == 0 then slopes[j]
    else Lerp(SlopeAt(p, knots, row, slopes, t, level - 1, j - 1),
              SlopeAt(p, knots, row, slopes, t, level - 1, j),
              Alpha(p, knots, level, j, t))
         + Ratio(ValueAt(p, knots, row, t, level - 1, j) - ValueAt(p, knots, row, t, level - 1, j - 1),
                 Width(p, knots, level, j))
  }

  // The derivative slot after Interpolate, when it started at zero.
  function Slope(p: nat, knots: seq<real>, row: seq<real>, t: real): real
    requires Window(p, knots) && |row| == p + 1
  {
    SlopeAt(p, knots, row, Repeat(0.0, p + 1), t, p, p)
  }

  // The entry as a polynomial in the distance h from t.
  function EntryPolynomial(p: nat, knots: seq<real>, row: seq<real>, t: real, level: nat, j: nat): (q: seq<real>)
    requires Window(p, knots) && |row| == p + 1 && level <= j <= p
    ensures |q| == level + 1
    decreases level
  {
    if level == 0 then [row[j]]
    else LerpLinear(EntryPolynomial(p, knots, row, t, level - 1, j - 1),
                    EntryPolynomial(p, knots, row, t, level - 1, j),
                    Alpha(p, knots, level, j, t), 1.0 / Width(p, knots, level, j))
  }

  lemma AlphaShifted(p: nat, knots: seq<real>, level: nat, j: nat, t: real, h: real)
    requires Window(p, knots) && 1 <= level <= j <= p
    ensures Alpha(p, knots, level, j, t + h)
         == Alpha(p, knots, level, j, t) + 1.0 / Width(p, knots, level, j) * h
  {
    var w := Width(p, knots, level, j);
    var a, i := Alpha(p, knots, level, j, t), 1.0 / w;
    assert a * w == t - knots[j] && i * w == 1.0;
    assert (a + i * h) * w == t + h - knots[j];
  }

  lemma EvalStep(p: nat, knots: seq<real>, level: nat, j: nat, t: real, h: real, q: seq<real>, r: seq<real>)
    requires Window(p, knots) && 1 <= level <= j <= p && |q| == |r|
    ensures Eval(LerpLinear(q, r, Alpha(p, knots, level, j, t), 1.0 / Width(p, knots, level, j)), h)
         == Lerp(Eval(q, h), Eval(r, h), Alpha(p, knots, level, j, t + h))
  {
    AlphaShifted(p, knots, level, j, t, h);
    EvalLerpLinear(q, r, Alpha(p, knots, level, j, t), 1.0 / Width(p, knots, level, j), h,
                   Alpha(p, knots, level, j, t + h));
  }

  lemma {:induction false} EvalEntryPolynomial(p: nat, knots: seq<real>, row: seq<real>, t: real, h: real,
                                               level: nat, j: nat)
    requires Window(p, knots) && |row| == p + 1 && level <= j <= p
    ensures Eval(EntryPolynomial(p, knots, row, t, level, j), h) == ValueAt(p, knots, row, t + h, level, j)
    decreases level
  {
    hide Lerp, Alpha, Width, Ratio;
    if level == 0 {
      var q := EntryPolynomial(p, knots, row, t, 0, j);
      assert Eval(q, h) == Horner(row[j], h, Eval(q[1..], h));
    } else {
      EvalEntryPolynomial(p, knots, row, t, h, level - 1, j - 1);
      EvalEntryPolynomial(p, knots, row, t, h, level - 1, j);
      ValueStep(p, knots, row, t + h, level, j);
      EvalStep(p, knots, level, j, t, h, EntryPolynomial(p, knots, row, t, level - 1, j - 1),
               EntryPolynomial(p, knots, row, t, level - 1, j));
    }
  }

  lemma {:induction false} EntryPolynomialLow(p: nat, knots: seq<real>, row: seq<real>, t: real, level: nat, j: nat)
    requires Window(p, knots) && |row| == p + 1 && level <= j <= p
    ensures EntryPolynomial(p, knots, row, t, level, j)[0] == ValueAt(p, knots, row, t, level, j)
    ensures level > 0 ==>
      EntryPolynomial(p, knots, row, t, level, j)[1] == SlopeAt(p, knots, row, Repeat(0.0, p + 1), t, level, j)
    decreases level
  {
    hide Lerp, Alpha, Width, Ratio;
    if level > 0 {
      EntryPolynomialLow(p, knots, row, t, level - 1, j - 1);
      EntryPolynomialLow(p, knots, row, t, level - 1, j);
      var a, w := Alpha(p, knots, level, j, t), Width(p, knots, level, j);
      LerpLinearLow(EntryPolynomial(p, knots, row, t, level - 1, j - 1),
                    EntryPolynomial(p, knots, row, t, level - 1, j), a, 1.0 / w);
      LerpZero(a);
      QuotientAsProduct(ValueAt(p, knots, row, t, level - 1, j) - ValueAt(p, knots, row, t, level - 1, j - 1), w);
    }
  }

  lemma LerpZero(t: real)
    ensures Lerp(0.0, 0.0, t) == 0.0
  {
  }

  lemma QuotientAsProduct(x: real, w: real)
    requires w > 0.0
    ensures 1.0 / w * x == Ratio(x, w)
  {
    var i, q := 1.0 / w, x / w;
    assert i * w == 1.0 && q * w == x;
    assert (i * x - q) * w == 0.0;
  }

  // The derivative slot is the derivative of the value, for every degree,
  // knot window, control row and parameter.
  lemma SlopeIsDerivative(p: nat, knots: seq<real>, row: seq<real>, t: real)
    requires Window(p, knots) && |row| == p + 1
    ensures HasDerivative(x => Value(p, knots, row, x), t, Slope(p, knots, row, t))
  {
    var f := x => Value(p, knots, row, x);
    var q := EntryPolynomial(p, knots, row, t, p, p);
    forall h
      ensures f(t + h) == Eval(q, h)
    {
      EvalEntryPolynomial(p, knots, row, t, h, p, p);
    }
    EntryPolynomialLow(p, knots, row, t, p, p);
    ExpansionGivesDerivative(f, t, q);
  }

  // ---------------------------------------------------------------- positions

  // The span [knots[p], knots[p + 1]] of a nondecreasing knot vector.
  predicate Span(p: nat, knots: seq<real>, t: real) {
    && Window(p, knots)
    && (forall i, j :: 0 <= i <= j < |knots| ==> knots[i] <= knots[j])
    && knots[p] <= t <= knots[p + 1]
  }

  lemma AlphaInUnit(p: nat, knots: seq<real>, level: nat, j: nat, t: real)
    requires Span(p, knots, t) && 1 <= level <= j <= p
    ensures 0.0 <= Alpha(p, knots, level, j, t) <= 1.0
  {
    var a, w := Alpha(p, knots, level, j, t), Width(p, knots, level, j);
    assert knots[j] <= knots[p] <= t <= knots[p + 1] <= knots[j + p + 1 - level];
    assert a * w == t - knots[j];
    assert (1.0 - a) * w == knots[j + p + 1 - level] - t;
    NonNegativeFactor(a, w);
    NonNegativeFactor(1.0 - a, w);
  }

  lemma NonNegativeFactor(a: real, w: real)
    requires w > 0.0 && a * w >= 0.0
    ensures a >= 0.0
  {
  }

  lemma ProductPositive(x: real, y: real)
    requires x > 0.0 && y > 0.0
    ensures x * y > 0.0
  {
  }

  lemma LerpWithin(a: real, b: real, t: real, low: real, high: real)
    requires 0.0 <= t <= 1.0 && low <= a <= high && low <= b <= high
    ensures low <= Lerp(a, b, t) <= high
  {
    ProductNonNegative(t, b - low);
    ProductNonNegative(1.0 - t, a - low);
    ProductNonNegative(t, high - b);
    ProductNonNegative(1.0 - t, high - a);
    assert Lerp(a, b, t) - low == t * (b - low) + (1.0 - t) * (a - low);
    assert high - Lerp(a, b, t) == t * (high - b) + (1.0 - t) * (high - a);
  }

  // An entry lies in the range of the controls it depends on.
  lemma {:induction false} EntryWithin(p: nat, knots: seq<real>, row: seq<real>, t: real, level: nat, j: nat,
                                       low: real, high: real)
    requires Span(p, knots, t) && |row| == p + 1 && level <= j <= p
    requires forall k :: j - level <= k <= j ==> low <= row[k] <= high
    ensures low <= ValueAt(p, knots, row, t, level, j) <= high
    decreases level
  {
    hide Lerp, Alpha;
    if level > 0 {
      EntryWithin(p, knots, row, t, level - 1, j - 1, low, high);
      EntryWithin(p, knots, row, t, level - 1, j, low, high);
      AlphaInUnit(p, knots, level, j, t);
      LerpWithin(ValueAt(p, knots, row, t, level - 1, j - 1), ValueAt(p, knots, row, t, level - 1, j),
                 Alpha(p, knots, level, j, t), low, high);
    }
  }

  function Excess(x: real, bound: real, w: real): real {
    x - bound * w
  }

  lemma LerpOfExcess(x0: real, x1: real, w0: real, w1: real, t: real, bound: real)
    ensures Excess(Lerp(x0, x1, t), bound, Lerp(w0, w1, t)) == Lerp(Excess(x0, bound, w0), Excess(x1, bound, w1), t)
  {
  }

  // Bounds relative to the weights survive every level.
  lemma {:induction false} WeightedWithin(p: nat, knots: seq<real>, xs: seq<real>, ws: seq<real>, t: real, level: nat,
                                          j: nat, low: real, high: real)
    requires Span(p, knots, t) && |xs| == |ws| == p + 1 && level <= j <= p
    requires forall k :: 0 <= k <= p ==> Excess(xs[k], low, ws[k]) >= 0.0 && Excess(xs[k], high, ws[k]) <= 0.0
    ensures Excess(ValueAt(p, knots, xs, t, level, j), low, ValueAt(p, knots, ws, t, level, j)) >= 0.0
    ensures Excess(ValueAt(p, knots, xs, t, level, j), high, ValueAt(p, knots, ws, t, level, j)) <= 0.0
    decreases level
  {
    hide Excess, Lerp, Alpha;
    if level > 0 {
      WeightedWithin(p, knots, xs, ws, t, level - 1, j - 1, low, high);
      WeightedWithin(p, knots, xs, ws, t, level - 1, j, low, high);
      var a := Alpha(p, knots, level, j, t);
      var x0, x1 := ValueAt(p, knots, xs, t, level - 1, j - 1), ValueAt(p, knots, xs, t, level - 1, j);
      var w0, w1 := ValueAt(p, knots, ws, t, level - 1, j - 1), ValueAt(p, knots, ws, t, level - 1, j);
      AlphaInUnit(p, knots, level, j, t);
      ValueStep(p, knots, xs, t, level, j);
      ValueStep(p, knots, ws, t, level, j);
      LerpOfExcess(x0, x1, w0, w1, a, low);
      LerpOfExcess(x0, x1, w0, w1, a, high);
      LerpSign(Excess(x0, low, w0), Excess(x1, low, w1), a);
      LerpSign(Excess(x0, high, w0), Excess(x1, high, w1), a);
    }
  }

  lemma LerpSign(a: real, b: real, t: real)
    requires 0.0 <= t <= 1.0
    ensures a >= 0.0 && b >= 0.0 ==> Lerp(a, b, t) >= 0.0
    ensures a <= 0.0 && b <= 0.0 ==> Lerp(a, b, t) <= 0.0
  {
    if a >= 0.0 && b >= 0.0 {
      LerpWithin(a, b, t, 0.0, a + b);
    }
    if a <= 0.0 && b <= 0.0 {
      LerpWithin(a, b, t, a + b, 0.0);
    }
  }

  lemma QuotientBetween(x: real, w: real, point: real, low: real, high: real)
    requires w > 0.0 && point * w == x && Excess(x, low, w) >= 0.0 && Excess(x, high, w) <= 0.0
    ensures low <= point <= high
  {
    assert (point - low) * w >= 0.0 && (high - point) * w >= 0.0;
  }

  // Positive controls give a positive value.
  lemma PositiveValue(p: nat, knots: seq<real>, row: seq<real>, t: real)
    requires Span(p, knots, t) && |row| == p + 1
    requires forall k :: 0 <= k <= p ==> row[k] > 0.0
    ensures Value(p, knots, row, t) > 0.0
  {
    var low, high := RowRange(row);
    EntryWithin(p, knots, row, t, p, p, low, high);
  }

  lemma {:induction false} RowRange(row: seq<real>) returns (low: real, high: real)
    requires row != []
    ensures low in row && high in row
    ensures forall k :: 0 <= k < |row| ==> low <= row[k] <= high
  {
    low, high := row[0], row[0];
    if |row| > 1 {
      var l, h := RowRange(row[1..]);
      low := if l < low then l else low;
      high := if h > high then h else high;
      assert forall k :: 1 <= k < |row| ==> row[k] == row[1..][k - 1];
    }
  }

  // A strictly increasing control row stays strictly increasing on every
  // level: two neighbours cannot sit at opposite ends of their own intervals.
  lemma {:induction false} EntriesIncrease(p: nat, knots: seq<real>, row: seq<real>, t: real, level: nat, j: nat)
    requires Span(p, knots, t) && |row| == p + 1 && level < j <= p
    requires forall k :: 1 <= k <= p ==> row[k - 1] < row[k]
    ensures ValueAt(p, knots, row, t, level, j - 1) < ValueAt(p, knots, row, t, level, j)
    decreases level
  {
    hide Lerp, Alpha, Width, Ratio;
    if level > 0 {
      EntriesIncrease(p, knots, row, t, level - 1, j - 1);
      EntriesIncrease(p, knots, row, t, level - 1, j);
      AlphaInUnit(p, knots, level, j - 1, t);
      AlphaInUnit(p, knots, level, j, t);
      NotBothExtreme(p, knots, level, j, t);
      ValueStep(p, knots, row, t, level, j - 1);
      ValueStep(p, knots, row, t, level, j);
      LerpsIncrease(ValueAt(p, knots, row, t, level - 1, j - 2), ValueAt(p, knots, row, t, level - 1, j - 1),
                    ValueAt(p, knots, row, t, level - 1, j),
                    Alpha(p, knots, level, j - 1, t), Alpha(p, knots, level, j, t));
    }
  }

  lemma NotBothExtreme(p: nat, knots: seq<real>, level: nat, j: nat, t: real)
    requires Span(p, knots, t) && 1 <= level < j <= p
    ensures Alpha(p, knots, level, j - 1, t) < 1.0 || Alpha(p, knots, level, j, t) > 0.0
  {
    assert knots[j] <= knots[p] && knots[p + 1] <= knots[j + p - level];
    if knots[j] < t {
      PositiveQuotient(t - knots[j], Width(p, knots, level, j));
    } else {
      PositiveQuotient(knots[j + p - level] - t, Width(p, knots, level, j - 1));
      var a, w := Alpha(p, knots, level, j - 1, t), Width(p, knots, level, j - 1);
      assert a * w == t - knots[j - 1];
      assert (1.0 - a) * w > 0.0;
    }
  }

  lemma LerpsIncrease(x: real, y: real, z: real, a: real, b: real)
    requires x < y < z && 0.0 <= a <= 1.0 && 0.0 <= b <= 1.0 && (a < 1.0 || b > 0.0)
    ensures Lerp(x, y, a) < Lerp(y, z, b)
  {
    LerpBelow(x, y, a);
    LerpAbove(y, z, b);
  }

  lemma LerpBelow(x: real, y: real, t: real)
    requires x < y && t <= 1.0
    ensures Lerp(x, y, t) <= y && (t < 1.0 ==> Lerp(x, y, t) < y)
  {
    var r, gap := 1.0 - t, y - x;
    assert Lerp(x, y, t) == x + t * gap;
    assert t * gap + r * gap == gap;
    ProductNonNegative(r, gap);
    if t < 1.0 {
      ProductPositive(r, gap);
    }
  }

  lemma LerpAbove(x: real, y: real, t: real)
    requires x < y && t >= 0.0
    ensures Lerp(x, y, t) >= x && (t > 0.0 ==> Lerp(x, y, t) > x)
  {
    var gap := y - x;
    assert Lerp(x, y, t) == x + t * gap;
    ProductNonNegative(t, gap);
    if t > 0.0 {
      ProductPositive(t, gap);
    }
  }

  // A strictly increasing control row has a positive derivative.
  lemma {:induction false} SlopePositive(p: nat, knots: seq<real>, row: seq<real>, t: real, level: nat, j: nat)
    requires Span(p, knots, t) && |row| == p + 1 && level <= j <= p
    requires forall k :: 1 <= k <= p ==> row[k - 1] < row[k]
    ensures SlopeAt(p, knots, row, Repeat(0.0, p + 1), t, level, j) >= 0.0
    ensures level > 0 ==> SlopeAt(p, knots, row, Repeat(0.0, p + 1), t, level, j) > 0.0
    decreases level
  {
    hide Lerp, Alpha, Width, Ratio;
    if level > 0 {
      SlopePositive(p, knots, row, t, level - 1, j - 1);
      SlopePositive(p, knots, row, t, level - 1, j);
      EntriesIncrease(p, knots, row, t, level - 1, j);
      AlphaInUnit(p, knots, level, j, t);
      var zero := Repeat(0.0, p + 1);
      var x, y := SlopeAt(p, knots, row, zero, t, level - 1, j - 1), SlopeAt(p, knots, row, zero, t, level - 1, j);
      LerpWithin(x, y, Alpha(p, knots, level, j, t), 0.0, x + y);
      PositiveQuotient(ValueAt(p, knots, row, t, level - 1, j) - ValueAt(p, knots, row, t, level - 1, j - 1),
                       Width(p, knots, level, j));
    }
  }

  lemma PositiveQuotient(x: real, w: real)
    requires x > 0.0 && w > 0.0
    ensures Ratio(x, w) > 0.0
  {
    var q := x / w;
    assert q * w == x;
  }

  lemma ZeroRow(p: nat, knots: seq<real>, t: real)
    requires Window(p, knots)
    ensures Value(p, knots, Repeat(0.0, p + 1), t) == 0.0
  {
    ZeroEntry(p, knots, t, p, p);
  }

  lemma {:induction false} ZeroEntry(p: nat, knots: seq<real>, t: real, level: nat, j: nat)
    requires Window(p, knots) && level <= j <= p
    ensures ValueAt(p, knots, Repeat(0.0, p + 1), t, level, j) == 0.0
    decreases level
  {
    hide Lerp, Alpha;
    if level > 0 {
      ZeroEntry(p, knots, t, level - 1, j - 1);
      ZeroEntry(p, knots, t, level - 1, j);
      ValueStep(p, knots, Repeat(0.0, p + 1), t, level, j);
      LerpZero(Alpha(p, knots, level, j, t));
    }
  }

  // ---------------------------------------------------------------- constant controls

  // The derivative slot started at zero.
  function SlopeFrom(p: nat, knots: seq<real>, row: seq<real>, t: real, level: nat, j: nat): real
    requires Window(p, knots) && |row| == p + 1 && level <= j <= p
  {
    SlopeAt(p, knots, row, Repeat(0.0, p + 1), t, level, j)
  }

  lemma SlopeStep(p: nat, knots: seq<real>, row: seq<real>, t: real, level: nat, j: nat)
    requires Window(p, knots) && |row| == p + 1 && 1 <= level <= j <= p
    ensures SlopeFrom(p, knots, row, t, level, j)
         == Lerp(SlopeFrom(p, knots, row, t, level - 1, j - 1), SlopeFrom(p, knots, row, t, level - 1, j),
                 Alpha(p, knots, level, j, t))
            + Ratio(ValueAt(p, knots, row, t, level - 1, j) - ValueAt(p, knots, row, t, level - 1, j - 1),
                    Width(p, knots, level, j))
  {
  }

  lemma {:induction false} ConstantEntries(p: nat, knots: seq<real>, c: real, t: real, level: nat, j: nat)
    requires Window(p, knots) && level <= j <= p
    ensures ValueAt(p, knots, Repeat(c, p + 1), t, level, j) == c
    ensures SlopeFrom(p, knots, Repeat(c, p + 1), t, level, j) == 0.0
    decreases level
  {
    hide Alpha, Lerp, Ratio, Width;
    if level > 0 {
      ConstantEntries(p, knots, c, t, level - 1, j - 1);
      ConstantEntries(p, knots, c, t, level - 1, j);
      ValueStep(p, knots, Repeat(c, p + 1), t, level, j);
      SlopeStep(p, knots, Repeat(c, p + 1), t, level, j);
      LerpSame(c, Alpha(p, knots, level, j, t));
      LerpSame(0.0, Alpha(p, knots, level, j, t));
      RatioZero(Width(p, knots, level, j));
    }
  }

  lemma LerpSame(c: real, t: real)
    ensures Lerp(c, c, t) == c
  {
  }

  lemma RatioZero(w: real)
    requires w > 0.0
    ensures Ratio(0.0, w) == 0.0
  {
  }
}
