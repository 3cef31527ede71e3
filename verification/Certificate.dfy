// Span-wise certificate that a projected curve has a positive derivative.
module Certificate {
  import opened Reals
  import opened Integers
  import opened DeBoor
  import opened Bernstein
  import opened IntervalArithmetic
  import opened Subdivision

  const CERTIFIED_DEGREE := 7
  const WORD := 0x1_0000_0000

  // ---------------------------------------------------------------- binomials

  lemma {:induction false} ChooseBound(n: nat, k: nat)
    ensures Choose(n, k) <= Power2(n)
  {
    if n > 0 && k > 0 {
      ChooseBound(n - 1, k - 1);
      ChooseBound(n - 1, k);
    }
  }

  lemma ChooseSmall(n: nat, k: nat)
    requires n <= 2 * CERTIFIED_DEGREE - 1
    ensures Choose(n, k) <= 8192
  {
    ChooseBound(n, k);
    Power2Monotone(n, 13);
    assert Power2(13) == 8192;
  }

  // The multiplicative formula in 32-bit words: every division is exact and no
  // product wraps around for the arguments the certificate uses.
  method Binomial(n: nat, k: nat) returns (result: nat)
    requires n <= 2 * CERTIFIED_DEGREE - 1
    ensures result == Choose(n, k)
  {
    result := 1;
    for i := 1 to k + 1
      invariant result == Choose(n, i - 1)
    {
      BinomialStep(n, i);
      result := WordStep(result, n + 1 - i, i);
    }
  }

  lemma BinomialStep(n: nat, i: nat)
    requires 1 <= i && n <= 2 * CERTIFIED_DEGREE - 1
    ensures WordStep(Choose(n, i - 1), n + 1 - i, i) == Choose(n, i)
  {
    ChooseStep(n, i);
    ChooseSmall(n, i - 1);
    hide Choose, WordStep;
    if i > n + 1 {
      ChooseOutside(n, i - 1);
      ChooseOutside(n, i);
      ZeroStep(n + 1 - i, i);
    } else {
      ExactStep(Choose(n, i - 1), Choose(n, i), n + 1 - i, i);
    }
  }

  // result * factor / i in 32-bit unsigned arithmetic.
  function WordStep(result: nat, factor: int, i: nat): nat
    requires i >= 1
  {
    ((result * (factor % WORD)) % WORD) / i
  }

  lemma ZeroStep(factor: int, i: nat)
    requires i >= 1
    ensures WordStep(0, factor, i) == 0
  {
    assert 0 * (factor % WORD) == 0;
  }

  lemma ExactStep(a: nat, b: nat, f: nat, i: nat)
    requires i >= 1 && a <= 8192 && f <= 13 && b * i == a * f
    ensures WordStep(a, f, i) == b
  {
    assert a * f <= 8192 * f <= 8192 * 13;
    assert f % WORD == f && (a * f) % WORD == a * f;
    DivideMultiple(b, i, 0);
  }

  // ---------------------------------------------------------------- extraction

  datatype Pole = Pole(value: Interval, weight: Interval)

  const POLES := CERTIFIED_DEGREE + 1

  // Exact numerator and weight controls lie in the recorded intervals.
  predicate SpanEncloses(poles: seq<Pole>, a: seq<real>, w: seq<real>) {
    && |a| == |w| <= |poles|
    && forall i :: 0 <= i < |a| ==> poles[i].value.Contains(a[i]) && poles[i].weight.Contains(w[i])
  }

  function AlphaInterval(ar: Arithmetic, argument: real, low: real, high: real): Interval {
    Divide(ar, Subtract(ar, Exact(argument), Exact(low)), Subtract(ar, Exact(high), Exact(low)))
  }

  lemma AlphaEnclosed(ar: Arithmetic, p: nat, local: seq<real>, level: nat, j: nat, x: real)
    requires ar.Outward() && Window(p, local) && 1 <= level <= j <= p
    ensures AlphaInterval(ar, x, local[j], local[j + p + 1 - level]).Contains(Alpha(p, local, level, j, x))
  {
    var low, high := local[j], local[j + p + 1 - level];
    hide Subtract, Divide;
    SubtractContains(ar, Exact(x), Exact(low), x, low);
    SubtractContains(ar, Exact(high), Exact(low), high, low);
    DivideContains(ar, Subtract(ar, Exact(x), Exact(low)), Subtract(ar, Exact(high), Exact(low)), x - low, high - low);
  }

  function MixPoles(ar: Arithmetic, left: Pole, right: Pole, alpha: Interval): Pole {
    Pole(Mix(ar, left.value, right.value, alpha), Mix(ar, left.weight, right.weight, alpha))
  }

  // The triangular scheme in interval arithmetic.
  function PoleEntry(ar: Arithmetic, source: seq<Pole>, p: nat, local: seq<real>, args: seq<real>, level: nat, j: nat):
    Pole
    requires |local| == 2 * p + 1 && level <= j <= p < |source| && level <= |args|
    decreases level
  {
    if level == 0 then source[j]
    else
      MixPoles(ar, PoleEntry(ar, source, p, local, args, level - 1, j - 1),
               PoleEntry(ar, source, p, local, args, level - 1, j),
               AlphaInterval(ar, args[level - 1], local[j], local[j + p + 1 - level]))
  }

  const NO_POLE := Pole(Exact(0.0), Exact(0.0))

  // Pole i of the span [low, high].
  function SpanPole(ar: Arithmetic, source: seq<Pole>, p: nat, local: seq<real>, low: real, high: real, i: nat): Pole
    requires |local| == 2 * p + 1 && p < |source|
  {
    if i <= p then PoleEntry(ar, source, p, local, MixedArgs(p, 0, i, low, low, high), p, p) else NO_POLE
  }

  function SpanPoles(ar: Arithmetic, source: seq<Pole>, p: nat, local: seq<real>, low: real, high: real):
    (r: seq<Pole>)
    requires |local| == 2 * p + 1 && p < |source|
    ensures |r| == POLES
  {
    seq(POLES, i requires 0 <= i < POLES => SpanPole(ar, source, p, local, low, high, i))
  }

  lemma MixEntry(ar: Arithmetic, p: nat, local: seq<real>, a: seq<real>, args: seq<real>, level: nat, j: nat,
                 x: Interval, y: Interval, alpha: Interval)
    requires ar.Outward() && Window(p, local) && |a| == p + 1 && |args| == p && 1 <= level <= j <= p
    requires x.Contains(Entry(p, local, a, args, level - 1, j - 1)) && y.Contains(Entry(p, local, a, args, level - 1, j))
    requires alpha.Contains(Alpha(p, local, level, j, args[level - 1]))
    ensures Mix(ar, x, y, alpha).Contains(Entry(p, local, a, args, level, j))
  {
    hide Mix, Alpha, Lerp;
    MixContains(ar, x, y, alpha, Entry(p, local, a, args, level - 1, j - 1), Entry(p, local, a, args, level - 1, j),
                Alpha(p, local, level, j, args[level - 1]));
  }

  lemma {:induction false} PoleEntryEnclosed(ar: Arithmetic, source: seq<Pole>, p: nat, local: seq<real>, a: seq<real>,
                                             w: seq<real>, args: seq<real>, level: nat, j: nat)
    requires ar.Outward() && Window(p, local) && |a| == |w| == p + 1 && |args| == p && level <= j <= p < |source|
    requires SpanEncloses(source, a, w)
    ensures var pole := PoleEntry(ar, source, p, local, args, level, j);
      && pole.value.Contains(Entry(p, local, a, args, level, j))
      && pole.weight.Contains(Entry(p, local, w, args, level, j))
    decreases level
  {
    hide Mix, AlphaInterval, Alpha, Interval.Contains, Window, Lerp;
    if level > 0 {
      WindowLength(p, local);
      var left := PoleEntry(ar, source, p, local, args, level - 1, j - 1);
      var right := PoleEntry(ar, source, p, local, args, level - 1, j);
      var alpha := AlphaInterval(ar, args[level - 1], local[j], local[j + p + 1 - level]);
      PoleEntryEnclosed(ar, source, p, local, a, w, args, level - 1, j - 1);
      PoleEntryEnclosed(ar, source, p, local, a, w, args, level - 1, j);
      AlphaEnclosed(ar, p, local, level, j, args[level - 1]);
      MixEntry(ar, p, local, a, args, level, j, left.value, right.value, alpha);
      MixEntry(ar, p, local, w, args, level, j, left.weight, right.weight, alpha);
    }
  }

  lemma WindowLength(p: nat, local: seq<real>)
    requires Window(p, local)
    ensures |local| == 2 * p + 1
  {
  }

  // The intervals enclose the blossom values, whatever exact controls they
  // start from.
  lemma SpanPolesEnclose(ar: Arithmetic, source: seq<Pole>, p: nat, local: seq<real>, a: seq<real>, w: seq<real>,
                         low: real, high: real)
    requires ar.Outward() && Window(p, local) && |a| == |w| == p + 1 && p < POLES && p < |source|
    requires SpanEncloses(source, a, w) && |local| == 2 * p + 1
    ensures SpanEncloses(SpanPoles(ar, source, p, local, low, high), BezierPoles(p, local, a, low, high),
                         BezierPoles(p, local, w, low, high))
  {
    hide Entry, PoleEntry, Interval.Contains, Window;
    var poles := SpanPoles(ar, source, p, local, low, high);
    forall i | 0 <= i <= p
      ensures poles[i].value.Contains(BezierPoles(p, local, a, low, high)[i])
      ensures poles[i].weight.Contains(BezierPoles(p, local, w, low, high)[i])
    {
      PoleEntryEnclosed(ar, source, p, local, a, w, MixedArgs(p, 0, i, low, low, high), p, p);
    }
  }

  // During level `level`, entries from `next` on are already overwritten.
  ghost predicate SchemeIs(ar: Arithmetic, row: seq<Pole>, source: seq<Pole>, p: nat, local: seq<real>, args: seq<real>,
                           level: nat, next: nat)
    requires |local| == 2 * p + 1 && p < |source| && 1 <= level <= p + 1 && |args| == p
  {
    && |row| > p
    && (forall k :: level - 1 <= k < next && k <= p ==> row[k] == PoleEntry(ar, source, p, local, args, level - 1, k))
    && (forall k :: level <= k <= p && next <= k ==> row[k] == PoleEntry(ar, source, p, local, args, level, k))
  }

  // The scheme once per control, overwriting one row in descending order.
  method ExtractSpan(ar: Arithmetic, source: seq<Pole>, degree: nat, knots: seq<real>, span: nat)
    returns (result: seq<Pole>)
    requires |source| == POLES && 1 <= degree <= CERTIFIED_DEGREE
    requires degree <= span && span + degree < |knots|
    ensures result == SpanPoles(ar, source, degree, knots[span - degree..span + degree + 1], knots[span], knots[span + 1])
  {
    hide PoleEntry, MixPoles, AlphaInterval;
    ghost var local := knots[span - degree..span + degree + 1];
    result := seq(POLES, _ => NO_POLE);
    for control := 0 to degree + 1
      invariant |result| == POLES
      invariant forall i :: 0 <= i < control ==>
        result[i] == SpanPole(ar, source, degree, local, knots[span], knots[span + 1], i)
      invariant forall i :: control <= i < POLES ==> result[i] == NO_POLE
    {
      var row := source;
      ghost var args := MixedArgs(degree, 0, control, knots[span], knots[span], knots[span + 1]);
      SchemeStart(ar, source, degree, local, args);
      for level := 1 to degree + 1
        invariant |row| == POLES && SchemeIs(ar, row, source, degree, local, args, level, degree + 1)
      {
        var argument := knots[span + (if level > degree - control then 1 else 0)];
        assert argument == args[level - 1];
        for j := degree + 1 downto level
          invariant |row| == POLES && SchemeIs(ar, row, source, degree, local, args, level, j)
        {
          var low, high := knots[span - degree + j], knots[span + 1 + j - level];
          assert low == local[j] && high == local[j + degree + 1 - level];
          var alpha := AlphaInterval(ar, argument, low, high);
          SchemeStep(ar, row, source, degree, local, args, level, j);
          row := row[j := MixPoles(ar, row[j - 1], row[j], alpha)];
        }
      }
      result := result[control := row[degree]];
    }
  }

  lemma SchemeStart(ar: Arithmetic, source: seq<Pole>, p: nat, local: seq<real>, args: seq<real>)
    requires |local| == 2 * p + 1 && p < |source| && |args| == p
    ensures SchemeIs(ar, source, source, p, local, args, 1, p + 1)
  {
  }

  lemma SchemeStep(ar: Arithmetic, row: seq<Pole>, source: seq<Pole>, p: nat, local: seq<real>, args: seq<real>,
                   level: nat, j: nat)
    requires |local| == 2 * p + 1 && p < |source| && |args| == p && 1 <= level <= j <= p
    requires SchemeIs(ar, row, source, p, local, args, level, j + 1)
    ensures SchemeIs(ar, row[j := MixPoles(ar, row[j - 1], row[j],
                                           AlphaInterval(ar, args[level - 1], local[j], local[j + p + 1 - level]))],
                     source, p, local, args, level, j)
  {
    hide MixPoles, AlphaInterval;
  }

  // ---------------------------------------------------------------- numerator

  lemma FactorEnclosed(ar: Arithmetic, p: nat, i: nat, j: nat)
    requires ar.Outward() && i < p && j <= p
    ensures Divide(ar, Exact((p * Choose(p - 1, i) * Choose(p, j)) as real),
                   Exact(Choose(2 * p - 1, i + j) as real)).Contains(Factor(p, i, j))
  {
    hide Choose, Divide;
    ChooseOutside(2 * p - 1, i + j);
    var n, d := (p * Choose(p - 1, i) * Choose(p, j)) as real, Choose(2 * p - 1, i + j) as real;
    DivideContains(ar, Exact(n), Exact(d), n, d);
  }

  function CrossInterval(ar: Arithmetic, controls: seq<Pole>, i: nat, j: nat): Interval
    requires i + 1 < |controls| && j < |controls|
  {
    Subtract(ar,
      Multiply(ar, Subtract(ar, controls[i + 1].value, controls[i].value), controls[j].weight),
      Multiply(ar, Subtract(ar, controls[i + 1].weight, controls[i].weight), controls[j].value))
  }

  lemma CrossEnclosed(ar: Arithmetic, controls: seq<Pole>, a: seq<real>, w: seq<real>, i: nat, j: nat)
    requires ar.Outward() && SpanEncloses(controls, a, w) && i + 1 < |a| && j < |a|
    ensures CrossInterval(ar, controls, i, j).Contains(Cross(a, w, i, j))
  {
    hide Subtract, Multiply;
    var da, dw := a[i + 1] - a[i], w[i + 1] - w[i];
    var ia := Subtract(ar, controls[i + 1].value, controls[i].value);
    var iw := Subtract(ar, controls[i + 1].weight, controls[i].weight);
    SubtractContains(ar, controls[i + 1].value, controls[i].value, a[i + 1], a[i]);
    SubtractContains(ar, controls[i + 1].weight, controls[i].weight, w[i + 1], w[i]);
    MultiplyContains(ar, ia, controls[j].weight, da, w[j]);
    MultiplyContains(ar, iw, controls[j].value, dw, a[j]);
    SubtractContains(ar, Multiply(ar, ia, controls[j].weight), Multiply(ar, iw, controls[j].value),
                     Times(da, w[j]), Times(dw, a[j]));
    assert Times(da, w[j]) - Times(dw, a[j]) == Det(da, dw, w[j], a[j]);
  }

  function FactorInterval(ar: Arithmetic, p: nat, i: nat, j: nat): Interval
    requires i < p
  {
    Divide(ar, Exact((p * Choose(p - 1, i) * Choose(p, j)) as real), Exact(Choose(2 * p - 1, i + j) as real))
  }

  // The coefficients after all pairs lexicographically before (i, j).
  function NumeratorBox(ar: Arithmetic, controls: seq<Pole>, p: nat, i: nat, j: nat): (r: seq<Interval>)
    requires p < |controls| && 2 * p <= SIZE && i <= p && j <= p + 1 && (i == p ==> j == 0)
    ensures |r| == SIZE
    decreases i, j
  {
    if j > 0 then
      var before := NumeratorBox(ar, controls, p, i, j - 1);
      before[i + j - 1 :=
        Add(ar, before[i + j - 1],
            Multiply(ar, FactorInterval(ar, p, i, j - 1), CrossInterval(ar, controls, i, j - 1)))]
    else if i > 0 then NumeratorBox(ar, controls, p, i - 1, p + 1)
    else seq(SIZE, _ => Exact(0.0))
  }

  lemma {:induction false} NumeratorBoxEncloses(ar: Arithmetic, controls: seq<Pole>, a: seq<real>, w: seq<real>, p: nat,
                                                i: nat, j: nat)
    requires ar.Outward() && |a| == |w| == p + 1 && 2 * p <= SIZE && p < |controls| && SpanEncloses(controls, a, w)
    requires i <= p && j <= p + 1 && (i == p ==> j == 0)
    ensures Encloses(NumeratorBox(ar, controls, p, i, j), NumeratorAfter(a, w, p, SIZE, i, j))
    decreases i, j
  {
    hide Factor, Cross, CrossInterval, FactorInterval, Add, Multiply, SpanEncloses, Interval.Contains;
    if j > 0 {
      NumeratorBoxEncloses(ar, controls, a, w, p, i, j - 1);
      NumeratorStep(ar, controls, NumeratorBox(ar, controls, p, i, j - 1), a, w, p, i, j - 1);
    } else if i > 0 {
      NumeratorBoxEncloses(ar, controls, a, w, p, i - 1, p + 1);
    } else {
      ZeroBox(a, w, p);
    }
  }

  lemma ZeroBox(a: seq<real>, w: seq<real>, p: nat)
    requires |a| == |w| == p + 1 && 2 * p <= SIZE
    ensures Encloses(seq(SIZE, _ => Exact(0.0)), NumeratorAfter(a, w, p, SIZE, 0, 0))
  {
  }

  lemma NumeratorStep(ar: Arithmetic, controls: seq<Pole>, box: seq<Interval>, a: seq<real>, w: seq<real>,
                      p: nat, i: nat, j: nat)
    requires ar.Outward() && |a| == |w| == p + 1 && 2 * p <= SIZE && i < p && j <= p
    requires SpanEncloses(controls, a, w) && |box| == SIZE && Encloses(box, NumeratorAfter(a, w, p, SIZE, i, j))
    ensures Encloses(
      box[i + j := Add(ar, box[i + j], Multiply(ar, FactorInterval(ar, p, i, j), CrossInterval(ar, controls, i, j)))],
      NumeratorAfter(a, w, p, SIZE, i, j + 1))
  {
    hide Factor, Cross, CrossInterval, Add, Multiply;
    var factor := FactorInterval(ar, p, i, j);
    FactorEnclosed(ar, p, i, j);
    CrossEnclosed(ar, controls, a, w, i, j);
    MultiplyContains(ar, factor, CrossInterval(ar, controls, i, j), Factor(p, i, j), Cross(a, w, i, j));
    assert Times(Factor(p, i, j), Cross(a, w, i, j)) == PairTerm(a, w, p, i, j);
    var before := NumeratorAfter(a, w, p, SIZE, i, j);
    AddContains(ar, box[i + j], Multiply(ar, factor, CrossInterval(ar, controls, i, j)), before[i + j],
                PairTerm(a, w, p, i, j));
  }

  method DerivativeNumerator(ar: Arithmetic, controls: seq<Pole>, degree: nat) returns (result: seq<Interval>)
    requires |controls| == POLES && 1 <= degree <= CERTIFIED_DEGREE
    ensures result == NumeratorBox(ar, controls, degree, degree, 0)
  {
    hide CrossInterval, Add, Multiply, Divide, Choose;
    result := seq(SIZE, _ => Exact(0.0));
    for i := 0 to degree
      invariant result == NumeratorBox(ar, controls, degree, i, 0)
    {
      for j := 0 to degree + 1
        invariant result == NumeratorBox(ar, controls, degree, i, j)
      {
        var first := Binomial(degree - 1, i);
        var second := Binomial(degree, j);
        var third := Binomial(2 * degree - 1, i + j);
        var factor := Divide(ar, Exact((degree * first * second) as real), Exact(third as real));
        var difference := CrossInterval(ar, controls, i, j);
        result := result[i + j := Add(ar, result[i + j], Multiply(ar, factor, difference))];
      }
    }
  }
}
