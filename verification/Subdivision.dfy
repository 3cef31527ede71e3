// Positivity of a Bernstein polynomial by bounded bisection: CertifyNumerator.
module Subdivision {
  import opened Results
  import opened Reals
  import opened Integers
  import opened DeBoor
  import opened SplineJet
  import opened IntervalArithmetic

  // ---------------------------------------------------------------- exact halves

  function Mean(a: real, b: real): real {
    0.5 * (a + b)
  }

  // Entry j of the midpoint scheme after `level` levels.
  function Half(c: seq<real>, level: nat, j: nat): real
    requires level + j < |c|
    decreases level
  {
    if level == 0 then c[j] else Mean(Half(c, level - 1, j), Half(c, level - 1, j + 1))
  }

  function LeftHalf(c: seq<real>): (r: seq<real>)
    ensures |r| == |c|
  {
    seq(|c|, k requires 0 <= k < |c| => Half(c, k, 0))
  }

  function RightHalf(c: seq<real>): (r: seq<real>)
    ensures |r| == |c|
  {
    seq(|c|, k requires 0 <= k < |c| => Half(c, |c| - 1 - k, k))
  }

  // The knots of a single Bezier span.
  function BezierKnots(n: nat): (knots: seq<real>)
    ensures n >= 1 ==> Window(n, knots)
  {
    Repeat(0.0, n + 1) + Repeat(1.0, n)
  }

  lemma BezierAlpha(n: nat, level: nat, j: nat, x: real)
    requires 1 <= level <= j <= n
    ensures Alpha(n, BezierKnots(n), level, j, x) == x
  {
    assert BezierKnots(n)[j] == 0.0 && BezierKnots(n)[j + n + 1 - level] == 1.0;
  }

  lemma LerpAtEnds(a: real, b: real)
    ensures Lerp(a, b, 0.0) == a && Lerp(a, b, 1.0) == b && Lerp(a, b, 0.5) == Mean(a, b)
  {
  }

  lemma BezierStep(c: seq<real>, n: nat, args: seq<real>, level: nat, j: nat)
    requires 1 <= level <= j <= n && |c| == n + 1 && |args| == n
    ensures Entry(n, BezierKnots(n), c, args, level, j)
         == Lerp(Entry(n, BezierKnots(n), c, args, level - 1, j - 1), Entry(n, BezierKnots(n), c, args, level - 1, j),
                 args[level - 1])
  {
    hide Lerp, Alpha;
    BezierAlpha(n, level, j, args[level - 1]);
  }

  // Arguments 0 drop the last control, arguments 1 the first.
  lemma {:induction false} TrailingZeros(c: seq<real>, n: nat, args: seq<real>, kept: nat, level: nat, j: nat)
    requires 1 <= n && |c| == n + 1 && |args| == n && kept <= level <= j <= n
    requires forall i :: kept <= i < level ==> args[i] == 0.0
    ensures Entry(n, BezierKnots(n), c, args, level, j) == Entry(n, BezierKnots(n), c, args, kept, j - (level - kept))
    decreases level
  {
    hide Lerp, Alpha;
    if level > kept {
      TrailingZeros(c, n, args, kept, level - 1, j - 1);
      BezierStep(c, n, args, level, j);
      LerpAtEnds(Entry(n, BezierKnots(n), c, args, level - 1, j - 1), Entry(n, BezierKnots(n), c, args, level - 1, j));
    }
  }

  lemma {:induction false} TrailingOnes(c: seq<real>, n: nat, args: seq<real>, kept: nat, level: nat, j: nat)
    requires 1 <= n && |c| == n + 1 && |args| == n && kept <= level <= j <= n
    requires forall i :: kept <= i < level ==> args[i] == 1.0
    ensures Entry(n, BezierKnots(n), c, args, level, j) == Entry(n, BezierKnots(n), c, args, kept, j)
    decreases level
  {
    hide Lerp, Alpha;
    if level > kept {
      TrailingOnes(c, n, args, kept, level - 1, j);
      BezierStep(c, n, args, level, j);
      LerpAtEnds(Entry(n, BezierKnots(n), c, args, level - 1, j - 1), Entry(n, BezierKnots(n), c, args, level - 1, j));
    }
  }

  lemma {:induction false} LeadingHalves(c: seq<real>, n: nat, args: seq<real>, level: nat, j: nat)
    requires 1 <= n && |c| == n + 1 && |args| == n && level <= j <= n
    requires forall i :: 0 <= i < level ==> args[i] == 0.5
    ensures Entry(n, BezierKnots(n), c, args, level, j) == Half(c, level, j - level)
    decreases level
  {
    hide Lerp, Alpha, Mean;
    if level > 0 {
      LeadingHalves(c, n, args, level - 1, j - 1);
      LeadingHalves(c, n, args, level - 1, j);
      BezierStep(c, n, args, level, j);
      LerpAtEnds(Entry(n, BezierKnots(n), c, args, level - 1, j - 1), Entry(n, BezierKnots(n), c, args, level - 1, j));
    }
  }

  lemma RepeatMultiset(x: real, a: nat, y: real, b: nat)
    ensures multiset(Repeat(x, a) + Repeat(y, b)) == multiset(Repeat(y, b) + Repeat(x, a))
  {
  }

  lemma SameArguments(n: nat, c: seq<real>, a: seq<real>, b: seq<real>)
    requires 1 <= n && |c| == n + 1 && |a| == |b| == n && multiset(a) == multiset(b)
    ensures Blossom(n, BezierKnots(n), c, a) == Blossom(n, BezierKnots(n), c, b)
  {
    assert a[..n] == a && b[..n] == b && a[n..] == b[n..];
    BlossomSymmetric(n, BezierKnots(n), c, n, a, b);
  }

  // The controls themselves are the blossom values between 0 and 1.
  lemma ControlsArePoles(c: seq<real>, n: nat)
    requires 1 <= n && |c| == n + 1
    ensures BezierPoles(n, BezierKnots(n), c, 0.0, 1.0) == c
  {
    forall i | 0 <= i <= n
      ensures BezierPoles(n, BezierKnots(n), c, 0.0, 1.0)[i] == c[i]
    {
      var args := MixedArgs(n, 0, i, 0.0, 0.0, 1.0);
      TrailingOnes(c, n, args, n - i, n, n);
      TrailingZeros(c, n, args, 0, n - i, n);
    }
  }

  lemma LeftHalfIsPoles(c: seq<real>, n: nat)
    requires 1 <= n && |c| == n + 1
    ensures BezierPoles(n, BezierKnots(n), c, 0.0, 0.5) == LeftHalf(c)
  {
    forall i | 0 <= i <= n
      ensures BezierPoles(n, BezierKnots(n), c, 0.0, 0.5)[i] == LeftHalf(c)[i]
    {
      var args := Repeat(0.5, i) + Repeat(0.0, n - i);
      assert MixedArgs(n, 0, i, 0.0, 0.0, 0.5) == Repeat(0.0, n - i) + Repeat(0.5, i);
      RepeatMultiset(0.5, i, 0.0, n - i);
      SameArguments(n, c, MixedArgs(n, 0, i, 0.0, 0.0, 0.5), args);
      TrailingZeros(c, n, args, i, n, n);
      LeadingHalves(c, n, args, i, i);
    }
  }

  lemma RightHalfIsPoles(c: seq<real>, n: nat)
    requires 1 <= n && |c| == n + 1
    ensures BezierPoles(n, BezierKnots(n), c, 0.5, 1.0) == RightHalf(c)
  {
    forall i | 0 <= i <= n
      ensures BezierPoles(n, BezierKnots(n), c, 0.5, 1.0)[i] == RightHalf(c)[i]
    {
      var args := MixedArgs(n, 0, i, 0.5, 0.5, 1.0);
      TrailingOnes(c, n, args, n - i, n, n);
      LeadingHalves(c, n, args, n - i, n);
    }
  }

  // Subdivision is exact: the halves reproduce the polynomial on [0, 1/2] and
  // on [1/2, 1].
  lemma HalvesReproduce(c: seq<real>, t: real)
    requires |c| >= 2
    ensures Casteljau(LeftHalf(c), t) == Casteljau(c, t / 2.0)
    ensures Casteljau(RightHalf(c), t) == Casteljau(c, (1.0 + t) / 2.0)
  {
    var n := |c| - 1;
    var knots := BezierKnots(n);
    ControlsArePoles(c, n);
    ExtractionPreservesValue(n, knots, c, 0.0, 1.0, t / 2.0);
    ExtractionPreservesValue(n, knots, c, 0.0, 1.0, (1.0 + t) / 2.0);
    LeftHalfIsPoles(c, n);
    ExtractionPreservesValue(n, knots, c, 0.0, 0.5, t);
    RightHalfIsPoles(c, n);
    ExtractionPreservesValue(n, knots, c, 0.5, 1.0, t);
    assert Lerp(0.0, 1.0, t / 2.0) == Lerp(0.0, 0.5, t) && Lerp(0.0, 1.0, (1.0 + t) / 2.0) == Lerp(0.5, 1.0, t);
  }

  // ---------------------------------------------------------------- positivity

  ghost predicate Positive(c: seq<real>)
    requires |c| >= 1
  {
    forall s :: 0.0 <= s <= 1.0 ==> Casteljau(c, s) > 0.0
  }

  lemma {:induction false} PositiveControls(c: seq<real>, s: real)
    requires |c| >= 1 && 0.0 <= s <= 1.0 && forall i :: 0 <= i < |c| ==> c[i] > 0.0
    ensures Casteljau(c, s) > 0.0
  {
    if |c| > 1 {
      PositiveControls(c[..|c| - 1], s);
      PositiveControls(c[1..], s);
      PositiveLerp(Casteljau(c[..|c| - 1], s), Casteljau(c[1..], s), s);
    }
  }

  lemma PositiveLerp(a: real, b: real, s: real)
    requires a > 0.0 && b > 0.0 && 0.0 <= s <= 1.0
    ensures Lerp(a, b, s) > 0.0
  {
    LerpWithin(a, b, s, Min(a, b), Max(a, b));
  }

  lemma PositiveFromHalves(c: seq<real>)
    requires |c| >= 2 && Positive(LeftHalf(c)) && Positive(RightHalf(c))
    ensures Positive(c)
  {
    forall s | 0.0 <= s <= 1.0
      ensures Casteljau(c, s) > 0.0
    {
      if s <= 0.5 {
        HalvesReproduce(c, 2.0 * s);
        assert Casteljau(LeftHalf(c), 2.0 * s) > 0.0;
      } else {
        HalvesReproduce(c, 2.0 * s - 1.0);
        assert Casteljau(RightHalf(c), 2.0 * s - 1.0) > 0.0;
      }
    }
  }

  // ---------------------------------------------------------------- boxes

  const SIZE := 14
  const MAX_DEPTH := 16

  // Every exact coefficient lies in its interval.
  predicate Encloses(box: seq<Interval>, c: seq<real>) {
    |c| <= |box| && forall i :: 0 <= i < |c| ==> box[i].Contains(c[i])
  }

  lemma MeanContains(ar: Arithmetic, a: Interval, b: Interval, x: real, y: real)
    requires ar.Outward() && a.Contains(x) && b.Contains(y)
    ensures Multiply(ar, Add(ar, a, b), Exact(0.5)).Contains(Mean(x, y))
  {
    AddContains(ar, a, b, x, y);
    MultiplyContains(ar, Add(ar, a, b), Exact(0.5), x + y, 0.5);
    assert Times(x + y, 0.5) == Mean(x, y);
  }

  // The midpoint scheme in interval arithmetic.
  function HalfInterval(ar: Arithmetic, box: seq<Interval>, level: nat, j: nat): Interval
    requires level + j < |box|
    decreases level
  {
    if level == 0 then box[j]
    else
      Multiply(ar, Add(ar, HalfInterval(ar, box, level - 1, j), HalfInterval(ar, box, level - 1, j + 1)), Exact(0.5))
  }

  function LeftBox(ar: Arithmetic, box: seq<Interval>, degree: nat): (r: seq<Interval>)
    requires degree < |box| == SIZE
    ensures |r| == SIZE
  {
    seq(SIZE, i requires 0 <= i < SIZE => if i <= degree then HalfInterval(ar, box, i, 0) else Exact(0.0))
  }

  function RightBox(ar: Arithmetic, box: seq<Interval>, degree: nat): (r: seq<Interval>)
    requires degree < |box| == SIZE
    ensures |r| == SIZE
  {
    seq(SIZE, i requires 0 <= i < SIZE => if i <= degree then HalfInterval(ar, box, degree - i, i) else Exact(0.0))
  }

  lemma {:induction false} HalfEnclosed(ar: Arithmetic, box: seq<Interval>, c: seq<real>, level: nat, j: nat)
    requires ar.Outward() && Encloses(box, c) && level + j < |c|
    ensures HalfInterval(ar, box, level, j).Contains(Half(c, level, j))
    decreases level
  {
    hide Add, Multiply, Mean, Interval.Contains;
    if level > 0 {
      HalfEnclosed(ar, box, c, level - 1, j);
      HalfEnclosed(ar, box, c, level - 1, j + 1);
      MeanContains(ar, HalfInterval(ar, box, level - 1, j), HalfInterval(ar, box, level - 1, j + 1),
                   Half(c, level - 1, j), Half(c, level - 1, j + 1));
    }
  }

  lemma HalvesEnclosed(ar: Arithmetic, box: seq<Interval>, c: seq<real>, degree: nat)
    requires ar.Outward() && |box| == SIZE && degree < SIZE && |c| == degree + 1 && Encloses(box, c)
    ensures Encloses(LeftBox(ar, box, degree), LeftHalf(c)) && Encloses(RightBox(ar, box, degree), RightHalf(c))
  {
    hide HalfInterval, Half, Interval.Contains;
    forall i | 0 <= i <= degree
      ensures LeftBox(ar, box, degree)[i].Contains(LeftHalf(c)[i])
      ensures RightBox(ar, box, degree)[i].Contains(RightHalf(c)[i])
    {
      HalfEnclosed(ar, box, c, i, 0);
      HalfEnclosed(ar, box, c, degree - i, i);
    }
  }

  // One pass of the loop that fills both halves, overwriting one row.
  method Halve(ar: Arithmetic, box: seq<Interval>, degree: nat) returns (left: seq<Interval>, right: seq<Interval>)
    requires |box| == SIZE && 1 <= degree < SIZE
    ensures left == LeftBox(ar, box, degree) && right == RightBox(ar, box, degree)
  {
    hide Add, Multiply;
    left, right := seq(SIZE, _ => Exact(0.0)), seq(SIZE, _ => Exact(0.0));
    var row := box;
    for level := 0 to degree + 1
      invariant |row| == |left| == |right| == SIZE
      invariant forall j {:trigger row[j]} :: 0 <= j <= degree - level ==> row[j] == HalfInterval(ar, box, level, j)
      invariant forall i :: 0 <= i < level ==> left[i] == HalfInterval(ar, box, i, 0)
      invariant forall i :: level <= i < SIZE ==> left[i] == Exact(0.0)
      invariant forall i :: degree - level < i <= degree ==> right[i] == HalfInterval(ar, box, degree - i, i)
      invariant forall i :: 0 <= i <= degree - level || degree < i < SIZE ==> right[i] == Exact(0.0)
    {
      left := left[level := row[0]];
      right := right[degree - level := row[degree - level]];
      for j := 0 to degree - level
        invariant |row| == SIZE
        invariant forall k {:trigger row[k]} :: 0 <= k < j ==> row[k] == HalfInterval(ar, box, level + 1, k)
        invariant forall k {:trigger row[k]} :: j <= k <= degree - level ==> row[k] == HalfInterval(ar, box, level, k)
      {
        row := row[j := Multiply(ar, Add(ar, row[j], row[j + 1]), Exact(0.5))];
      }
    }
  }

  // ---------------------------------------------------------------- the verdict

  predicate PositiveInterval(a: Interval) {
    a.Bounded? && a.low > 0.0
  }

  predicate AllBounded(box: seq<Interval>, degree: nat) {
    degree < |box| && forall i :: 0 <= i <= degree ==> box[i].Bounded?
  }

  predicate AllPositive(box: seq<Interval>, degree: nat) {
    degree < |box| && forall i :: 0 <= i <= degree ==> PositiveInterval(box[i])
  }

  // Neither end coefficient, which is a value of the polynomial, refutes.
  predicate EndsPositive(box: seq<Interval>, degree: nat)
    requires AllBounded(box, degree)
  {
    box[0].high > 0.0 && box[degree].high > 0.0
  }

  // Positive coefficients, or two certified halves of a piece that may still be
  // split.
  function Certified(ar: Arithmetic, box: seq<Interval>, degree: nat, depth: nat): bool
    requires |box| == SIZE && degree < SIZE
    decreases MAX_DEPTH - depth
  {
    AllBounded(box, degree) &&
    (AllPositive(box, degree) ||
     (EndsPositive(box, degree) && depth < MAX_DEPTH
      && Certified(ar, LeftBox(ar, box, degree), degree, depth + 1)
      && Certified(ar, RightBox(ar, box, degree), degree, depth + 1)))
  }

  // The work of looking at a piece, splitting it and looking at its halves.
  function Cost(ar: Arithmetic, box: seq<Interval>, degree: nat, depth: nat): nat
    requires |box| == SIZE && degree < SIZE
    decreases MAX_DEPTH - depth
  {
    degree + 1 +
    (if AllBounded(box, degree) && !AllPositive(box, degree) && EndsPositive(box, degree) && depth < MAX_DEPTH then
       SplitCost(degree) + Cost(ar, LeftBox(ar, box, degree), degree, depth + 1)
       + Cost(ar, RightBox(ar, box, degree), degree, depth + 1)
     else 0)
  }

  function SplitCost(degree: nat): nat {
    4 * (degree * (degree + 1) / 2)
  }

  lemma PositiveCoefficients(degree: nat, box: seq<Interval>, c: seq<real>)
    requires |c| == degree + 1 && Encloses(box, c) && AllPositive(box, degree)
    ensures Positive(c)
  {
    forall s | 0.0 <= s <= 1.0
      ensures Casteljau(c, s) > 0.0
    {
      forall i | 0 <= i <= degree
        ensures c[i] > 0.0
      {
        assert PositiveInterval(box[i]);
      }
      PositiveControls(c, s);
    }
  }

  // A certified box proves every polynomial inside it positive on [0, 1].
  lemma {:induction false} CertifiedPositive(ar: Arithmetic, box: seq<Interval>, c: seq<real>, degree: nat, depth: nat)
    requires ar.Outward() && |box| == SIZE && 1 <= degree < SIZE && |c| == degree + 1 && Encloses(box, c)
    requires Certified(ar, box, degree, depth)
    ensures Positive(c)
    decreases MAX_DEPTH - depth
  {
    hide Positive, Encloses, LeftBox, RightBox, LeftHalf, RightHalf, AllPositive, EndsPositive, AllBounded;
    if AllPositive(box, degree) {
      PositiveCoefficients(degree, box, c);
    } else {
      HalvesEnclosed(ar, box, c, degree);
      SameLengths(c);
      CertifiedPositive(ar, LeftBox(ar, box, degree), LeftHalf(c), degree, depth + 1);
      CertifiedPositive(ar, RightBox(ar, box, degree), RightHalf(c), degree, depth + 1);
      PositiveFromHalves(c);
    }
  }

  lemma SameLengths(c: seq<real>)
    ensures |LeftHalf(c)| == |RightHalf(c)| == |c|
  {
  }

  // A box that holds a polynomial with a nonpositive end value is never
  // certified.
  lemma EndRefutes(ar: Arithmetic, box: seq<Interval>, c: seq<real>, degree: nat)
    requires ar.Outward() && |box| == SIZE && 1 <= degree < SIZE && |c| == degree + 1 && Encloses(box, c)
    requires c[0] <= 0.0 || c[degree] <= 0.0
    ensures !Certified(ar, box, degree, 0)
  {
    if Certified(ar, box, degree, 0) {
      CertifiedPositive(ar, box, c, degree, 0);
      CasteljauAtEnds(c);
    }
  }

  lemma {:induction false} CasteljauAtEnds(c: seq<real>)
    requires |c| >= 1
    ensures Casteljau(c, 0.0) == c[0] && Casteljau(c, 1.0) == c[|c| - 1]
    decreases |c|
  {
    if |c| > 1 {
      CasteljauAtEnds(c[..|c| - 1]);
      CasteljauAtEnds(c[1..]);
    }
  }

  // ---------------------------------------------------------------- completeness

  // The piece reached by taking the left (false) or right half at each step.
  function PieceAt(c: seq<real>, path: seq<bool>): (r: seq<real>)
    ensures |r| == |c|
    decreases |path|
  {
    if path == [] then c else PieceAt(if path[0] then RightHalf(c) else LeftHalf(c), path[1..])
  }

  // Where the piece's parameter t lies in [0, 1].
  function PlaceOf(path: seq<bool>, t: real): real {
    if path == [] then t
    else if path[0] then (1.0 + PlaceOf(path[1..], t)) / 2.0
    else PlaceOf(path[1..], t) / 2.0
  }

  lemma {:induction false} PieceReproduces(c: seq<real>, path: seq<bool>, t: real)
    requires |c| >= 2
    ensures Casteljau(PieceAt(c, path), t) == Casteljau(c, PlaceOf(path, t))
    decreases |path|
  {
    hide Casteljau, LeftHalf, RightHalf;
    if path != [] {
      SameLengths(c);
      PieceReproduces(if path[0] then RightHalf(c) else LeftHalf(c), path[1..], t);
      HalvesReproduce(c, PlaceOf(path[1..], t));
    }
  }

  predicate AllAbove(c: seq<real>) {
    forall i :: 0 <= i < |c| ==> c[i] > 0.0
  }

  // All 2^n pieces after n halvings have positive coefficients.
  ghost predicate PiecesPositive(c: seq<real>, n: nat) {
    forall path: seq<bool> :: |path| == n ==> AllAbove(PieceAt(c, path))
  }

  lemma NoHalving(c: seq<real>)
    ensures PiecesPositive(c, 0) <==> AllAbove(c)
  {
    assert PieceAt(c, []) == c;
  }

  lemma PiecesSplit(c: seq<real>, n: nat)
    ensures PiecesPositive(c, n + 1) <==> PiecesPositive(LeftHalf(c), n) && PiecesPositive(RightHalf(c), n)
  {
    hide LeftHalf, RightHalf, AllAbove;
    if PiecesPositive(c, n + 1) {
      forall path: seq<bool> | |path| == n
        ensures AllAbove(PieceAt(LeftHalf(c), path)) && AllAbove(PieceAt(RightHalf(c), path))
      {
        assert ([false] + path)[1..] == path && ([true] + path)[1..] == path;
        assert AllAbove(PieceAt(c, [false] + path)) && AllAbove(PieceAt(c, [true] + path));
      }
    }
    if PiecesPositive(LeftHalf(c), n) && PiecesPositive(RightHalf(c), n) {
      forall path: seq<bool> | |path| == n + 1
        ensures AllAbove(PieceAt(c, path))
      {
        assert |path[1..]| == n;
      }
    }
  }

  lemma {:induction false} HalfAbove(c: seq<real>, level: nat, j: nat)
    requires AllAbove(c) && level + j < |c|
    ensures Half(c, level, j) > 0.0
    decreases level
  {
    if level > 0 {
      HalfAbove(c, level - 1, j);
      HalfAbove(c, level - 1, j + 1);
    }
  }

  lemma HalvesAbove(c: seq<real>)
    requires AllAbove(c)
    ensures AllAbove(LeftHalf(c)) && AllAbove(RightHalf(c))
  {
    hide Half;
    forall k | 0 <= k < |c|
      ensures LeftHalf(c)[k] > 0.0 && RightHalf(c)[k] > 0.0
    {
      HalfAbove(c, k, 0);
      HalfAbove(c, |c| - 1 - k, k);
    }
  }

  lemma {:induction false} AbovePieces(c: seq<real>, n: nat)
    requires AllAbove(c)
    ensures PiecesPositive(c, n)
    decreases n
  {
    hide PiecesPositive, LeftHalf, RightHalf;
    if n == 0 {
      NoHalving(c);
    } else {
      HalvesAbove(c);
      AbovePieces(LeftHalf(c), n - 1);
      AbovePieces(RightHalf(c), n - 1);
      PiecesSplit(c, n - 1);
    }
  }

  // The end coefficients of a piece stay end coefficients of its pieces.
  lemma {:induction false} PieceEnds(c: seq<real>, n: nat)
    requires |c| >= 1 && PiecesPositive(c, n)
    ensures c[0] > 0.0 && c[|c| - 1] > 0.0
    decreases n
  {
    hide PiecesPositive;
    if n == 0 {
      NoHalving(c);
    } else {
      PiecesSplit(c, n - 1);
      PieceEnds(LeftHalf(c), n - 1);
      PieceEnds(RightHalf(c), n - 1);
      assert LeftHalf(c)[0] == Half(c, 0, 0) && RightHalf(c)[|c| - 1] == Half(c, 0, |c| - 1);
    }
  }

  // The intervals are the coefficients themselves.
  predicate IsExact(box: seq<Interval>, c: seq<real>) {
    |c| <= |box| && forall i :: 0 <= i < |c| ==> box[i] == Exact(c[i])
  }

  lemma {:induction false} HalfExact(ar: Arithmetic, box: seq<Interval>, c: seq<real>, level: nat, j: nat)
    requires ar.Outward() && ar.Exactly() && IsExact(box, c) && level + j < |c|
    ensures HalfInterval(ar, box, level, j) == Exact(Half(c, level, j))
    decreases level
  {
    hide Add, Multiply, Mean;
    if level > 0 {
      HalfExact(ar, box, c, level - 1, j);
      HalfExact(ar, box, c, level - 1, j + 1);
      var a, b := HalfInterval(ar, box, level - 1, j), HalfInterval(ar, box, level - 1, j + 1);
      SumSharp(ar, a, b);
      MultiplySharp(ar, Add(ar, a, b), Exact(0.5));
      MeanContains(ar, a, b, Half(c, level - 1, j), Half(c, level - 1, j + 1));
      SharpValue(HalfInterval(ar, box, level, j), Half(c, level, j));
    }
  }

  lemma HalvesExact(ar: Arithmetic, box: seq<Interval>, c: seq<real>, degree: nat)
    requires ar.Outward() && ar.Exactly() && |box| == SIZE && degree < SIZE && |c| == degree + 1 && IsExact(box, c)
    ensures IsExact(LeftBox(ar, box, degree), LeftHalf(c)) && IsExact(RightBox(ar, box, degree), RightHalf(c))
  {
    hide HalfInterval, Half;
    forall i | 0 <= i <= degree
      ensures LeftBox(ar, box, degree)[i] == Exact(LeftHalf(c)[i])
      ensures RightBox(ar, box, degree)[i] == Exact(RightHalf(c)[i])
    {
      HalfExact(ar, box, c, i, 0);
      HalfExact(ar, box, c, degree - i, i);
    }
  }

  lemma ExactVerdicts(box: seq<Interval>, c: seq<real>, degree: nat)
    requires |box| == SIZE && degree < SIZE && |c| == degree + 1 && IsExact(box, c)
    ensures AllBounded(box, degree)
    ensures AllPositive(box, degree) <==> AllAbove(c)
    ensures c[0] > 0.0 && c[degree] > 0.0 ==> EndsPositive(box, degree)
  {
    if AllPositive(box, degree) {
      forall i | 0 <= i < |c|
        ensures c[i] > 0.0
      {
        assert PositiveInterval(box[i]);
      }
    }
  }

  // Without rounding the search is complete down to its depth limit: a box is
  // certified exactly when all pieces at that depth have positive coefficients.
  lemma {:induction false} CertifiedBelow(ar: Arithmetic, box: seq<Interval>, c: seq<real>, degree: nat, depth: nat)
    requires ar.Outward() && ar.Exactly() && |box| == SIZE && degree < SIZE && |c| == degree + 1 && IsExact(box, c)
    requires depth <= MAX_DEPTH
    ensures Certified(ar, box, degree, depth) <==> PiecesPositive(c, MAX_DEPTH - depth)
    decreases MAX_DEPTH - depth
  {
    hide PiecesPositive, LeftBox, RightBox, LeftHalf, RightHalf, AllPositive, EndsPositive, AllBounded, AllAbove, IsExact;
    var left: nat := MAX_DEPTH - depth;
    ExactVerdicts(box, c, degree);
    if AllAbove(c) {
      AbovePieces(c, left);
    } else if left == 0 {
      NoHalving(c);
    } else {
      if PiecesPositive(c, left) {
        PieceEnds(c, left);
      }
      HalvesExact(ar, box, c, degree);
      SameLengths(c);
      CertifiedBelow(ar, LeftBox(ar, box, degree), LeftHalf(c), degree, depth + 1);
      CertifiedBelow(ar, RightBox(ar, box, degree), RightHalf(c), degree, depth + 1);
      PiecesSplit(c, left - 1);
    }
  }

  lemma CertifiedComplete(ar: Arithmetic, box: seq<Interval>, c: seq<real>, degree: nat)
    requires ar.Outward() && ar.Exactly() && |box| == SIZE && degree < SIZE && |c| == degree + 1 && IsExact(box, c)
    ensures Certified(ar, box, degree, 0) <==> PiecesPositive(c, 16)
  {
    hide Certified, PiecesPositive, IsExact;
    CertifiedBelow(ar, box, c, degree, 0);
  }

  // Without rounding the verdict on the coefficients themselves is whether all
  // 2^16 pieces have positive coefficients.
  ghost predicate Complete(ar: Arithmetic, box: seq<Interval>, degree: nat, verdict: bool) {
    ar.Exactly() ==>
      forall c {:trigger IsExact(box, c)} :: |c| == degree + 1 && IsExact(box, c) ==>
        (verdict <==> PiecesPositive(c, 16))
  }

  lemma AllComplete(ar: Arithmetic, box: seq<Interval>, degree: nat)
    requires ar.Outward() && |box| == SIZE && degree < SIZE
    ensures Complete(ar, box, degree, Certified(ar, box, degree, 0))
  {
    hide Certified, PiecesPositive, IsExact;
    if ar.Exactly() {
      forall c {:trigger IsExact(box, c)} | |c| == degree + 1 && IsExact(box, c)
        ensures Certified(ar, box, degree, 0) <==> PiecesPositive(c, 16)
      {
        CertifiedComplete(ar, box, c, degree);
      }
    }
  }

  // Three times 1, 0.24, -0.14, -0.14, 0.24, 1: the derivative of the cubic with
  // poles 0, 1, 0.1, 1.1, whose second pole step goes backwards.
  const DIP := [3.0, 0.72, -0.42, -0.42, 0.72, 3.0]

  // One halving shows it positive.
  lemma DipCertified(ar: Arithmetic, box: seq<Interval>)
    requires ar.Outward() && ar.Exactly() && |box| == SIZE && IsExact(box, DIP)
    ensures Certified(ar, box, 5, 0)
  {
    hide PiecesPositive, Certified, LeftHalf, RightHalf;
    DipHalves();
    AbovePieces(LeftHalf(DIP), 15);
    AbovePieces(RightHalf(DIP), 15);
    PiecesSplit(DIP, 15);
    CertifiedComplete(ar, box, DIP, 5);
  }

  lemma DipRows()
    ensures Half(DIP, 1, 0) == 1.86 && Half(DIP, 2, 0) == 1.005 && Half(DIP, 3, 0) == 0.435
    ensures Half(DIP, 4, 0) == 0.15 && Half(DIP, 5, 0) == 0.15 && Half(DIP, 4, 1) == 0.15
    ensures Half(DIP, 3, 2) == 0.435 && Half(DIP, 2, 3) == 1.005 && Half(DIP, 1, 4) == 1.86
  {
    var c := DIP;
    assert c[0] == 3.0 && c[1] == 0.72 && c[2] == -0.42 && c[3] == -0.42 && c[4] == 0.72 && c[5] == 3.0;
    HalfStep(c, 1, 0);
    HalfStep(c, 1, 1);
    HalfStep(c, 1, 2);
    HalfStep(c, 1, 3);
    HalfStep(c, 1, 4);
    hide Half;
    HalfStep(c, 2, 0);
    HalfStep(c, 2, 1);
    HalfStep(c, 2, 2);
    HalfStep(c, 2, 3);
    HalfStep(c, 3, 0);
    HalfStep(c, 3, 1);
    HalfStep(c, 3, 2);
    HalfStep(c, 4, 0);
    HalfStep(c, 4, 1);
    HalfStep(c, 5, 0);
  }

  lemma HalfStep(c: seq<real>, level: nat, j: nat)
    requires 1 <= level && level + j < |c|
    ensures Half(c, level, j) == Mean(Half(c, level - 1, j), Half(c, level - 1, j + 1))
  {
  }

  lemma DipHalves()
    ensures LeftHalf(DIP) == [3.0, 1.86, 1.005, 0.435, 0.15, 0.15]
    ensures RightHalf(DIP) == [0.15, 0.15, 0.435, 1.005, 1.86, 3.0]
  {
    DipRows();
    assert Half(DIP, 0, 0) == 3.0 && Half(DIP, 0, 5) == 3.0;
    hide Half;
  }

  // The work is that of some number of splits, and at depth d below the limit
  // there are fewer than 2^d of them.
  lemma {:induction false} CostOfSplits(ar: Arithmetic, box: seq<Interval>, degree: nat, depth: nat) returns (splits: nat)
    requires |box| == SIZE && degree < SIZE && depth <= MAX_DEPTH
    ensures splits < Power2(MAX_DEPTH - depth)
    ensures Cost(ar, box, degree, depth) == (2 * splits + 1) * (degree + 1) + splits * SplitCost(degree)
    decreases MAX_DEPTH - depth
  {
    hide AllBounded, AllPositive, EndsPositive, LeftBox, RightBox, SplitCost, Cost;
    Verdict(ar, box, degree, depth);
    CostShape(ar, box, degree, depth);
    if AllBounded(box, degree) && !AllPositive(box, degree) && EndsPositive(box, degree) && depth < MAX_DEPTH {
      var a := CostOfSplits(ar, LeftBox(ar, box, degree), degree, depth + 1);
      var b := CostOfSplits(ar, RightBox(ar, box, degree), degree, depth + 1);
      splits := a + b + 1;
      SplitsAdd(a, b, degree + 1, SplitCost(degree));
    } else {
      splits := 0;
    }
  }

  lemma CostShape(ar: Arithmetic, box: seq<Interval>, degree: nat, depth: nat)
    requires |box| == SIZE && degree < SIZE
    ensures !(AllBounded(box, degree) && !AllPositive(box, degree) && EndsPositive(box, degree) && depth < MAX_DEPTH) ==>
      Cost(ar, box, degree, depth) == degree + 1
  {
    hide AllBounded, AllPositive, LeftBox, RightBox, SplitCost;
  }

  lemma SplitsAdd(a: nat, b: nat, n: nat, w: nat)
    ensures (2 * (a + b + 1) + 1) * n + (a + b + 1) * w
         == n + w + ((2 * a + 1) * n + a * w) + ((2 * b + 1) * n + b * w)
  {
  }

  // A budget for 65535 splits always brings a verdict.
  lemma CostBound(ar: Arithmetic, box: seq<Interval>, degree: nat)
    requires |box| == SIZE && degree < SIZE
    ensures Cost(ar, box, degree, 0) <= 131071 * (degree + 1) + 65535 * (4 * (degree * (degree + 1) / 2))
  {
    hide Cost, SplitCost, Power2;
    var splits := CostOfSplits(ar, box, degree, 0);
    SixteenHalvings();
    SplitCosts(degree, degree * (degree + 1) / 2);
    Scaled(splits, degree + 1, SplitCost(degree));
  }

  lemma SixteenHalvings()
    ensures Power2(MAX_DEPTH) == 65536
  {
    assert Power2(8) == 256;
  }

  lemma Scaled(splits: nat, n: nat, w: nat)
    requires splits <= 65535
    ensures (2 * splits + 1) * n + splits * w <= 131071 * n + 65535 * w
  {
    var rest := 65535 - splits;
    assert 131071 * n + 65535 * w == (2 * splits + 1) * n + splits * w + rest * (2 * n) + rest * w;
  }

  // ---------------------------------------------------------------- the stack

  datatype Pending = Pending(coefficients: seq<Interval>, depth: nat)

  // Depths grow towards the top; only the top two entries may share one.
  ghost predicate DepthsGrow(stack: seq<Pending>) {
    forall k :: 0 <= k < |stack| ==>
      && |stack[k].coefficients| == SIZE
      && k <= stack[k].depth <= MAX_DEPTH
      && (k + 1 < |stack| ==> k + 1 <= stack[k].depth)
  }

  lemma StackBounded(stack: seq<Pending>)
    requires DepthsGrow(stack)
    ensures |stack| <= MAX_DEPTH + 1
  {
    if |stack| > 0 {
      assert stack[|stack| - 1].depth >= |stack| - 1;
    }
  }

  ghost function StackCertified(ar: Arithmetic, degree: nat, stack: seq<Pending>): bool
    requires degree < SIZE && DepthsGrow(stack)
  {
    forall k :: 0 <= k < |stack| ==> Certified(ar, stack[k].coefficients, degree, stack[k].depth)
  }

  ghost function StackCost(ar: Arithmetic, degree: nat, stack: seq<Pending>): nat
    requires degree < SIZE && DepthsGrow(stack)
  {
    if stack == [] then 0
    else
      var last := |stack| - 1;
      StackCost(ar, degree, stack[..last]) + Cost(ar, stack[last].coefficients, degree, stack[last].depth)
  }

  lemma StackStart(ar: Arithmetic, degree: nat, box: seq<Interval>)
    requires degree < SIZE && |box| == SIZE
    ensures var stack := [Pending(box, 0)];
      && DepthsGrow(stack) && (StackCertified(ar, degree, stack) <==> Certified(ar, box, degree, 0))
      && StackCost(ar, degree, stack) == Cost(ar, box, degree, 0)
  {
    hide Certified, Cost;
    var stack := [Pending(box, 0)];
    assert DepthsGrow(stack);
    assert stack[..0] == [];
    assert StackCost(ar, degree, stack[..0]) == 0;
    assert stack[0] == Pending(box, 0);
  }

  // The rest of the stack without its top.
  lemma StackPopped(ar: Arithmetic, degree: nat, stack: seq<Pending>)
    requires degree < SIZE && DepthsGrow(stack) && stack != []
    ensures var last := |stack| - 1;
      && |stack| <= MAX_DEPTH + 1 && |stack[last].coefficients| == SIZE && stack[last].depth <= MAX_DEPTH
      && DepthsGrow(stack[..last])
      && (StackCertified(ar, degree, stack) <==>
            StackCertified(ar, degree, stack[..last]) && Certified(ar, stack[last].coefficients, degree, stack[last].depth))
  {
    hide Certified;
    StackBounded(stack);
    var last := |stack| - 1;
    assert forall k :: 0 <= k < last ==> stack[..last][k] == stack[k];
  }

  // The top replaced by its halves; the stack stays bounded.
  lemma StackSplit(ar: Arithmetic, degree: nat, stack: seq<Pending>, left: seq<Interval>, right: seq<Interval>)
    requires degree < SIZE && DepthsGrow(stack) && stack != [] && |left| == |right| == SIZE
    requires stack[|stack| - 1].depth < MAX_DEPTH
    ensures var last := |stack| - 1;
      var depth := stack[last].depth + 1;
      var split := stack[..last] + [Pending(right, depth), Pending(left, depth)];
      && DepthsGrow(stack[..last]) && DepthsGrow(split) && |split| <= MAX_DEPTH + 1
      && (StackCertified(ar, degree, split) <==>
            && StackCertified(ar, degree, stack[..last])
            && Certified(ar, left, degree, depth) && Certified(ar, right, degree, depth))
      && StackCost(ar, degree, split)
         == StackCost(ar, degree, stack[..last]) + Cost(ar, left, degree, depth) + Cost(ar, right, degree, depth)
  {
    hide Certified, Cost;
    var last := |stack| - 1;
    var depth := stack[last].depth + 1;
    var below := stack[..last];
    var one := below + [Pending(right, depth)];
    var split := below + [Pending(right, depth), Pending(left, depth)];
    assert forall k :: 0 <= k < last ==> below[k] == stack[k] && split[k] == stack[k];
    assert split[last] == Pending(right, depth) && split[last + 1] == Pending(left, depth);
    assert DepthsGrow(split);
    StackBounded(split);
    assert split[..last + 1] == one && one[..last] == below;
    assert DepthsGrow(one);
  }

  function Spend(remaining: nat, count: nat): Option<nat> {
    if count > remaining then None else Some(remaining - count)
  }

  // Whether all coefficients are finite, and whether all are positive.
  method Inspect(box: seq<Interval>, degree: nat) returns (bounded: bool, positive: bool)
    requires degree < |box|
    ensures bounded == AllBounded(box, degree)
    ensures bounded ==> positive == AllPositive(box, degree)
  {
    positive := true;
    for i := 0 to degree + 1
      invariant forall k :: 0 <= k < i ==> box[k].Bounded?
      invariant positive <==> forall k :: 0 <= k < i ==> PositiveInterval(box[k])
    {
      if box[i].Unbounded? {
        return false, false;
      }
      positive := positive && box[i].low > 0.0;
    }
    return true, positive;
  }

  lemma BoundedEnds(box: seq<Interval>, degree: nat)
    requires AllBounded(box, degree)
    ensures degree < |box| && box[0].Bounded? && box[degree].Bounded?
  {
  }

  lemma Verdict(ar: Arithmetic, box: seq<Interval>, degree: nat, depth: nat)
    requires |box| == SIZE && degree < SIZE
    ensures !AllBounded(box, degree) ==> !Certified(ar, box, degree, depth)
    ensures AllBounded(box, degree) && AllPositive(box, degree) ==>
      Certified(ar, box, degree, depth) && Cost(ar, box, degree, depth) == degree + 1
    ensures AllBounded(box, degree) && !AllPositive(box, degree) ==>
      var splits := EndsPositive(box, degree) && depth < MAX_DEPTH;
      && (!splits ==> !Certified(ar, box, degree, depth))
      && (splits ==>
            var left, right := LeftBox(ar, box, degree), RightBox(ar, box, degree);
            && Certified(ar, box, degree, depth)
               == (Certified(ar, left, degree, depth + 1) && Certified(ar, right, degree, depth + 1))
            && Cost(ar, box, degree, depth)
               == degree + 1 + SplitCost(degree) + Cost(ar, left, degree, depth + 1) + Cost(ar, right, degree, depth + 1))
    ensures Cost(ar, box, degree, depth) >= degree + 1
  {
    hide AllBounded, AllPositive, LeftBox, RightBox, SplitCost;
  }

  // The verdict is the recursive one, whatever the budget; the budget only
  // decides whether there is a verdict, and the work of the whole search
  // suffices. true is a proof of positivity for every polynomial inside the
  // intervals.
  method CertifyNumerator(ar: Arithmetic, coefficients: seq<Interval>, degree: nat, budget: nat)
    returns (r: Result<bool>, remaining: nat)
    requires ar.Outward() && |coefficients| == SIZE && 1 <= degree < SIZE
    ensures remaining <= budget
    ensures r.Err? ==> r.error == ResourceLimit
    ensures r.Ok? ==> r.value == Certified(ar, coefficients, degree, 0)
    ensures budget >= Cost(ar, coefficients, degree, 0) ==> r.Ok?
    ensures r == Ok(true) ==> remaining == budget - Cost(ar, coefficients, degree, 0)
    ensures r == Ok(true) ==>
      forall c {:trigger Encloses(coefficients, c)} :: |c| == degree + 1 && Encloses(coefficients, c) ==> Positive(c)
    ensures r.Ok? ==> Complete(ar, coefficients, degree, r.value)
  {
    hide Positive, Casteljau, Encloses, Complete, StackCertified, StackCost, LeftBox, RightBox,
      DepthsGrow, SplitCost, Certified, Cost, AllBounded, AllPositive;
    remaining := budget;
    AllComplete(ar, coefficients, degree);
    var pending := new Pending[MAX_DEPTH + 1](_ => Pending(seq(SIZE, _ => Exact(0.0)), 0));
    pending[0] := Pending(coefficients, 0);
    var count := 1;
    StackStart(ar, degree, coefficients);
    assert pending[..1] == [Pending(coefficients, 0)];
    while count > 0
      invariant 0 <= count <= MAX_DEPTH + 1
      invariant remaining <= budget
      invariant DepthsGrow(pending[..count])
      invariant Certified(ar, coefficients, degree, 0) == StackCertified(ar, degree, pending[..count])
      invariant budget - remaining + StackCost(ar, degree, pending[..count]) == Cost(ar, coefficients, degree, 0)
      decreases remaining
    {
      ghost var stack := pending[..count];
      StackPopped(ar, degree, stack);
      count := count - 1;
      var piece := pending[count];
      assert stack[count] == piece && stack[..count] == pending[..count];
      StackCostTop(ar, degree, stack);
      Verdict(ar, piece.coefficients, degree, piece.depth);
      var left := Spend(remaining, degree + 1);
      if left.None? {
        return Err(ResourceLimit), remaining;
      }
      remaining := left.value;
      var bounded, positive := Inspect(piece.coefficients, degree);
      if !bounded {
        return Ok(false), remaining;
      }
      if positive {
        continue;
      }
      BoundedEnds(piece.coefficients, degree);
      if piece.coefficients[0].high <= 0.0 || piece.coefficients[degree].high <= 0.0 || piece.depth == MAX_DEPTH {
        return Ok(false), remaining;
      }
      var work := degree * (degree + 1) / 2;
      SplitCosts(degree, work);
      left := Spend(remaining, 4 * work);
      if left.None? {
        return Err(ResourceLimit), remaining;
      }
      remaining := left.value;
      var leftBox, rightBox := Halve(ar, piece.coefficients, degree);
      StackSplit(ar, degree, stack, leftBox, rightBox);
      pending[count] := Pending(rightBox, piece.depth + 1);
      pending[count + 1] := Pending(leftBox, piece.depth + 1);
      count := count + 2;
      assert pending[..count]
          == stack[..count - 2] + [Pending(rightBox, piece.depth + 1), Pending(leftBox, piece.depth + 1)];
    }
    StackDone(ar, degree, pending[..count]);
    forall c {:trigger Encloses(coefficients, c)} | |c| == degree + 1 && Encloses(coefficients, c)
      ensures Positive(c)
    {
      CertifiedPositive(ar, coefficients, c, degree, 0);
    }
    return Ok(true), remaining;
  }

  lemma StackCostTop(ar: Arithmetic, degree: nat, stack: seq<Pending>)
    requires degree < SIZE && DepthsGrow(stack) && stack != [] && DepthsGrow(stack[..|stack| - 1])
    requires |stack[|stack| - 1].coefficients| == SIZE
    ensures var last := |stack| - 1;
      StackCost(ar, degree, stack)
      == StackCost(ar, degree, stack[..last]) + Cost(ar, stack[last].coefficients, degree, stack[last].depth)
  {
    hide Cost;
  }

  lemma SplitCosts(degree: nat, work: nat)
    requires work == degree * (degree + 1) / 2
    ensures SplitCost(degree) == 4 * work
  {
  }

  lemma StackDone(ar: Arithmetic, degree: nat, stack: seq<Pending>)
    requires degree < SIZE && stack == [] && DepthsGrow(stack)
    ensures StackCertified(ar, degree, stack) && StackCost(ar, degree, stack) == 0
  {
  }
}
