// Bernstein polynomials: the basis form, the derivative and the numerator
// A'W - AW' that nurbs_projection.cc builds from products of basis functions.
module Bernstein {
  import opened Reals
  import opened DeBoor
  import opened Polynomial

  function Differences(c: seq<real>): (d: seq<real>)
    requires |c| >= 1
    ensures |d| == |c| - 1
  {
    seq(|c| - 1, i requires 0 <= i < |c| - 1 => c[i + 1] - c[i])
  }

  // ---------------------------------------------------------------- derivative

  lemma LerpDifference(a: real, b: real, c: real, d: real, s: real)
    ensures Lerp(b - a, d - c, s) == Lerp(b, d, s) - Lerp(a, c, s)
  {
  }

  lemma {:induction false} CasteljauOfDifferences(c: seq<real>, s: real)
    requires |c| >= 2
    ensures Casteljau(Differences(c), s) == Casteljau(c[1..], s) - Casteljau(c[..|c| - 1], s)
  {
    var n := |c| - 1;
    if n > 1 {
      CasteljauOfDifferences(c[..n], s);
      CasteljauOfDifferences(c[1..], s);
      assert Differences(c)[..n - 1] == Differences(c[..n]);
      assert Differences(c)[1..] == Differences(c[1..]);
      assert c[..n][1..] == c[1..][..n - 1];
      assert c[..n][..n - 1] == c[..n - 1];
      LerpDifference(Casteljau(c[..n - 1], s), Casteljau(c[1..n], s),
                     Casteljau(c[1..n], s), Casteljau(c[2..], s), s);
      assert c[1..][1..] == c[2..] && c[1..][..n - 1] == c[1..n] && c[..n][1..] == c[1..n];
      hide Lerp;
    }
  }

  function CasteljauPolynomial(c: seq<real>, s: real): (q: seq<real>)
    requires |c| >= 1
    ensures |q| == |c|
  {
    if |c| == 1 then [c[0]]
    else LerpLinear(CasteljauPolynomial(c[..|c| - 1], s), CasteljauPolynomial(c[1..], s), s, 1.0)
  }

  lemma {:induction false} EvalCasteljauPolynomial(c: seq<real>, s: real, h: real)
    requires |c| >= 1
    ensures Eval(CasteljauPolynomial(c, s), h) == Casteljau(c, s + h)
  {
    if |c| == 1 {
      assert Eval([c[0]], h) == Horner(c[0], h, Eval([c[0]][1..], h));
    } else {
      EvalCasteljauPolynomial(c[..|c| - 1], s, h);
      EvalCasteljauPolynomial(c[1..], s, h);
      hide Lerp;
      EvalLerpLinear(CasteljauPolynomial(c[..|c| - 1], s), CasteljauPolynomial(c[1..], s), s, 1.0, h, s + h);
    }
  }

  function Scale(k: nat, x: real): real {
    k as real * x
  }

  lemma ScaleStep(n: nat, x: real)
    ensures Scale(n, x) + x == Scale(n + 1, x)
    ensures Scale(0, x) == 0.0
  {
    assert (n + 1) as real == n as real + 1.0;
  }

  lemma LerpScaled(k: nat, a: real, b: real, s: real)
    ensures Lerp(Scale(k, a), Scale(k, b), s) == Scale(k, Lerp(a, b, s))
  {
  }

  lemma {:induction false} CasteljauPolynomialLow(c: seq<real>, s: real)
    requires |c| >= 1
    ensures CasteljauPolynomial(c, s)[0] == Casteljau(c, s)
    ensures |c| >= 2 ==> CasteljauPolynomial(c, s)[1] == Scale(|c| - 1, Casteljau(Differences(c), s))
  {
    hide Lerp, Scale;
    var n := |c| - 1;
    if n >= 1 {
      CasteljauPolynomialLow(c[..n], s);
      CasteljauPolynomialLow(c[1..], s);
      LerpLinearLow(CasteljauPolynomial(c[..n], s), CasteljauPolynomial(c[1..], s), s, 1.0);
      CasteljauOfDifferences(c, s);
      ScaleStep(n - 1, Casteljau(Differences(c), s));
      if n >= 2 {
        assert Differences(c)[..n - 1] == Differences(c[..n]);
        assert Differences(c)[1..] == Differences(c[1..]);
        LerpScaled(n - 1, Casteljau(Differences(c[..n]), s), Casteljau(Differences(c[1..]), s), s);
      }
    }
  }

  lemma CasteljauDerivative(c: seq<real>, s: real)
    requires |c| >= 2
    ensures HasDerivative(x => Casteljau(c, x), s, Scale(|c| - 1, Casteljau(Differences(c), s)))
  {
    var f := x => Casteljau(c, x);
    forall h
      ensures f(s + h) == Eval(CasteljauPolynomial(c, s), h)
    {
      EvalCasteljauPolynomial(c, s, h);
    }
    CasteljauPolynomialLow(c, s);
    ExpansionGivesDerivative(f, s, CasteljauPolynomial(c, s));
  }

  // ---------------------------------------------------------------- basis form

  function Choose(n: nat, k: nat): nat {
    if k == 0 then 1 else if n == 0 then 0 else Choose(n - 1, k - 1) + Choose(n - 1, k)
  }

  lemma {:induction false} ChooseOutside(n: nat, k: nat)
    ensures k > n ==> Choose(n, k) == 0
    ensures k <= n ==> Choose(n, k) >= 1
  {
    if k > 0 && n > 0 {
      ChooseOutside(n - 1, k - 1);
      ChooseOutside(n - 1, k);
    }
  }

  // The exact division of the multiplicative formula.
  lemma {:induction false} ChooseStep(n: nat, k: nat)
    requires 1 <= k
    ensures Choose(n, k) * k == Choose(n, k - 1) * (n + 1 - k)
    decreases n, k
  {
    if n == 0 {
      if k == 1 { assert Choose(0, 1) == 0; } else { ChooseOutside(0, k - 1); }
    } else if k == 1 {
      ChooseStep(n - 1, 1);
    } else {
      ChooseStep(n - 1, k - 1);
      ChooseStep(n - 1, k);
      var a, b, c := Choose(n - 1, k - 2), Choose(n - 1, k - 1), Choose(n - 1, k);
      assert Choose(n, k - 1) == a + b && Choose(n, k) == b + c;
      PascalStep(n, k, a, b, c);
    }
  }

  lemma PascalStep(n: int, k: int, a: int, b: int, c: int)
    requires b * (k - 1) == a * (n + 1 - k) && c * k == b * (n - k)
    ensures (b + c) * k == (a + b) * (n + 1 - k)
  {
  }

  function Pow(x: real, n: nat): real {
    if n == 0 then 1.0 else x * Pow(x, n - 1)
  }

  lemma {:induction false} PowAdd(x: real, m: nat, n: nat)
    ensures Pow(x, m) * Pow(x, n) == Pow(x, m + n)
  {
    if m > 0 {
      PowAdd(x, m - 1, n);
      assert x * Pow(x, m - 1) * Pow(x, n) == x * (Pow(x, m - 1) * Pow(x, n));
    }
  }

  function Basis(n: nat, i: nat, s: real): real
    requires i <= n
  {
    Choose(n, i) as real * (Pow(s, i) * Pow(1.0 - s, n - i))
  }

  function Term(x: real, n: nat, i: nat, s: real): real
    requires i <= n
  {
    x * Basis(n, i, s)
  }

  // The sum of c[i] * Basis(n, i, s) over i < k.
  function Sum(c: seq<real>, n: nat, s: real, k: nat): real
    requires k <= |c| && k <= n + 1
  {
    if k == 0 then 0.0 else Sum(c, n, s, k - 1) + Term(c[k - 1], n, k - 1, s)
  }

  lemma BasisRecurrence(n: nat, i: nat, s: real)
    requires 1 <= i < n
    ensures Basis(n, i, s) == Lerp(Basis(n - 1, i, s), Basis(n - 1, i - 1, s), s)
  {
    var u, v := Choose(n - 1, i) as real, Choose(n - 1, i - 1) as real;
    assert Choose(n, i) as real == u + v;
    var x, y := Pow(s, i - 1), Pow(1.0 - s, n - 1 - i);
    assert Pow(s, i) == s * x && Pow(1.0 - s, n - i) == (1.0 - s) * y;
    hide Choose, Pow, Lerp;
    RecurrenceAlgebra(u, v, x, y, s);
  }

  lemma RecurrenceAlgebra(u: real, v: real, x: real, y: real, s: real)
    ensures (u + v) * ((s * x) * ((1.0 - s) * y)) == Lerp(u * ((s * x) * y), v * (x * ((1.0 - s) * y)), s)
  {
  }

  lemma BasisEnds(n: nat, s: real)
    requires n >= 1
    ensures Basis(n, 0, s) == Lerp(Basis(n - 1, 0, s), 0.0, s)
    ensures Basis(n, n, s) == Lerp(0.0, Basis(n - 1, n - 1, s), s)
  {
    ChooseOutside(n - 1, n);
    assert Choose(n, n) == Choose(n - 1, n - 1);
    var c, x := Choose(n, n) as real, Pow(s, n - 1);
    assert c * ((s * x) * 1.0) == s * (c * (x * 1.0));
  }

  lemma TermIs(x: real, n: nat, i: nat, s: real)
    requires i <= n
    ensures Term(x, n, i, s) == Times(x, Basis(n, i, s))
  {
    hide Basis;
  }

  lemma TermRecurrence(x: real, n: nat, i: nat, s: real)
    requires 1 <= i < n
    ensures Term(x, n, i, s) == Lerp(Term(x, n - 1, i, s), Term(x, n - 1, i - 1, s), s)
  {
    hide Basis, Term, Times, Lerp;
    TermIs(x, n, i, s);
    TermIs(x, n - 1, i, s);
    TermIs(x, n - 1, i - 1, s);
    BasisRecurrence(n, i, s);
    LerpTimes(x, Basis(n - 1, i, s), Basis(n - 1, i - 1, s), s);
  }

  lemma LerpTimes(x: real, a: real, b: real, s: real)
    ensures Times(x, Lerp(a, b, s)) == Lerp(Times(x, a), Times(x, b), s)
    ensures Times(x, 0.0) == 0.0
  {
  }

  lemma TermEnds(x: real, n: nat, s: real)
    requires n >= 1
    ensures Term(x, n, 0, s) == Lerp(Term(x, n - 1, 0, s), 0.0, s)
    ensures Term(x, n, n, s) == Lerp(0.0, Term(x, n - 1, n - 1, s), s)
  {
    hide Basis, Term, Times, Lerp;
    TermIs(x, n, 0, s);
    TermIs(x, n - 1, 0, s);
    TermIs(x, n, n, s);
    TermIs(x, n - 1, n - 1, s);
    BasisEnds(n, s);
    LerpTimes(x, Basis(n - 1, 0, s), 0.0, s);
    LerpTimes(x, 0.0, Basis(n - 1, n - 1, s), s);
  }

  lemma LerpSum(a: real, b: real, c: real, d: real, s: real)
    ensures Lerp(a, b, s) + Lerp(c, d, s) == Lerp(a + c, b + d, s)
  {
  }

  // One level of de Casteljau, summed up to term k.
  lemma {:induction false} SumStep(c: seq<real>, s: real, k: nat)
    requires |c| >= 2 && 1 <= k < |c|
    ensures Sum(c, |c| - 1, s, k) == Lerp(Sum(c[..|c| - 1], |c| - 2, s, k), Sum(c[1..], |c| - 2, s, k - 1), s)
  {
    hide Term, Lerp;
    var n, low, high := |c| - 1, c[..|c| - 1], c[1..];
    if k == 1 {
      TermEnds(c[0], n, s);
      assert Sum(c, n, s, 1) == Sum(c, n, s, 0) + Term(c[0], n, 0, s);
      assert Sum(low, n - 1, s, 1) == Sum(low, n - 1, s, 0) + Term(c[0], n - 1, 0, s);
    } else {
      SumStep(c, s, k - 1);
      TermRecurrence(c[k - 1], n, k - 1, s);
      LerpSum(Sum(low, n - 1, s, k - 1), Sum(high, n - 1, s, k - 2),
              Term(c[k - 1], n - 1, k - 1, s), Term(c[k - 1], n - 1, k - 2, s), s);
      assert low[k - 1] == c[k - 1] && high[k - 2] == c[k - 1];
    }
  }

  // de Casteljau's algorithm evaluates the Bernstein form.
  lemma {:induction false} BernsteinForm(c: seq<real>, s: real)
    requires |c| >= 1
    ensures Casteljau(c, s) == Sum(c, |c| - 1, s, |c|)
  {
    var n := |c| - 1;
    if n == 0 {
      assert Sum(c, 0, s, 1) == Sum(c, 0, s, 0) + Term(c[0], 0, 0, s);
    } else {
      hide Term, Lerp;
      BernsteinForm(c[..n], s);
      BernsteinForm(c[1..], s);
      SumStep(c, s, n);
      TermEnds(c[n], n, s);
      assert Sum(c, n, s, n + 1) == Sum(c, n, s, n) + Term(c[n], n, n, s);
      assert Sum(c[1..], n - 1, s, n) == Sum(c[1..], n - 1, s, n - 1) + Term(c[n], n - 1, n - 1, s);
      LerpSum(Sum(c[..n], n - 1, s, n), Sum(c[1..], n - 1, s, n - 1), 0.0, Term(c[n], n - 1, n - 1, s), s);
    }
  }

  // ---------------------------------------------------------------- numerator

  lemma TermSum(x: real, y: real, n: nat, i: nat, s: real)
    requires i <= n
    ensures Term(x + y, n, i, s) == Term(x, n, i, s) + Term(y, n, i, s)
  {
    var b := Basis(n, i, s);
    assert (x + y) * b == x * b + y * b;
    hide Basis;
  }

  lemma {:induction false} SumUpdated(c: seq<real>, n: nat, s: real, k: nat, i: nat, x: real)
    requires i < |c| && k <= |c| && k <= n + 1
    ensures Sum(c[i := c[i] + x], n, s, k) == Sum(c, n, s, k) + (if i < k then Term(x, n, i, s) else 0.0)
  {
    hide Term;
    if k > 0 {
      SumUpdated(c, n, s, k - 1, i, x);
      if i == k - 1 {
        TermSum(c[i], x, n, i, s);
      }
    }
  }

  // p * C(p-1, i) * C(p, j) / C(2p-1, i+j)
  function Factor(p: nat, i: nat, j: nat): real
    requires i < p && j <= p
  {
    ChooseOutside(2 * p - 1, i + j);
    (p * Choose(p - 1, i) * Choose(p, j)) as real / Choose(2 * p - 1, i + j) as real
  }

  lemma FactorIsQuotient(p: nat, i: nat, j: nat)
    requires i < p && j <= p
    ensures Factor(p, i, j) * Choose(2 * p - 1, i + j) as real
         == p as real * Choose(p - 1, i) as real * Choose(p, j) as real
  {
    hide Choose;
    ChooseOutside(2 * p - 1, i + j);
    ProductOfCasts(p, Choose(p - 1, i), Choose(p, j));
    DivideBack((p * Choose(p - 1, i) * Choose(p, j)) as real, Choose(2 * p - 1, i + j) as real);
  }

  lemma DivideBack(x: real, d: real)
    requires d > 0.0
    ensures x / d * d == x
  {
  }

  lemma ProductOfCasts(a: nat, b: nat, c: nat)
    ensures (a * b * c) as real == a as real * b as real * c as real
  {
    assert (a * b * c) as real == (a * b) as real * c as real;
  }

  lemma BasisProduct(n: nat, i: nat, m: nat, j: nat, s: real)
    requires i <= n && j <= m
    ensures Pow(s, i) * Pow(1.0 - s, n - i) * (Pow(s, j) * Pow(1.0 - s, m - j))
         == Pow(s, i + j) * Pow(1.0 - s, n + m - i - j)
  {
    hide Pow;
    var r := 1.0 - s;
    PowAdd(s, i, j);
    PowAdd(r, n - i, m - j);
    assert n - i + (m - j) == n + m - i - j;
    Regroup(Pow(s, i), Pow(r, n - i), Pow(s, j), Pow(r, m - j));
  }

  lemma Regroup(x: real, u: real, y: real, v: real)
    ensures x * u * (y * v) == (x * y) * (u * v)
  {
  }

  lemma FactorTimesBasis(p: nat, i: nat, j: nat, s: real)
    requires i < p && j <= p
    ensures Factor(p, i, j) * Basis(2 * p - 1, i + j, s) == p as real * (Basis(p - 1, i, s) * Basis(p, j, s))
  {
    hide Factor, Pow, Choose;
    FactorIsQuotient(p, i, j);
    BasisProduct(p - 1, i, p, j, s);
    FactorAlgebra(Factor(p, i, j), Choose(2 * p - 1, i + j) as real, p as real,
                  Choose(p - 1, i) as real, Choose(p, j) as real,
                  Pow(s, i) * Pow(1.0 - s, p - 1 - i), Pow(s, j) * Pow(1.0 - s, p - j));
  }

  lemma FactorAlgebra(f: real, d: real, k: real, a: real, b: real, x: real, y: real)
    requires f * d == k * a * b
    ensures f * (d * (x * y)) == k * ((a * x) * (b * y))
  {
    var z := x * y;
    assert f * (d * z) == (f * d) * z;
    assert k * ((a * x) * (b * y)) == (k * a * b) * z;
  }

  function Det(da: real, dw: real, w: real, a: real): real {
    da * w - dw * a
  }

  function Cross(a: seq<real>, w: seq<real>, i: nat, j: nat): real
    requires |a| == |w| && i + 1 < |a| && j < |a|
  {
    Det(a[i + 1] - a[i], w[i + 1] - w[i], w[j], a[j])
  }

  // What pair (i, j) adds to coefficient i + j.
  function PairTerm(a: seq<real>, w: seq<real>, p: nat, i: nat, j: nat): real
    requires |a| == |w| == p + 1 && i < p && j <= p
  {
    Factor(p, i, j) * Cross(a, w, i, j)
  }

  // The coefficients after all pairs lexicographically before (i, j).
  function NumeratorAfter(a: seq<real>, w: seq<real>, p: nat, size: nat, i: nat, j: nat): (r: seq<real>)
    requires |a| == |w| == p + 1 && 2 * p <= size && i <= p && j <= p + 1 && (i == p ==> j == 0)
    ensures |r| == size
    decreases i, j
  {
    if j > 0 then
      var r := NumeratorAfter(a, w, p, size, i, j - 1);
      r[i + j - 1 := r[i + j - 1] + PairTerm(a, w, p, i, j - 1)]
    else if i > 0 then NumeratorAfter(a, w, p, size, i - 1, p + 1)
    else Repeat(0.0, size)
  }

  // The part of A'W - AW' (up to the factor p) those pairs contribute.
  function CrossSums(a: seq<real>, w: seq<real>, p: nat, s: real, i: nat, j: nat): real
    requires |a| == |w| == p + 1 && 1 <= p && i <= p && j <= p + 1 && (i == p ==> j == 0)
  {
    var da, dw := Differences(a), Differences(w);
    Det(Sum(da, p - 1, s, i), Sum(dw, p - 1, s, i), Sum(w, p, s, p + 1), Sum(a, p, s, p + 1))
    + (if i == p then 0.0 else Term(Det(da[i], dw[i], Sum(w, p, s, j), Sum(a, p, s, j)), p - 1, i, s))
  }

  lemma CrossTerm(a: seq<real>, w: seq<real>, p: nat, i: nat, j: nat, s: real)
    requires |a| == |w| == p + 1 && i < p && j <= p
    ensures Term(PairTerm(a, w, p, i, j), 2 * p - 1, i + j, s)
         == Scale(p, Term(Term(Cross(a, w, i, j), p, j, s), p - 1, i, s))
  {
    hide Factor, Basis, Cross;
    FactorTimesBasis(p, i, j, s);
    CrossTermAlgebra(Factor(p, i, j), Cross(a, w, i, j), Basis(2 * p - 1, i + j, s),
                     p as real, Basis(p - 1, i, s), Basis(p, j, s));
  }

  lemma CrossTermAlgebra(f: real, x: real, b: real, k: real, u: real, v: real)
    requires f * b == k * (u * v)
    ensures (f * x) * b == k * ((x * v) * u)
  {
    assert (f * x) * b == (f * b) * x;
  }

  // Adding the term of pair (i, j).
  lemma CrossSumsInner(a: seq<real>, w: seq<real>, p: nat, s: real, i: nat, j: nat)
    requires |a| == |w| == p + 1 && 1 <= p && i < p && j <= p
    ensures CrossSums(a, w, p, s, i, j + 1)
         == CrossSums(a, w, p, s, i, j) + Term(Term(Cross(a, w, i, j), p, j, s), p - 1, i, s)
  {
    hide Term, Det;
    var da, dw := Differences(a), Differences(w);
    var x, y := Sum(w, p, s, j), Sum(a, p, s, j);
    DetInner(da[i], dw[i], x, y, w[j], a[j], p, j, s);
    TermSum(Det(da[i], dw[i], x, y), Term(Cross(a, w, i, j), p, j, s), p - 1, i, s);
  }

  lemma DetInner(da: real, dw: real, x: real, y: real, w: real, a: real, n: nat, j: nat, s: real)
    requires j <= n
    ensures Det(da, dw, x + Term(w, n, j, s), y + Term(a, n, j, s))
         == Det(da, dw, x, y) + Term(Det(da, dw, w, a), n, j, s)
  {
    var b := Basis(n, j, s);
    assert da * (x + w * b) - dw * (y + a * b) == (da * x - dw * y) + (da * w - dw * a) * b;
    hide Basis;
  }

  // Moving on to the next i.
  lemma CrossSumsOuter(a: seq<real>, w: seq<real>, p: nat, s: real, i: nat)
    requires |a| == |w| == p + 1 && 1 <= p && i < p
    ensures CrossSums(a, w, p, s, i, p + 1) == CrossSums(a, w, p, s, i + 1, 0)
  {
    hide Term, Det;
    var da, dw := Differences(a), Differences(w);
    DetOuter(Sum(da, p - 1, s, i), Sum(dw, p - 1, s, i), da[i], dw[i],
             Sum(w, p, s, p + 1), Sum(a, p, s, p + 1), p - 1, i, s);
    if i + 1 < p {
      EmptyTerm(da[i + 1], dw[i + 1], p - 1, i + 1, s);
    }
  }

  lemma EmptyTerm(x: real, y: real, n: nat, i: nat, s: real)
    requires i <= n
    ensures Term(Det(x, y, 0.0, 0.0), n, i, s) == 0.0
  {
  }

  lemma DetOuter(u: real, v: real, da: real, dw: real, x: real, y: real, n: nat, i: nat, s: real)
    requires i <= n
    ensures Det(u + Term(da, n, i, s), v + Term(dw, n, i, s), x, y)
         == Det(u, v, x, y) + Term(Det(da, dw, x, y), n, i, s)
  {
    var b := Basis(n, i, s);
    assert u * x - v * y + (da * x - dw * y) * b == (u + da * b) * x - (v + dw * b) * y;
    hide Basis;
  }

  lemma {:induction false} NumeratorSum(a: seq<real>, w: seq<real>, p: nat, size: nat, s: real, i: nat, j: nat)
    requires |a| == |w| == p + 1 && 1 <= p && 2 * p <= size && i <= p && j <= p + 1 && (i == p ==> j == 0)
    ensures Sum(NumeratorAfter(a, w, p, size, i, j), 2 * p - 1, s, 2 * p) == Scale(p, CrossSums(a, w, p, s, i, j))
    decreases i, j
  {
    hide Scale, PairTerm, CrossSums, Term;
    if j > 0 {
      NumeratorSum(a, w, p, size, s, i, j - 1);
      NumeratorPair(a, w, p, size, s, i, j);
    } else if i > 0 {
      NumeratorSum(a, w, p, size, s, i - 1, p + 1);
      CrossSumsOuter(a, w, p, s, i - 1);
    } else {
      SumOfZeros(size, 2 * p - 1, s, 2 * p);
      CrossSumsStart(a, w, p, s);
    }
  }

  lemma NumeratorPair(a: seq<real>, w: seq<real>, p: nat, size: nat, s: real, i: nat, j: nat)
    requires |a| == |w| == p + 1 && 1 <= p && 2 * p <= size && i < p && 1 <= j <= p + 1
    requires Sum(NumeratorAfter(a, w, p, size, i, j - 1), 2 * p - 1, s, 2 * p)
          == Scale(p, CrossSums(a, w, p, s, i, j - 1))
    ensures Sum(NumeratorAfter(a, w, p, size, i, j), 2 * p - 1, s, 2 * p) == Scale(p, CrossSums(a, w, p, s, i, j))
  {
    hide Scale, PairTerm, CrossSums, Cross, Term;
    SumUpdated(NumeratorAfter(a, w, p, size, i, j - 1), 2 * p - 1, s, 2 * p, i + j - 1, PairTerm(a, w, p, i, j - 1));
    CrossTerm(a, w, p, i, j - 1, s);
    CrossSumsInner(a, w, p, s, i, j - 1);
    ScaleSum(p, CrossSums(a, w, p, s, i, j - 1), Term(Term(Cross(a, w, i, j - 1), p, j - 1, s), p - 1, i, s));
  }

  lemma ScaleSum(k: nat, x: real, y: real)
    ensures Scale(k, x + y) == Scale(k, x) + Scale(k, y)
  {
  }

  lemma {:induction false} SumOfZeros(size: nat, n: nat, s: real, k: nat)
    requires k <= size && k <= n + 1
    ensures Sum(Repeat(0.0, size), n, s, k) == 0.0
  {
    if k > 0 {
      SumOfZeros(size, n, s, k - 1);
    }
  }

  lemma CrossSumsStart(a: seq<real>, w: seq<real>, p: nat, s: real)
    requires |a| == |w| == p + 1 && 1 <= p
    ensures Scale(p, CrossSums(a, w, p, s, 0, 0)) == 0.0
  {
    EmptyTerm(Differences(a)[0], Differences(w)[0], p - 1, 0, s);
    assert CrossSums(a, w, p, s, 0, 0) == 0.0;
  }

  lemma {:induction false} SumPrefix(c: seq<real>, m: nat, n: nat, s: real, k: nat)
    requires k <= m <= |c| && k <= n + 1
    ensures Sum(c[..m], n, s, k) == Sum(c, n, s, k)
  {
    if k > 0 {
      SumPrefix(c, m, n, s, k - 1);
    }
  }

  // The rational derivative numerator A'W - AW' of the Bernstein polynomials
  // on a and w, at s.
  function CrossDerivative(a: seq<real>, w: seq<real>, s: real): real
    requires |a| == |w| >= 2
  {
    Det(Scale(|a| - 1, Casteljau(Differences(a), s)), Scale(|w| - 1, Casteljau(Differences(w), s)),
        Casteljau(w, s), Casteljau(a, s))
  }

  // The Bernstein product formula is exact: the 2p coefficients represent
  // A'W - AW'.
  lemma NumeratorIsCrossDerivative(a: seq<real>, w: seq<real>, p: nat, size: nat, s: real)
    requires |a| == |w| == p + 1 && 1 <= p && 2 * p <= size
    ensures Casteljau(NumeratorAfter(a, w, p, size, p, 0)[..2 * p], s) == CrossDerivative(a, w, s)
  {
    hide Term, Det, Scale;
    var r := NumeratorAfter(a, w, p, size, p, 0);
    NumeratorSum(a, w, p, size, s, p, 0);
    SumPrefix(r, 2 * p, 2 * p - 1, s, 2 * p);
    BernsteinForm(r[..2 * p], s);
    BernsteinForm(a, s);
    BernsteinForm(w, s);
    BernsteinForm(Differences(a), s);
    BernsteinForm(Differences(w), s);
    DetScaled(p, Casteljau(Differences(a), s), Casteljau(Differences(w), s), Casteljau(w, s), Casteljau(a, s));
  }

  lemma DetScaled(k: nat, da: real, dw: real, w: real, a: real)
    ensures Scale(k, Det(da, dw, w, a)) == Det(Scale(k, da), Scale(k, dw), w, a)
  {
  }
}
