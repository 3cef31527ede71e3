// Polynomials in one variable as coefficient lists, lowest power first, and
// the derivative they give.
module Polynomial {
  import opened Reals
  import opened DeBoor

  function Horner(a: real, h: real, e: real): real {
    a + h * e
  }

  function Eval(q: seq<real>, h: real): real {
    if q == [] then 0.0 else Horner(q[0], h, Eval(q[1..], h))
  }

  function Norm(q: seq<real>): (r: real)
    ensures r >= 0.0
  {
    if q == [] then 0.0 else Abs(q[0]) + Norm(q[1..])
  }

  lemma ProductNonNegative(x: real, y: real)
    requires x >= 0.0 && y >= 0.0
    ensures x * y >= 0.0
  {
  }

  lemma HornerBound(a: real, h: real, e: real)
    requires -1.0 <= h <= 1.0
    ensures Abs(Horner(a, h, e)) <= Abs(a) + Abs(e)
  {
    ProductNonNegative(1.0 - h, Abs(e));
    ProductNonNegative(1.0 + h, Abs(e));
    assert h * e == if e < 0.0 then -(h * Abs(e)) else h * Abs(e);
  }

  lemma {:induction false} EvalBounded(q: seq<real>, h: real)
    requires -1.0 <= h <= 1.0
    ensures Abs(Eval(q, h)) <= Norm(q)
  {
    if q != [] {
      EvalBounded(q[1..], h);
      HornerBound(q[0], h, Eval(q[1..], h));
    }
  }

  // q + (alpha + beta * h) * (r - q), one power higher.
  function LerpLinear(q: seq<real>, r: seq<real>, alpha: real, beta: real): (result: seq<real>)
    requires |q| == |r|
    ensures |result| == |q| + 1
  {
    if q == [] then [0.0]
    else
      var rest := LerpLinear(q[1..], r[1..], alpha, beta);
      [Lerp(q[0], r[0], alpha)] + rest[0 := rest[0] + beta * (r[0] - q[0])]
  }

  lemma HornerLerp(q0: real, r0: real, a: real, b: real, alpha: real, beta: real, h: real, bump: real, s: real)
    requires bump == beta * (r0 - q0) && s == alpha + beta * h
    ensures Horner(Lerp(q0, r0, alpha), h, Lerp(a, b, s) + bump) == Lerp(Horner(q0, h, a), Horner(r0, h, b), s)
  {
    var gap := r0 - q0;
    assert h * bump == (s - alpha) * gap by {
      assert h * (beta * gap) == (beta * h) * gap;
    }
    assert h * (Lerp(a, b, s) + bump) == h * Lerp(a, b, s) + h * bump;
    LerpOfSums(q0, r0, a, b, h, s);
  }

  lemma LerpOfSums(q0: real, r0: real, a: real, b: real, h: real, s: real)
    ensures Lerp(Horner(q0, h, a), Horner(r0, h, b), s) == Lerp(q0, r0, s) + h * Lerp(a, b, s)
  {
  }

  lemma EvalFirst(q: seq<real>, x: real, h: real)
    requires q != []
    ensures Eval(q[0 := x], h) == Eval(q, h) + (x - q[0])
  {
    assert q[0 := x][1..] == q[1..];
  }

  lemma {:induction false} EvalLerpLinear(q: seq<real>, r: seq<real>, alpha: real, beta: real, h: real, s: real)
    requires |q| == |r| && s == alpha + beta * h
    ensures Eval(LerpLinear(q, r, alpha, beta), h) == Lerp(Eval(q, h), Eval(r, h), s)
  {
    if q == [] {
      assert Eval([0.0], h) == Horner(0.0, h, Eval([0.0][1..], h));
    } else {
      EvalLerpLinear(q[1..], r[1..], alpha, beta, h, s);
      var rest, bump := LerpLinear(q[1..], r[1..], alpha, beta), beta * (r[0] - q[0]);
      EvalFirst(rest, rest[0] + bump, h);
      HornerLerp(q[0], r[0], Eval(q[1..], h), Eval(r[1..], h), alpha, beta, h, bump, s);
      hide Lerp, Horner;
      var l := LerpLinear(q, r, alpha, beta);
      assert l[0] == Lerp(q[0], r[0], alpha);
      assert l[1..] == rest[0 := rest[0] + bump];
      assert Eval(l, h) == Horner(l[0], h, Eval(l[1..], h));
    }
  }

  lemma LerpLinearLow(q: seq<real>, r: seq<real>, alpha: real, beta: real)
    requires |q| == |r| >= 1
    ensures LerpLinear(q, r, alpha, beta)[0] == Lerp(q[0], r[0], alpha)
    ensures LerpLinear(q, r, alpha, beta)[1]
         == (if |q| == 1 then 0.0 else Lerp(q[1], r[1], alpha)) + beta * (r[0] - q[0])
  {
  }

  // ---------------------------------------------------------------- derivative

  // f(t + h) == f(t) + h * d + h^2 * rest(h), for every h.
  ghost predicate Expansion(f: real -> real, t: real, d: real, rest: seq<real>) {
    forall h :: f(t + h) == Horner(f(t), h, Horner(d, h, Eval(rest, h)))
  }

  ghost predicate HasDerivative(f: real -> real, t: real, d: real) {
    exists rest :: Expansion(f, t, d, rest)
  }

  lemma ExpansionGivesDerivative(f: real -> real, t: real, q: seq<real>)
    requires |q| >= 2
    requires forall h :: f(t + h) == Eval(q, h)
    ensures HasDerivative(f, t, q[1])
  {
    assert f(t + 0.0) == Eval(q, 0.0) == q[0] && t + 0.0 == t;
    forall h
      ensures f(t + h) == Horner(f(t), h, Horner(q[1], h, Eval(q[2..], h)))
    {
      assert q[1..][1..] == q[2..];
      assert f(t + h) == Eval(q, h);
      assert Eval(q[1..], h) == Horner(q[1], h, Eval(q[2..], h));
    }
    assert Expansion(f, t, q[1], q[2..]);
  }

  // A derivative in this sense is unique.
  lemma DerivativeUnique(f: real -> real, g: real -> real, t: real, d: real, e: real)
    requires forall x :: f(x) == g(x)
    requires HasDerivative(f, t, d) && HasDerivative(g, t, e)
    ensures d == e
  {
    var q :| Expansion(f, t, d, q);
    var r :| Expansion(g, t, e, r);
    if d != e {
      var total := Norm(q) + Norm(r) + Abs(d - e);
      var h := HalfStep(Abs(d - e), total);
      EvalBounded(q, h);
      EvalBounded(r, h);
      assert f(t + h) == Horner(f(t), h, Horner(d, h, Eval(q, h)));
      assert g(t + h) == Horner(g(t), h, Horner(e, h, Eval(r, h)));
      SameSlope(f(t), h, Horner(d, h, Eval(q, h)), Horner(e, h, Eval(r, h)));
      TooClose(d, e, Eval(q, h), Eval(r, h), h, total);
    }
  }

  lemma HalfStep(gap: real, total: real) returns (h: real)
    requires 0.0 < gap <= total
    ensures 0.0 < h <= 1.0 && h * total == gap / 2.0
  {
    var k := gap / total;
    h := k / 2.0;
    assert k * total == gap;
  }

  lemma SameSlope(a: real, h: real, x: real, y: real)
    requires h > 0.0 && Horner(a, h, x) == Horner(a, h, y)
    ensures x == y
  {
    assert h * (x - y) == 0.0;
  }

  lemma TooClose(d: real, e: real, a: real, b: real, h: real, total: real)
    requires 0.0 < h && Abs(a) + Abs(b) <= total && h * total == Abs(d - e) / 2.0
    requires Horner(d, h, a) == Horner(e, h, b)
    ensures d == e
  {
    assert h * (b - a) == h * b - h * a;
    assert -(h * total) <= h * (b - a) <= h * total;
  }

  // Change of variable t == a + s * (b - a).
  lemma DerivativeRescaled(f: real -> real, g: real -> real, a: real, b: real, s: real, d: real, e: real)
    requires forall x :: g(x) == f(Lerp(a, b, x))
    requires HasDerivative(f, Lerp(a, b, s), d) && e == (b - a) * d
    ensures HasDerivative(g, s, e)
  {
    var q :| Expansion(f, Lerp(a, b, s), d, q);
    var w := b - a;
    var r := Scaled(q, w, w * w);
    forall h
      ensures g(s + h) == Horner(g(s), h, Horner(e, h, Eval(r, h)))
    {
      EvalScaled(q, w, w * w, h);
      assert Lerp(a, b, s + h) == Lerp(a, b, s) + w * h;
      assert g(s + h) == f(Lerp(a, b, s) + w * h) && g(s) == f(Lerp(a, b, s));
      assert f(Lerp(a, b, s) + w * h) == Horner(g(s), w * h, Horner(d, w * h, Eval(q, w * h)));
      RescaledTerms(g(s), w, h, d, Eval(q, w * h));
    }
    assert Expansion(g, s, e, r);
  }

  lemma RescaledTerms(c: real, w: real, h: real, d: real, e: real)
    ensures Horner(c, w * h, Horner(d, w * h, e)) == Horner(c, h, Horner(w * d, h, (w * w) * e))
  {
  }

  // c * q(w * h)
  function Scaled(q: seq<real>, w: real, c: real): seq<real> {
    if q == [] then [] else [c * q[0]] + Scaled(q[1..], w, c * w)
  }

  lemma ScaledTerms(c: real, a: real, w: real, h: real, e: real)
    ensures Horner(c * a, h, (c * w) * e) == c * Horner(a, w * h, e)
  {
  }

  lemma {:induction false} EvalScaled(q: seq<real>, w: real, c: real, h: real)
    ensures Eval(Scaled(q, w, c), h) == c * Eval(q, w * h)
  {
    if q != [] {
      EvalScaled(q[1..], w, c * w, h);
      assert Scaled(q, w, c)[1..] == Scaled(q[1..], w, c * w);
      ScaledTerms(c, q[0], w, h, Eval(q[1..], w * h));
    }
  }
}
