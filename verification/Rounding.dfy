// The rounded projection of one pole step, and the margin that covers it.
module Rounding {
  import opened Reals
  import opened IntervalArithmetic

  // Rounding to nearest is off by at most the fraction epsilon, and hypot is
  // at most that much too small.
  ghost predicate Near(ar: Arithmetic) {
    && 0.0 <= ar.epsilon <= 0.001
    && (forall x :: Close(ar.epsilon, x, ar.nearest(x)))
    && (forall x, y, z :: Covers(ar.epsilon, ar.norm(x, y, z), x) && Covers(ar.epsilon, ar.norm(x, y, z), y)
                          && Covers(ar.epsilon, ar.norm(x, y, z), z))
  }

  predicate Close(u: real, exact: real, rounded: real) {
    Abs(rounded - exact) <= Times(u, Abs(exact))
  }

  predicate Covers(u: real, length: real, x: real) {
    Times(1.0 - u, Abs(x)) <= length
  }

  // Three products added one after the other, each operation rounded.
  function RoundedSum(ar: Arithmetic, x: real, y: real, z: real, dx: real, dy: real, dz: real): real {
    var first := ar.nearest(0.0 + ar.nearest(Times(x, dx)));
    var second := ar.nearest(first + ar.nearest(Times(y, dy)));
    ar.nearest(second + ar.nearest(Times(z, dz)))
  }

  function Margin(ar: Arithmetic, length: real): real {
    ar.nearest(Times(64.0 * ar.epsilon, length))
  }

  // ---------------------------------------------------------------- products

  lemma AbsTimes(x: real, y: real)
    ensures Abs(Times(x, y)) == Times(Abs(x), Abs(y)) >= 0.0
  {
  }

  lemma TimesLe(u: real, x: real, y: real)
    requires u >= 0.0 && x <= y
    ensures Times(u, x) <= Times(u, y)
  {
  }

  lemma Linear(u: real, x: real, y: real)
    ensures Times(u, x + y) == Times(u, x) + Times(u, y)
  {
  }

  lemma Scaled(u: real, k: real, x: real)
    ensures Times(u, k * x) == k * Times(u, x)
  {
  }

  lemma Nonnegative(x: real, y: real)
    requires x >= 0.0 && y >= 0.0
    ensures x * y >= 0.0
  {
  }

  // A small fraction of a size is small against it.
  lemma SmallPart(u: real, x: real)
    requires 0.0 <= u <= 0.001 && x >= 0.0
    ensures 0.0 <= Times(u, x) <= 0.001 * x
  {
    Nonnegative(u, x);
    Nonnegative(0.001 - u, x);
  }

  lemma CloseSize(u: real, exact: real, rounded: real)
    requires 0.0 <= u <= 0.001 && Close(u, exact, rounded)
    ensures 0.999 * Abs(exact) <= Abs(rounded) <= 1.001 * Abs(exact)
  {
    SmallPart(u, Abs(exact));
  }

  // The product of a rounded factor, rounded again.
  lemma ProductError(u: real, s: real, s': real, d: real, q: real)
    requires 0.0 <= u <= 0.001 && Close(u, s, s') && Close(u, Times(s', d), q)
    ensures Abs(q - Times(s, d)) <= 2.01 * Times(u, Abs(Times(s, d)))
    ensures Abs(q) <= 1.01 * Abs(Times(s, d))
  {
    var a, a' := Times(s, d), Times(s', d);
    AbsTimes(s, d);
    AbsTimes(s' - s, d);
    assert a' - a == Times(s' - s, d) by {
      assert (s' - s) * d == s' * d - s * d;
    }
    FactorError(u, Abs(s' - s), Abs(s), Abs(d));
    assert Abs(a' - a) <= Times(u, Abs(a));
    SmallPart(u, Abs(a));
    TimesLe(u, Abs(a'), 1.001 * Abs(a));
    Scaled(u, 1.001, Abs(a));
  }

  lemma FactorError(u: real, e: real, s: real, d: real)
    requires 0.0 <= e <= Times(u, s) && d >= 0.0
    ensures Times(e, d) <= Times(u, Times(s, d))
  {
    assert u * s * d - e * d == (u * s - e) * d;
  }

  // One more rounded product on a rounded sum that is off by k parts.
  lemma SumError(u: real, k: real, p: real, a: real, q: real, b: real, r: real, wa: real, wb: real)
    requires 0.0 <= u <= 0.001 && 0.0 <= k <= 10.0 && wa >= 0.0 && wb >= 0.0
    requires Abs(p - a) <= k * Times(u, wa) && Abs(a) <= wa
    requires Abs(q - b) <= 2.01 * Times(u, wb) && Abs(q) <= 1.01 * wb
    requires Close(u, p + q, r)
    ensures Abs(r - (a + b)) <= (k + 1.01) * Times(u, wa) + 3.02 * Times(u, wb)
  {
    hide Times;
    SmallPart(u, wa);
    SmallPart(u, wb);
    var t := Times(u, wa);
    TenAtMost(k, t);
    Nonnegative(k, t);
    MorePart(k, t);
    var off := k * t;
    assert 0.0 <= off <= 10.0 * t;
    assert Abs(p) <= wa + off;
    assert Abs(p + q) <= Abs(p) + Abs(q);
    TimesLe(u, Abs(p + q), 1.01 * wa + 1.01 * wb);
    Linear(u, 1.01 * wa, 1.01 * wb);
    Scaled(u, 1.01, wa);
    Scaled(u, 1.01, wb);
  }

  lemma MorePart(k: real, x: real)
    ensures (k + 1.01) * x == k * x + 1.01 * x
  {
  }

  lemma TenAtMost(k: real, x: real)
    requires 0.0 <= k <= 10.0 && x >= 0.0
    ensures k * x <= 10.0 * x
  {
    Nonnegative(10.0 - k, x);
  }

  lemma SumOfThree(ar: Arithmetic, x: real, y: real, z: real, x': real, y': real, z': real, dx: real, dy: real,
                   dz: real)
    requires Near(ar) && Close(ar.epsilon, x, x') && Close(ar.epsilon, y, y') && Close(ar.epsilon, z, z')
    ensures Abs(RoundedSum(ar, x', y', z', dx, dy, dz) - (Times(x, dx) + Times(y, dy) + Times(z, dz)))
         <= 5.1 * (Times(ar.epsilon, Abs(Times(x, dx))) + Times(ar.epsilon, Abs(Times(y, dy)))
                   + Times(ar.epsilon, Abs(Times(z, dz))))
  {
    hide Close, Times, Abs;
    var u := ar.epsilon;
    var a, b, c := Times(x, dx), Times(y, dy), Times(z, dz);
    var p, q, r := ar.nearest(Times(x', dx)), ar.nearest(Times(y', dy)), ar.nearest(Times(z', dz));
    ProductError(u, x, x', dx, p);
    ProductError(u, y, y', dy, q);
    ProductError(u, z, z', dz, r);
    var first := ar.nearest(0.0 + p);
    var second := ar.nearest(first + q);
    var third := ar.nearest(second + r);
    Sizes(u, a);
    Sizes(u, b);
    Sizes(u, c);
    Nothing(u);
    SumError(u, 0.0, 0.0, 0.0, p, a, first, 0.0, Abs(a));
    SumError(u, 3.02, first, a, q, b, second, Abs(a), Abs(b));
    Linear(u, Abs(a), Abs(b));
    AbsSum(a, b);
    SumError(u, 4.04, second, a + b, r, c, third, Abs(a) + Abs(b), Abs(c));
  }

  lemma Sizes(u: real, a: real)
    requires u >= 0.0
    ensures Abs(a) >= 0.0 && Times(u, Abs(a)) >= 0.0
  {
  }

  lemma Nothing(u: real)
    ensures Times(u, 0.0) == 0.0 && Abs(0.0 - 0.0) == 0.0 && Abs(0.0) == 0.0
  {
  }

  lemma AbsSum(a: real, b: real)
    ensures Abs(a + b) <= Abs(a) + Abs(b)
  {
  }

  // ---------------------------------------------------------------- the margin

  // A component of the step times a component of a unit direction.
  lemma ComponentPart(u: real, s: real, s': real, d: real, length: real)
    requires 0.0 <= u <= 0.001 && Close(u, s, s') && Covers(u, length, s') && Abs(d) <= 1.01
    ensures length >= 0.0
    ensures Times(u, Abs(Times(s, d))) <= 1.02 * Times(u, length)
  {
    CloseSize(u, s, s');
    SmallPart(u, Abs(s'));
    assert Times(1.0 - u, Abs(s')) == Abs(s') - Times(u, Abs(s')) by {
      assert (1.0 - u) * Abs(s') == Abs(s') - u * Abs(s');
    }
    AbsTimes(s, d);
    assert Times(Abs(s), Abs(d)) <= Abs(s) * 1.01 by {
      TimesLe(Abs(s), Abs(d), 1.01);
    }
    TimesLe(u, Abs(Times(s, d)), 1.02 * length);
    Scaled(u, 1.02, length);
  }

  // A rounded projection beyond the margin has the right sign: 64 epsilon
  // cover the rounding of the step, its products and their sum.
  lemma MarginCovers(ar: Arithmetic, x: real, y: real, z: real, x': real, y': real, z': real, dx: real, dy: real,
                     dz: real)
    requires Near(ar) && Close(ar.epsilon, x, x') && Close(ar.epsilon, y, y') && Close(ar.epsilon, z, z')
    requires Abs(dx) <= 1.01 && Abs(dy) <= 1.01 && Abs(dz) <= 1.01
    requires RoundedSum(ar, x', y', z', dx, dy, dz) > Margin(ar, ar.norm(x', y', z'))
    ensures Times(x, dx) + Times(y, dy) + Times(z, dz) > 0.0
  {
    hide Close, Covers, Times, RoundedSum;
    var u, length := ar.epsilon, ar.norm(x', y', z');
    ComponentPart(u, x, x', dx, length);
    ComponentPart(u, y, y', dy, length);
    ComponentPart(u, z, z', dz, length);
    SumOfThree(ar, x, y, z, x', y', z', dx, dy, dz);
    MarginSize(ar, length);
  }

  lemma MarginSize(ar: Arithmetic, length: real)
    requires Near(ar) && length >= 0.0
    ensures Times(ar.epsilon, length) >= 0.0 && Margin(ar, length) >= 63.0 * Times(ar.epsilon, length)
  {
    var m := Times(64.0 * ar.epsilon, length);
    assert m == 64.0 * Times(ar.epsilon, length) && Times(ar.epsilon, length) >= 0.0;
    assert Close(ar.epsilon, m, ar.nearest(m));
    CloseSize(ar.epsilon, m, ar.nearest(m));
    SmallPart(ar.epsilon, m);
  }

  // A rounded quotient by the length is at most a little over one.
  lemma UnitComponent(ar: Arithmetic, x: real, length: real)
    requires Near(ar) && length > 0.0 && Covers(ar.epsilon, length, x)
    ensures Abs(ar.nearest(x / length)) <= 1.01
  {
    var q := x / length;
    SmallPart(ar.epsilon, Abs(x));
    assert Times(1.0 - ar.epsilon, Abs(x)) == Abs(x) - Times(ar.epsilon, Abs(x)) by {
      assert (1.0 - ar.epsilon) * Abs(x) == Abs(x) - ar.epsilon * Abs(x);
    }
    assert 0.999 * Abs(x) <= length;
    QuotientSize(x, length);
    assert Close(ar.epsilon, q, ar.nearest(q));
    CloseSize(ar.epsilon, q, ar.nearest(q));
  }

  lemma QuotientSize(x: real, length: real)
    requires length > 0.0 && 0.999 * Abs(x) <= length
    ensures Abs(x / length) <= 1.002
  {
    var q := x / length;
    assert q * length == x;
    if q > 1.002 {
      TooLong(q, length);
    } else if q < -1.002 {
      TooLong(-q, length);
    }
  }

  lemma TooLong(q: real, length: real)
    requires q > 1.002 && length > 0.0
    ensures q * length > 1.002 * length
  {
    assert (q - 1.002) * length > 0.0;
  }
}
