// Outward-rounded interval arithmetic, abstract in the rounding.
module IntervalArithmetic {
  import opened Reals
  import opened DeBoor

  // down/up stand for rounding to a long double and then one step outwards,
  // nearest for plain rounding, norm for hypot; fits says which results are
  // finite.
  datatype Arithmetic = Arithmetic(
    down: real -> real,
    up: real -> real,
    fits: real -> bool,
    nearest: real -> real,
    norm: (real, real, real) -> real,
    epsilon: real)
  {
    ghost predicate Outward() {
      && (forall x :: down(x) <= x <= up(x))
      && (forall x, y, z :: norm(x, y, z) >= 0.0)
      && epsilon >= 0.0
    }

    // No rounding at all.
    ghost predicate Exactly() {
      forall x :: fits(x) && down(x) == x == up(x)
    }
  }

  // Unbounded stands for every interval with a nonfinite end.
  datatype Interval = Unbounded | Bounded(low: real, high: real) {
    predicate Contains(x: real) {
      Bounded? ==> low <= x <= high
    }
  }

  function Exact(x: real): Interval {
    Bounded(x, x)
  }

  function Enclose(ar: Arithmetic, low: real, high: real): Interval {
    if ar.fits(low) && ar.fits(high) then Bounded(ar.down(low), ar.up(high)) else Unbounded
  }

  function Add(ar: Arithmetic, a: Interval, b: Interval): Interval {
    if a.Bounded? && b.Bounded? then Enclose(ar, a.low + b.low, a.high + b.high) else Unbounded
  }

  function Subtract(ar: Arithmetic, a: Interval, b: Interval): Interval {
    if a.Bounded? && b.Bounded? then Enclose(ar, a.low - b.high, a.high - b.low) else Unbounded
  }

  function Min(a: real, b: real): real {
    if b < a then b else a
  }

  function Max(a: real, b: real): real {
    if a < b then b else a
  }

  function Reciprocal(x: real): real
    requires x != 0.0
  {
    1.0 / x
  }

  function Multiply(ar: Arithmetic, a: Interval, b: Interval): Interval {
    if a.Bounded? && b.Bounded? then
      var p, q := Times(a.low, b.low), Times(a.low, b.high);
      var r, s := Times(a.high, b.low), Times(a.high, b.high);
      if ar.fits(p) && ar.fits(q) && ar.fits(r) && ar.fits(s)
      then Enclose(ar, Min(Min(p, q), Min(r, s)), Max(Max(p, q), Max(r, s)))
      else Unbounded
    else Unbounded
  }

  function Divide(ar: Arithmetic, a: Interval, b: Interval): Interval {
    if b.Unbounded? || b.low <= 0.0 || b.high < b.low then Unbounded
    else Multiply(ar, a, Enclose(ar, Reciprocal(b.high), Reciprocal(b.low)))
  }

  function Mix(ar: Arithmetic, a: Interval, b: Interval, t: Interval): Interval {
    Add(ar, Multiply(ar, Subtract(ar, Exact(1.0), t), a), Multiply(ar, t, b))
  }

  // ---------------------------------------------------------------- inclusion

  lemma AddContains(ar: Arithmetic, a: Interval, b: Interval, x: real, y: real)
    requires ar.Outward() && a.Contains(x) && b.Contains(y)
    ensures Add(ar, a, b).Contains(x + y)
  {
    if Add(ar, a, b).Bounded? {
      assert ar.down(a.low + b.low) <= a.low + b.low && a.high + b.high <= ar.up(a.high + b.high);
    }
  }

  lemma SubtractContains(ar: Arithmetic, a: Interval, b: Interval, x: real, y: real)
    requires ar.Outward() && a.Contains(x) && b.Contains(y)
    ensures Subtract(ar, a, b).Contains(x - y)
  {
    if Subtract(ar, a, b).Bounded? {
      assert ar.down(a.low - b.high) <= a.low - b.high && a.high - b.low <= ar.up(a.high - b.low);
    }
  }

  // x * y lies between two of the products at the ends of x.
  lemma BetweenEnds(l: real, h: real, x: real, y: real)
    requires l <= x <= h
    ensures Min(Times(l, y), Times(h, y)) <= Times(x, y) <= Max(Times(l, y), Times(h, y))
  {
    var s, t := x - l, h - x;
    assert x * y == l * y + s * y && h * y == x * y + t * y;
    if y >= 0.0 {
      assert s * y >= 0.0 && t * y >= 0.0;
    } else {
      var z := -y;
      assert s * z >= 0.0 && t * z >= 0.0;
      assert s * y == -(s * z) && t * y == -(t * z);
    }
  }

  lemma Commute(x: real, y: real)
    ensures Times(x, y) == Times(y, x)
  {
  }

  lemma ProductBounds(al: real, ah: real, bl: real, bh: real, x: real, y: real)
    requires al <= x <= ah && bl <= y <= bh
    ensures Min(Min(Times(al, bl), Times(al, bh)), Min(Times(ah, bl), Times(ah, bh))) <= Times(x, y)
    ensures Times(x, y) <= Max(Max(Times(al, bl), Times(al, bh)), Max(Times(ah, bl), Times(ah, bh)))
  {
    hide Times;
    BetweenEnds(al, ah, x, y);
    BetweenEnds(bl, bh, y, al);
    BetweenEnds(bl, bh, y, ah);
    Commute(bl, al);
    Commute(bh, al);
    Commute(bl, ah);
    Commute(bh, ah);
    Commute(y, al);
    Commute(y, ah);
  }

  lemma EncloseContains(ar: Arithmetic, low: real, high: real, x: real)
    requires ar.Outward() && low <= x <= high
    ensures Enclose(ar, low, high).Contains(x)
  {
    assert ar.down(low) <= low && high <= ar.up(high);
  }

  lemma MultiplyContains(ar: Arithmetic, a: Interval, b: Interval, x: real, y: real)
    requires ar.Outward() && a.Contains(x) && b.Contains(y)
    ensures Multiply(ar, a, b).Contains(Times(x, y))
  {
    hide Times;
    if a.Bounded? && b.Bounded? {
      ProductBounds(a.low, a.high, b.low, b.high, x, y);
      var p, q := Times(a.low, b.low), Times(a.low, b.high);
      var r, s := Times(a.high, b.low), Times(a.high, b.high);
      EncloseContains(ar, Min(Min(p, q), Min(r, s)), Max(Max(p, q), Max(r, s)), Times(x, y));
    }
  }

  lemma DivideContains(ar: Arithmetic, a: Interval, b: Interval, x: real, y: real)
    requires ar.Outward() && a.Contains(x) && b.Contains(y) && y != 0.0
    ensures Divide(ar, a, b).Contains(x / y)
  {
    if b.Bounded? && b.low > 0.0 {
      TimesReciprocal(x, y);
      hide Times, Reciprocal;
      ReciprocalOrder(b.low, y);
      ReciprocalOrder(y, b.high);
      EncloseContains(ar, Reciprocal(b.high), Reciprocal(b.low), Reciprocal(y));
      MultiplyContains(ar, a, Enclose(ar, Reciprocal(b.high), Reciprocal(b.low)), x, Reciprocal(y));
    }
  }

  lemma ReciprocalOrder(x: real, y: real)
    requires 0.0 < x <= y
    ensures Reciprocal(y) <= Reciprocal(x)
  {
    var u, v := Reciprocal(x), Reciprocal(y);
    assert u * x == 1.0 && v * y == 1.0;
    NotLess(u, v, x, y);
  }

  lemma NotLess(u: real, v: real, x: real, y: real)
    requires 0.0 < x <= y && u * x == 1.0 && v * y == 1.0
    ensures v <= u
  {
    assert (u - v) * x == v * (y - x);
    assert v > 0.0;
    assert v * (y - x) >= 0.0;
  }

  lemma TimesReciprocal(x: real, y: real)
    requires y > 0.0
    ensures Times(x, Reciprocal(y)) == x / y
  {
    var u, q := 1.0 / y, x / y;
    assert u * y == 1.0 && q * y == x;
    assert (x * u - q) * y == 0.0;
  }

  lemma MixContains(ar: Arithmetic, a: Interval, b: Interval, t: Interval, x: real, y: real, s: real)
    requires ar.Outward() && a.Contains(x) && b.Contains(y) && t.Contains(s)
    ensures Mix(ar, a, b, t).Contains(Lerp(x, y, s))
  {
    MixedValue(x, y, s);
    hide Times, Add, Subtract, Multiply, Lerp;
    SubtractContains(ar, Exact(1.0), t, 1.0, s);
    MultiplyContains(ar, Subtract(ar, Exact(1.0), t), a, 1.0 - s, x);
    MultiplyContains(ar, t, b, s, y);
    AddContains(ar, Multiply(ar, Subtract(ar, Exact(1.0), t), a), Multiply(ar, t, b), Times(1.0 - s, x), Times(s, y));
  }

  lemma MixedValue(x: real, y: real, s: real)
    ensures Times(1.0 - s, x) + Times(s, y) == Lerp(x, y, s)
  {
  }

  // ---------------------------------------------------------------- exact arithmetic

  predicate Sharp(a: Interval) {
    a.Bounded? && a.low == a.high
  }

  lemma SharpValue(a: Interval, x: real)
    requires Sharp(a) && a.Contains(x)
    ensures a == Exact(x)
  {
  }

  lemma SumSharp(ar: Arithmetic, a: Interval, b: Interval)
    requires ar.Exactly() && Sharp(a) && Sharp(b)
    ensures Sharp(Add(ar, a, b)) && Sharp(Subtract(ar, a, b))
  {
    assert ar.fits(a.low + b.low) && ar.fits(a.low - b.low);
    assert ar.down(a.low + b.low) == ar.up(a.low + b.low) && ar.down(a.low - b.low) == ar.up(a.low - b.low);
  }

  lemma MultiplySharp(ar: Arithmetic, a: Interval, b: Interval)
    requires ar.Exactly() && Sharp(a) && Sharp(b)
    ensures Sharp(Multiply(ar, a, b))
  {
    hide Times;
    var x := Times(a.low, b.low);
    assert ar.fits(x) && ar.down(x) == ar.up(x);
  }

  lemma DivideSharp(ar: Arithmetic, a: Interval, b: Interval)
    requires ar.Exactly() && Sharp(a) && Sharp(b) && b.low > 0.0
    ensures Sharp(Divide(ar, a, b))
  {
    hide Multiply, Reciprocal;
    var x := Reciprocal(b.low);
    assert ar.fits(x) && ar.down(x) == ar.up(x);
    MultiplySharp(ar, a, Enclose(ar, x, x));
  }

  lemma MixSharp(ar: Arithmetic, a: Interval, b: Interval, t: Interval)
    requires ar.Exactly() && Sharp(a) && Sharp(b) && Sharp(t)
    ensures Sharp(Mix(ar, a, b, t))
  {
    hide Add, Subtract, Multiply;
    SumSharp(ar, Exact(1.0), t);
    MultiplySharp(ar, Subtract(ar, Exact(1.0), t), a);
    MultiplySharp(ar, t, b);
    SumSharp(ar, Multiply(ar, Subtract(ar, Exact(1.0), t), a), Multiply(ar, t, b));
  }
}
