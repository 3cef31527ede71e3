// Generalized de Boor recursion over mathematical reals: one argument per
// level. Interpolate in nurbs_evaluate.cc runs it with the same parameter on
// every level; ExtractSpan and the halving loop of CertifyNumerator in
// nurbs_projection.cc run it with mixed arguments (blossom values).
module DeBoor {

  function Lerp(a: real, b: real, t: real): real {
    a + t * (b - a)
  }

  function Ratio(x: real, width: real): real
    requires width > 0.0
  {
    x / width
  }

  // The knots one span can read: window[j] stands for knots[span - p + j].
  // Every difference that is used as a divisor is positive.
  predicate Window(p: nat, knots: seq<real>) {
    && 1 <= p
    && |knots| == 2 * p + 1
    && forall i, j :: 1 <= i <= p < j <= i + p ==> knots[i] < knots[j]
  }

  function Alpha(p: nat, knots: seq<real>, level: nat, j: nat, x: real): real
    requires Window(p, knots) && 1 <= level <= j <= p
  {
    Ratio(x - knots[j], knots[j + p + 1 - level] - knots[j])
  }

  // Entry j of the triangular scheme after `level` levels.
  function Entry(p: nat, knots: seq<real>, row: seq<real>, args: seq<real>, level: nat, j: nat): real
    requires Window(p, knots) && |row| == p + 1
    requires level <= |args| && level <= j <= p
    decreases level
  {
    if level == 0 then row[j]
    else Lerp(Entry(p, knots, row, args, level - 1, j - 1),
              Entry(p, knots, row, args, level - 1, j),
              Alpha(p, knots, level, j, args[level - 1]))
  }

  function Blossom(p: nat, knots: seq<real>, row: seq<real>, args: seq<real>): real
    requires Window(p, knots) && |row| == p + 1 && |args| == p
  {
    Entry(p, knots, row, args, p, p)
  }

  function Repeat(x: real, n: nat): seq<real> {
    seq(n, i => x)
  }

  // The spline's own value at t: the diagonal of the blossom.
  function Value(p: nat, knots: seq<real>, row: seq<real>, t: real): real
    requires Window(p, knots) && |row| == p + 1
  {
    Blossom(p, knots, row, Repeat(t, p))
  }

  // ---------------------------------------------------------------- affinity

  lemma {:induction false} EntryPrefix(p: nat, knots: seq<real>, row: seq<real>, a: seq<real>, b: seq<real>,
                                       level: nat, j: nat)
    requires Window(p, knots) && |row| == p + 1
    requires level <= j <= p && level <= |a| && level <= |b|
    requires forall i :: 0 <= i < level ==> a[i] == b[i]
    ensures Entry(p, knots, row, a, level, j) == Entry(p, knots, row, b, level, j)
    decreases level
  {
    if level > 0 {
      EntryPrefix(p, knots, row, a, b, level - 1, j - 1);
      EntryPrefix(p, knots, row, a, b, level - 1, j);
    }
  }

  lemma LerpOfLerps(a0: real, b0: real, a1: real, b1: real, t: real, s: real)
    ensures Lerp(Lerp(a0, a1, s), Lerp(b0, b1, s), t) == Lerp(Lerp(a0, b0, t), Lerp(a1, b1, t), s)
  {
  }

  lemma LerpInParameter(a: real, b: real, x: real, y: real, s: real)
    ensures Lerp(a, b, Lerp(x, y, s)) == Lerp(Lerp(a, b, x), Lerp(a, b, y), s)
  {
  }

  lemma RatioAffine(u: real, v: real, width: real, s: real)
    requires width > 0.0
    ensures Lerp(u, v, s) / width == Lerp(u / width, v / width, s)
  {
    var a, b := u / width, v / width;
    assert Lerp(u, v, s) == Lerp(a, b, s) * width;
  }

  lemma AlphaAffine(p: nat, knots: seq<real>, level: nat, j: nat, x: real, y: real, s: real)
    requires Window(p, knots) && 1 <= level <= j <= p
    ensures Alpha(p, knots, level, j, Lerp(x, y, s))
         == Lerp(Alpha(p, knots, level, j, x), Alpha(p, knots, level, j, y), s)
  {
    RatioAffine(x - knots[j], y - knots[j], knots[j + p + 1 - level] - knots[j], s);
    assert Lerp(x, y, s) - knots[j] == Lerp(x - knots[j], y - knots[j], s);
  }

  // The scheme is affine in every single argument.
  lemma {:induction false} EntryAffine(p: nat, knots: seq<real>, row: seq<real>, args: seq<real>, k: nat,
                                       x: real, y: real, s: real, level: nat, j: nat)
    requires Window(p, knots) && |row| == p + 1
    requires k < level <= j <= p && level <= |args|
    requires args[k] == Lerp(x, y, s)
    ensures Entry(p, knots, row, args, level, j)
         == Lerp(Entry(p, knots, row, args[k := x], level, j), Entry(p, knots, row, args[k := y], level, j), s)
    decreases level
  {
    if level == k + 1 {
      EntryPrefix(p, knots, row, args, args[k := x], k, j - 1);
      EntryPrefix(p, knots, row, args, args[k := y], k, j - 1);
      EntryPrefix(p, knots, row, args, args[k := x], k, j);
      EntryPrefix(p, knots, row, args, args[k := y], k, j);
      AlphaAffine(p, knots, level, j, x, y, s);
      LerpInParameter(Entry(p, knots, row, args, k, j - 1), Entry(p, knots, row, args, k, j),
                      Alpha(p, knots, level, j, x), Alpha(p, knots, level, j, y), s);
    } else {
      EntryAffine(p, knots, row, args, k, x, y, s, level - 1, j - 1);
      EntryAffine(p, knots, row, args, k, x, y, s, level - 1, j);
      LerpOfLerps(Entry(p, knots, row, args[k := x], level - 1, j - 1),
                  Entry(p, knots, row, args[k := x], level - 1, j),
                  Entry(p, knots, row, args[k := y], level - 1, j - 1),
                  Entry(p, knots, row, args[k := y], level - 1, j),
                  Alpha(p, knots, level, j, args[level - 1]), s);
    }
  }

  // ---------------------------------------------------------------- symmetry

  lemma ProductByWidths(a: real, b: real, c: real, d: real, w: real, v: real, x: real, y: real)
    requires w > 0.0 && v > 0.0
    requires a * w == x && b * v == y && c * w == y && d * v == x
    ensures a * b == c * d
  {
    assert (a * b) * (w * v) == x * y;
    assert (c * d) * (w * v) == x * y;
  }

  lemma TwoLevels(a: real, b: real, c: real, s: real, t: real, u: real)
    ensures Lerp(Lerp(a, b, s), Lerp(b, c, t), u)
         == b + ((1.0 - u) * (1.0 - s)) * (a - b) + (u * t) * (c - b)
  {
  }

  // Two consecutive levels with arguments x, y give the same entry as y, x.
  lemma SwapTwoLevels(a: real, b: real, c: real, l1: real, l2: real, h1: real, h2: real, x: real, y: real)
    requires l1 < h1 && l2 < h2 && l2 < h1
    ensures Lerp(Lerp(a, b, (x - l1) / (h1 - l1)), Lerp(b, c, (x - l2) / (h2 - l2)), (y - l2) / (h1 - l2))
         == Lerp(Lerp(a, b, (y - l1) / (h1 - l1)), Lerp(b, c, (y - l2) / (h2 - l2)), (x - l2) / (h1 - l2))
  {
    var w1, w2, w := h1 - l1, h2 - l2, h1 - l2;
    var s, t, u := (x - l1) / w1, (x - l2) / w2, (x - l2) / w;
    var s', t', u' := (y - l1) / w1, (y - l2) / w2, (y - l2) / w;
    assert s * w1 == x - l1 && s' * w1 == y - l1;
    assert t * w2 == x - l2 && t' * w2 == y - l2;
    assert u * w == x - l2 && u' * w == y - l2;
    TwoLevels(a, b, c, s, t, u');
    TwoLevels(a, b, c, s', t', u);
    hide Lerp;
    assert (1.0 - u') * w == h1 - y && (1.0 - s) * w1 == h1 - x;
    assert (1.0 - u) * w == h1 - x && (1.0 - s') * w1 == h1 - y;
    ProductByWidths(1.0 - u', 1.0 - s, 1.0 - u, 1.0 - s', w, w1, h1 - y, h1 - x);
    ProductByWidths(u', t, u, t', w, w2, y - l2, x - l2);
  }

  function Swap(args: seq<real>, k: nat): seq<real>
    requires k + 1 < |args|
  {
    args[k := args[k + 1]][k + 1 := args[k]]
  }

  lemma {:induction false} EntrySwap(p: nat, knots: seq<real>, row: seq<real>, args: seq<real>, k: nat,
                                     level: nat, j: nat)
    requires Window(p, knots) && |row| == p + 1
    requires k + 2 <= level <= j <= p && level <= |args|
    ensures Entry(p, knots, row, args, level, j) == Entry(p, knots, row, Swap(args, k), level, j)
    decreases level
  {
    var other := Swap(args, k);
    if level == k + 2 {
      EntryPrefix(p, knots, row, args, other, k, j - 2);
      EntryPrefix(p, knots, row, args, other, k, j - 1);
      EntryPrefix(p, knots, row, args, other, k, j);
      SwapTwoLevels(Entry(p, knots, row, args, k, j - 2), Entry(p, knots, row, args, k, j - 1),
                    Entry(p, knots, row, args, k, j),
                    knots[j - 1], knots[j], knots[j + p - 1 - k], knots[j + p - k], args[k], args[k + 1]);
    } else {
      EntrySwap(p, knots, row, args, k, level - 1, j - 1);
      EntrySwap(p, knots, row, args, k, level - 1, j);
    }
  }

  // Argument k moved right past the next m arguments.
  function Moved(args: seq<real>, k: nat, m: nat): (r: seq<real>)
    requires k + m < |args|
    ensures |r| == |args|
  {
    args[..k] + args[k + 1..k + m + 1] + [args[k]] + args[k + m + 1..]
  }

  lemma {:induction false} BlossomMoved(p: nat, knots: seq<real>, row: seq<real>, args: seq<real>, k: nat, m: nat)
    requires Window(p, knots) && |row| == p + 1 && |args| == p && k + m < p
    ensures Blossom(p, knots, row, args) == Blossom(p, knots, row, Moved(args, k, m))
    decreases m
  {
    hide Entry, Lerp, Alpha, Window;
    if m == 0 {
      assert Moved(args, k, 0) == args;
    } else {
      EntrySwap(p, knots, row, args, k, p, p);
      BlossomMoved(p, knots, row, Swap(args, k), k + 1, m - 1);
      assert Moved(Swap(args, k), k + 1, m - 1) == Moved(args, k, m);
    }
  }

  lemma MovedToEnd(args: seq<real>, k: nat, end: nat)
    requires k < end <= |args|
    ensures multiset(Moved(args, k, end - 1 - k)[..end - 1]) == multiset(args[..end]) - multiset{args[k]}
    ensures Moved(args, k, end - 1 - k)[end - 1..] == [args[k]] + args[end..]
  {
    assert args[..end] == args[..k] + [args[k]] + args[k + 1..end];
    assert Moved(args, k, end - 1 - k)[..end - 1] == args[..k] + args[k + 1..end];
  }

  // The blossom is symmetric: any rearrangement of its arguments gives the
  // same value.
  lemma {:induction false} BlossomSymmetric(p: nat, knots: seq<real>, row: seq<real>,
                                            open: nat, a: seq<real>, b: seq<real>)
    requires Window(p, knots) && |row| == p + 1 && |a| == |b| == p && open <= p
    requires a[open..] == b[open..] && multiset(a[..open]) == multiset(b[..open])
    ensures Blossom(p, knots, row, a) == Blossom(p, knots, row, b)
    decreases open
  {
    if open == 0 {
      assert a == a[0..] && b == b[0..];
    } else {
      var x := b[open - 1];
      assert b[..open] == b[..open - 1] + [x];
      assert x in multiset(a[..open]);
      var k :| 0 <= k < open && a[..open][k] == x;
      var c := Moved(a, k, open - 1 - k);
      BlossomMoved(p, knots, row, a, k, open - 1 - k);
      MovedToEnd(a, k, open);
      assert b[open - 1..] == [x] + b[open..];
      BlossomSymmetric(p, knots, row, open - 1, c, b);
    }
  }

  // -------------------------------------------- blossom values are Bezier poles

  // a repeated, then t repeated r times, then b repeated i times.
  function MixedArgs(p: nat, r: nat, i: nat, a: real, t: real, b: real): seq<real>
    requires r + i <= p
  {
    Repeat(a, p - r - i) + Repeat(t, r) + Repeat(b, i)
  }

  // de Casteljau's algorithm on poles c at parameter s.
  function Casteljau(c: seq<real>, s: real): real
    requires |c| >= 1
  {
    if |c| == 1 then c[0] else Lerp(Casteljau(c[..|c| - 1], s), Casteljau(c[1..], s), s)
  }

  // The p + 1 blossom values at a^(p-i) b^i.
  function BezierPoles(p: nat, knots: seq<real>, row: seq<real>, a: real, b: real): (c: seq<real>)
    requires Window(p, knots) && |row| == p + 1
    ensures |c| == p + 1
  {
    seq(p + 1, i requires 0 <= i <= p => Blossom(p, knots, row, MixedArgs(p, 0, i, a, a, b)))
  }

  lemma {:induction false} BlossomIsCasteljau(p: nat, knots: seq<real>, row: seq<real>, a: real, b: real, s: real,
                                              r: nat, i: nat)
    requires Window(p, knots) && |row| == p + 1 && r + i <= p
    ensures Blossom(p, knots, row, MixedArgs(p, r, i, a, Lerp(a, b, s), b))
         == Casteljau(BezierPoles(p, knots, row, a, b)[i..i + r + 1], s)
    decreases r
  {
    hide Entry, Lerp, Window;
    var t := Lerp(a, b, s);
    var poles := BezierPoles(p, knots, row, a, b);
    if r == 0 {
      assert MixedArgs(p, 0, i, a, t, b) == MixedArgs(p, 0, i, a, a, b);
    } else {
      var args, k := MixedArgs(p, r, i, a, t, b), p - r - i;
      EntryAffine(p, knots, row, args, k, a, b, s, p, p);
      assert args[k := a] == MixedArgs(p, r - 1, i, a, t, b);
      BlossomMoved(p, knots, row, args[k := b], k, r - 1);
      assert Moved(args[k := b], k, r - 1) == MixedArgs(p, r - 1, i + 1, a, t, b);
      BlossomIsCasteljau(p, knots, row, a, b, s, r - 1, i);
      BlossomIsCasteljau(p, knots, row, a, b, s, r - 1, i + 1);
      var part := poles[i..i + r + 1];
      assert part[..r] == poles[i..i + r];
      assert part[1..] == poles[i + 1..i + r + 1];
    }
  }

  // Extraction preserves meaning: the Bernstein polynomial on the blossom
  // values between a and b, at s, is the spline at the point s of the way
  // from a to b. Nothing relates a and b to the knots or to each other.
  lemma ExtractionPreservesValue(p: nat, knots: seq<real>, row: seq<real>, a: real, b: real, s: real)
    requires Window(p, knots) && |row| == p + 1
    ensures Casteljau(BezierPoles(p, knots, row, a, b), s) == Value(p, knots, row, Lerp(a, b, s))
  {
    BlossomIsCasteljau(p, knots, row, a, b, s, p, 0);
    assert MixedArgs(p, p, 0, a, Lerp(a, b, s), b) == Repeat(Lerp(a, b, s), p);
    assert BezierPoles(p, knots, row, a, b)[0..p + 1] == BezierPoles(p, knots, row, a, b);
  }
}
