// Gaussian elimination with pivoting that never writes the zeros below the
// diagonal, for any size.
module LinearSystems {
  import opened Reals

  type Row = seq<real>

  function Ratio(a: real, b: real): real
    requires b != 0.0
  {
    a / b
  }

  // The row applied to z from column lo on. The right-hand side is the last
  // column, and z ends in -1 for a solution, in 0 for a kernel vector.
  function Sum(row: Row, z: seq<real>, lo: nat): real
    requires |row| == |z|
    decreases |z| - lo
  {
    if lo >= |z| then 0.0 else Times(row[lo], z[lo]) + Sum(row, z, lo + 1)
  }

  predicate Shaped(rows: seq<Row>, n: nat) {
    |rows| == n && forall i :: 0 <= i < n ==> |rows[i]| == n + 1
  }

  // Row i counts only from column los[i] on.
  ghost predicate Kills(rows: seq<Row>, los: seq<nat>, z: seq<real>)
    requires |los| == |rows| && Shaped(rows, |rows|) && |z| == |rows| + 1
  {
    forall i :: 0 <= i < |rows| ==> Sum(rows[i], z, los[i]) == 0.0
  }

  ghost predicate SameSystem(a: seq<Row>, la: seq<nat>, b: seq<Row>, lb: seq<nat>, n: nat) {
    && Shaped(a, n) && Shaped(b, n) && |la| == n && |lb| == n
    && forall z: seq<real> :: |z| == n + 1 ==> (Kills(a, la, z) <==> Kills(b, lb, z))
  }

  // Columns below c are eliminated, column c in rows before r.
  function Los(n: nat, c: nat, r: nat): (los: seq<nat>)
    ensures |los| == n
  {
    seq(n, i => if i <= c then i else if i < r then c + 1 else c)
  }

  // ---------------------------------------------------------------- row operations

  // row - factor * pivot, from column lo on.
  function Reduced(row: Row, pivot: Row, factor: real, lo: nat): (r: Row)
    requires |row| == |pivot|
    ensures |r| == |row|
  {
    seq(|row|, j requires 0 <= j < |row| => if j < lo then row[j] else row[j] - Times(factor, pivot[j]))
  }

  lemma Distribute(a: real, f: real, p: real, z: real)
    ensures Times(a - Times(f, p), z) == Times(a, z) - Times(f, Times(p, z))
  {
  }

  lemma DistributeSum(f: real, a: real, b: real)
    ensures Times(f, a + b) == Times(f, a) + Times(f, b)
  {
  }

  lemma {:induction false} ReducedSum(row: Row, pivot: Row, factor: real, lo: nat, z: seq<real>, from: nat)
    requires |row| == |pivot| == |z| && lo <= from
    ensures Sum(Reduced(row, pivot, factor, lo), z, from) == Sum(row, z, from) - Times(factor, Sum(pivot, z, from))
    decreases |z| - from
  {
    hide Times;
    if from >= |z| {
      ZeroTimes(factor);
    } else {
      ReducedSum(row, pivot, factor, lo, z, from + 1);
      Distribute(row[from], factor, pivot[from], z[from]);
      DistributeSum(factor, Times(pivot[from], z[from]), Sum(pivot, z, from + 1));
    }
  }

  lemma ZeroTimes(a: real)
    ensures Times(a, 0.0) == 0.0 && Times(0.0, a) == 0.0
  {
  }

  lemma Cancelled(a: real, p: real, z: real)
    requires p != 0.0
    ensures Times(Ratio(a, p), Times(p, z)) == Times(a, z)
  {
  }

  // Once the pivot row vanishes, reducing a row changes nothing about it.
  lemma ReducedVanishes(row: Row, pivot: Row, c: nat, z: seq<real>)
    requires |row| == |pivot| == |z| && c < |z| && pivot[c] != 0.0 && Sum(pivot, z, c) == 0.0
    ensures Sum(Reduced(row, pivot, Ratio(row[c], pivot[c]), c + 1), z, c + 1) == Sum(row, z, c)
  {
    hide Times, Ratio;
    var f := Ratio(row[c], pivot[c]);
    ReducedSum(row, pivot, f, c + 1, z, c + 1);
    Cancelled(row[c], pivot[c], z[c]);
    DistributeSum(f, Times(pivot[c], z[c]), Sum(pivot, z, c + 1));
    ZeroTimes(f);
  }

  lemma EliminatedRow(rows: seq<Row>, n: nat, c: nat, r: nat)
    requires Shaped(rows, n) && c < r < n && rows[c][c] != 0.0
    ensures var row := Reduced(rows[r], rows[c], Ratio(rows[r][c], rows[c][c]), c + 1);
      SameSystem(rows, Los(n, c, r), rows[r := row], Los(n, c, r + 1), n)
  {
    hide Sum, Reduced, Ratio;
    var row := Reduced(rows[r], rows[c], Ratio(rows[r][c], rows[c][c]), c + 1);
    var after, la, lb := rows[r := row], Los(n, c, r), Los(n, c, r + 1);
    forall z: seq<real> | |z| == n + 1
      ensures Kills(rows, la, z) <==> Kills(after, lb, z)
    {
      if Sum(rows[c], z, c) == 0.0 {
        ReducedVanishes(rows[r], rows[c], c, z);
      }
      assert Kills(rows, la, z) ==> Sum(rows[c], z, la[c]) == 0.0;
      assert Kills(after, lb, z) ==> Sum(after[c], z, lb[c]) == 0.0;
      forall i | 0 <= i < n && i != r
        ensures after[i] == rows[i] && la[i] == lb[i]
      {
      }
    }
  }

  lemma SwappedRows(rows: seq<Row>, n: nat, c: nat, p: nat)
    requires Shaped(rows, n) && c <= p < n
    ensures SameSystem(rows, Los(n, c, c), rows[c := rows[p]][p := rows[c]], Los(n, c, c), n)
  {
    hide Sum;
    var after, los := rows[c := rows[p]][p := rows[c]], Los(n, c, c);
    forall z: seq<real> | |z| == n + 1
      ensures Kills(rows, los, z) <==> Kills(after, los, z)
    {
      assert Kills(rows, los, z) ==> Sum(rows[c], z, los[c]) == 0.0 && Sum(rows[p], z, los[p]) == 0.0;
      assert Kills(after, los, z) ==> Sum(after[c], z, los[c]) == 0.0 && Sum(after[p], z, los[p]) == 0.0;
      forall i | 0 <= i < n && i != c && i != p
        ensures after[i] == rows[i]
      {
      }
    }
  }

  lemma SameTransitive(a: seq<Row>, la: seq<nat>, b: seq<Row>, lb: seq<nat>, d: seq<Row>, ld: seq<nat>, n: nat)
    requires SameSystem(a, la, b, lb, n) && SameSystem(b, lb, d, ld, n)
    ensures SameSystem(a, la, d, ld, n)
  {
  }

  // ---------------------------------------------------------------- back substitution

  // Entries below column k are chosen so that rows below k vanish.
  function Back(rows: seq<Row>, n: nat, z: seq<real>, k: nat): (r: seq<real>)
    requires Shaped(rows, n) && |z| == n + 1 && k <= n && forall i :: 0 <= i < k ==> rows[i][i] != 0.0
    ensures |r| == n + 1 && forall j :: k <= j <= n ==> r[j] == z[j]
    decreases k
  {
    if k == 0 then z
    else Back(rows, n, z[k - 1 := -Ratio(Sum(rows[k - 1], z, k), rows[k - 1][k - 1])], k - 1)
  }

  lemma Negated(s: real, d: real)
    requires d != 0.0
    ensures Times(d, -Ratio(s, d)) == -s
  {
  }

  lemma {:induction false} SumAgrees(row: Row, z: seq<real>, w: seq<real>, lo: nat)
    requires |row| == |z| == |w| && forall j :: lo <= j < |z| ==> z[j] == w[j]
    ensures Sum(row, z, lo) == Sum(row, w, lo)
    decreases |z| - lo
  {
    if lo < |z| {
      SumAgrees(row, z, w, lo + 1);
    }
  }

  lemma {:induction false} BackVanishes(rows: seq<Row>, n: nat, z: seq<real>, k: nat, i: nat)
    requires Shaped(rows, n) && |z| == n + 1 && i < k <= n && forall j :: 0 <= j < k ==> rows[j][j] != 0.0
    ensures Sum(rows[i], Back(rows, n, z, k), i) == 0.0
    decreases k
  {
    hide Times, Ratio;
    var next := z[k - 1 := -Ratio(Sum(rows[k - 1], z, k), rows[k - 1][k - 1])];
    var r := Back(rows, n, next, k - 1);
    if i < k - 1 {
      BackVanishes(rows, n, next, k - 1, i);
    } else {
      SumAgrees(rows[i], next, r, i);
      SumAgrees(rows[i], z, next, k);
      Negated(Sum(rows[i], z, k), rows[i][i]);
    }
  }

  lemma TimesZero(a: real, z: real)
    requires a != 0.0 && Times(a, z) == 0.0
    ensures z == 0.0
  {
  }

  // A triangular system has one solution per right-hand side.
  lemma {:induction false} TriangularUnique(rows: seq<Row>, n: nat, z: seq<real>, w: seq<real>, k: nat)
    requires Shaped(rows, n) && |z| == |w| == n + 1 && z[n] == w[n] && k <= n
    requires forall i :: 0 <= i < n ==> rows[i][i] != 0.0
    requires forall i :: 0 <= i < n ==> Sum(rows[i], z, i) == 0.0 && Sum(rows[i], w, i) == 0.0
    ensures forall j :: k <= j <= n ==> z[j] == w[j]
    decreases n - k
  {
    hide Times;
    if k < n {
      TriangularUnique(rows, n, z, w, k + 1);
      SumAgrees(rows[k], z, w, k + 1);
      EqualTerm(rows[k][k], z[k], w[k]);
    }
  }

  lemma EqualTerm(a: real, x: real, y: real)
    requires a != 0.0 && Times(a, x) == Times(a, y)
    ensures x == y
  {
    TimesZero(a, x - y);
  }

  // ---------------------------------------------------------------- elimination

  function Zeros(n: nat): (z: seq<nat>)
    ensures |z| == n
  {
    seq(n, _ => 0)
  }

  function Unit(n: nat, c: nat): (z: seq<real>)
    ensures |z| == n + 1
  {
    seq(n + 1, j => if j == c then 1.0 else 0.0)
  }

  ghost predicate InKernel(rows: seq<Row>, n: nat, z: seq<real>) {
    && Shaped(rows, n) && |z| == n + 1 && z[n] == 0.0 && (exists j :: 0 <= j < n && z[j] != 0.0)
    && Kills(rows, Zeros(n), z)
  }

  lemma {:induction false} UnitSum(row: Row, n: nat, c: nat, lo: nat)
    requires |row| == n + 1 && c < lo
    ensures Sum(row, Unit(n, c), lo) == 0.0
    decreases n + 1 - lo
  {
    if lo < n + 1 {
      UnitSum(row, n, c, lo + 1);
    }
  }

  // A column without pivot has a kernel vector.
  lemma ZeroPivot(rows: seq<Row>, n: nat, c: nat) returns (z: seq<real>)
    requires Shaped(rows, n) && c < n && forall i :: 0 <= i < c ==> rows[i][i] != 0.0
    requires forall i :: c <= i < n ==> rows[i][c] == 0.0
    ensures |z| == n + 1 && z[n] == 0.0 && z[c] == 1.0 && Kills(rows, Los(n, c, c), z)
  {
    hide Times;
    var unit := Unit(n, c);
    z := Back(rows, n, unit, c);
    forall i | 0 <= i < n
      ensures Sum(rows[i], z, Los(n, c, c)[i]) == 0.0
    {
      if i < c {
        BackVanishes(rows, n, unit, c, i);
      } else {
        SumAgrees(rows[i], z, unit, c);
        UnitSum(rows[i], n, c, c + 1);
        ZeroTimes(unit[c]);
      }
    }
  }

  // The first row from c on whose entry in column c is largest in size.
  method Pivot(matrix: array<Row>, n: nat, c: nat) returns (p: nat)
    requires matrix.Length == n && Shaped(matrix[..], n) && c < n
    ensures c <= p < n && forall i :: c <= i < n ==> Abs(matrix[i][c]) <= Abs(matrix[p][c])
  {
    p := c;
    for r := c + 1 to n
      invariant c <= p < n && forall i :: c <= i < r ==> Abs(matrix[..][i][c]) <= Abs(matrix[..][p][c])
    {
      if Abs(matrix[r][c]) > Abs(matrix[p][c]) {
        p := r;
      }
    }
  }

  // False exactly with a kernel vector; otherwise the rows are triangular, with
  // nonzero pivots, and equivalent to the original ones.
  method Eliminate(matrix: array<Row>, n: nat) returns (ok: bool, ghost kernel: seq<real>)
    requires matrix.Length == n && Shaped(matrix[..], n)
    modifies matrix
    ensures Shaped(matrix[..], n)
    ensures ok ==>
      && SameSystem(old(matrix[..]), Zeros(n), matrix[..], Los(n, n, n), n)
      && forall i :: 0 <= i < n ==> matrix[i][i] != 0.0
    ensures !ok ==> InKernel(old(matrix[..]), n, kernel)
  {
    hide Sum, Kills, SameSystem, Back, Reduced, Ratio;
    ghost var original := matrix[..];
    kernel := [];
    SameAtStart(original, n);
    for c := 0 to n
      invariant Shaped(matrix[..], n) && SameSystem(original, Zeros(n), matrix[..], Los(n, c, c), n)
      invariant forall i :: 0 <= i < c ==> matrix[..][i][i] != 0.0
    {
      var p := Pivot(matrix, n, c);
      if matrix[p][c] == 0.0 {
        forall i | c <= i < n
          ensures matrix[..][i][c] == 0.0
        {
          assert Abs(matrix[i][c]) <= Abs(matrix[p][c]);
        }
        kernel := ZeroPivot(matrix[..], n, c);
        KernelBack(original, matrix[..], n, c, kernel);
        return false, kernel;
      }
      ghost var before := matrix[..];
      SwappedRows(before, n, c, p);
      matrix[p], matrix[c] := matrix[c], matrix[p];
      assert matrix[..] == before[c := before[p]][p := before[c]];
      SameTransitive(original, Zeros(n), before, Los(n, c, c), matrix[..], Los(n, c, c), n);
      SameLos(n, c);
      for r := c + 1 to n
        invariant Shaped(matrix[..], n) && SameSystem(original, Zeros(n), matrix[..], Los(n, c, r), n)
        invariant forall i :: 0 <= i <= c ==> matrix[..][i][i] != 0.0
      {
        ghost var rows := matrix[..];
        EliminatedRow(rows, n, c, r);
        var factor := Ratio(matrix[r][c], matrix[c][c]);
        matrix[r] := Reduced(matrix[r], matrix[c], factor, c + 1);
        assert matrix[..] == rows[r := Reduced(rows[r], rows[c], Ratio(rows[r][c], rows[c][c]), c + 1)];
        SameTransitive(original, Zeros(n), rows, Los(n, c, r), matrix[..], Los(n, c, r + 1), n);
      }
      NextColumn(n, c);
    }
    return true, kernel;
  }

  lemma SameAtStart(rows: seq<Row>, n: nat)
    requires Shaped(rows, n)
    ensures SameSystem(rows, Zeros(n), rows, Los(n, 0, 0), n)
  {
    assert Los(n, 0, 0) == Zeros(n);
  }

  lemma SameLos(n: nat, c: nat)
    ensures Los(n, c, c) == Los(n, c, c + 1)
  {
  }

  lemma NextColumn(n: nat, c: nat)
    requires c < n
    ensures Los(n, c, n) == Los(n, c + 1, c + 1)
  {
  }

  lemma KernelBack(original: seq<Row>, rows: seq<Row>, n: nat, c: nat, z: seq<real>)
    requires SameSystem(original, Zeros(n), rows, Los(n, c, c), n) && c < n
    requires |z| == n + 1 && z[n] == 0.0 && z[c] == 1.0 && Kills(rows, Los(n, c, c), z)
    ensures InKernel(original, n, z)
  {
    hide Sum;
  }

  lemma NegatedRatio(a: real, b: real)
    requires b != 0.0
    ensures Ratio(-a, b) == -Ratio(a, b)
  {
  }

  lemma LastTerm(row: Row, z: seq<real>, n: nat)
    requires |row| == |z| == n + 1 && z[n] == -1.0
    ensures Sum(row, z, n) == -row[n]
  {
  }

  // The solution of the triangular rows, last unknown first.
  method Substitute(matrix: array<Row>, n: nat) returns (step: seq<real>)
    requires matrix.Length == n && Shaped(matrix[..], n) && forall i :: 0 <= i < n ==> matrix[i][i] != 0.0
    ensures |step| == n && Kills(matrix[..], Los(n, n, n), step + [-1.0])
  {
    hide Back, Ratio, Times;
    ghost var rows := matrix[..];
    step := seq(n, _ => 0.0);
    ghost var start := step + [-1.0];
    var i := n;
    while i > 0
      invariant 0 <= i <= n && |step| == n
      invariant Back(rows, n, step + [-1.0], i) == Back(rows, n, start, n)
    {
      i := i - 1;
      var value := matrix[i][n];
      ghost var z := step + [-1.0];
      LastTerm(rows[i], z, n);
      for j := i + 1 to n
        invariant value + Sum(rows[i], z, i + 1) - Sum(rows[i], z, j) == rows[i][n]
      {
        value := value - Times(matrix[i][j], step[j]);
      }
      NegatedRatio(Sum(rows[i], z, i + 1), rows[i][i]);
      BackStep(rows, n, z, i + 1);
      step := step[i := Ratio(value, matrix[i][i])];
      assert step + [-1.0] == z[i := -Ratio(Sum(rows[i], z, i + 1), rows[i][i])];
    }
    BackDone(rows, n, step + [-1.0]);
    forall k | 0 <= k < n
      ensures Sum(rows[k], step + [-1.0], Los(n, n, n)[k]) == 0.0
    {
      BackVanishes(rows, n, start, n, k);
    }
  }

  lemma BackStep(rows: seq<Row>, n: nat, z: seq<real>, k: nat)
    requires Shaped(rows, n) && |z| == n + 1 && 0 < k <= n && forall i :: 0 <= i < k ==> rows[i][i] != 0.0
    ensures Back(rows, n, z, k) == Back(rows, n, z[k - 1 := -Ratio(Sum(rows[k - 1], z, k), rows[k - 1][k - 1])], k - 1)
  {
  }

  lemma BackDone(rows: seq<Row>, n: nat, z: seq<real>)
    requires Shaped(rows, n) && |z| == n + 1
    ensures Back(rows, n, z, 0) == z
  {
  }
}
