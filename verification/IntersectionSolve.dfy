// The Newton iteration that places a point on two surfaces and a plane.
module IntersectionSolve {
  import opened Integers
  import opened Results
  import opened LinearSystems
  import opened Reals

  // ---------------------------------------------------------------- scaled systems

  // J x, row by row, equals -residual.
  ghost predicate SolvesSystem(jacobian: seq<Row>, x: seq<real>, residual: seq<real>) {
    && |x| == |jacobian| == |residual| && (forall i :: 0 <= i < |jacobian| ==> |jacobian[i]| == |x|)
    && forall i :: 0 <= i < |jacobian| ==> Sum(jacobian[i], x, 0) == -residual[i]
  }

  ghost predicate Vanishes(jacobian: seq<Row>, x: seq<real>) {
    && |x| == |jacobian| && (forall i :: 0 <= i < |jacobian| ==> |jacobian[i]| == |x|)
    && forall i :: 0 <= i < |jacobian| ==> Sum(jacobian[i], x, 0) == 0.0
  }

  // Only the zero vector is mapped to zero.
  ghost predicate Nonsingular(jacobian: seq<Row>) {
    forall x :: Vanishes(jacobian, x) ==> forall j :: 0 <= j < |x| ==> x[j] == 0.0
  }

  predicate Square(jacobian: seq<Row>, n: nat) {
    |jacobian| == n && forall i :: 0 <= i < n ==> |jacobian[i]| == n
  }

  function ScaledRow(row: Row, scales: seq<real>, rhs: real): (r: Row)
    requires |row| == |scales| && forall j :: 0 <= j < |scales| ==> scales[j] != 0.0
    ensures |r| == |row| + 1
  {
    seq(|row|, j requires 0 <= j < |row| => Ratio(row[j], scales[j])) + [rhs]
  }

  function Unscaled(y: seq<real>, scales: seq<real>): (x: seq<real>)
    requires |y| == |scales| && forall j :: 0 <= j < |scales| ==> scales[j] != 0.0
    ensures |x| == |y|
  {
    seq(|y|, j requires 0 <= j < |y| => Ratio(y[j], scales[j]))
  }

  lemma ScaledTerm(a: real, s: real, y: real)
    requires s != 0.0
    ensures Times(Ratio(a, s), y) == Times(a, Ratio(y, s))
  {
  }

  // Scaling columns of the matrix scales the unknowns back.
  lemma {:induction false} ScaledSum(row: Row, scales: seq<real>, rhs: real, y: seq<real>, t: real, lo: nat)
    requires |row| == |scales| == |y| && lo <= |y| && forall j :: 0 <= j < |scales| ==> scales[j] != 0.0
    ensures Sum(ScaledRow(row, scales, rhs), y + [t], lo) == Sum(row, Unscaled(y, scales), lo) + Times(rhs, t)
    decreases |y| - lo
  {
    hide Times, Ratio;
    if lo < |y| {
      ScaledSum(row, scales, rhs, y, t, lo + 1);
      ScaledTerm(row[lo], scales[lo], y[lo]);
    }
  }

  function ScaledSystem(jacobian: seq<Row>, scales: seq<real>, residual: seq<real>): (rows: seq<Row>)
    requires Square(jacobian, |scales|) && |residual| == |scales| && forall j :: 0 <= j < |scales| ==> scales[j] != 0.0
    ensures |rows| == |jacobian|
  {
    seq(|jacobian|, i requires 0 <= i < |jacobian| => ScaledRow(jacobian[i], scales, -residual[i]))
  }

  lemma MinusOne(a: real)
    ensures Times(-a, -1.0) == a && Times(-a, 0.0) == 0.0
  {
  }

  lemma ScaledKills(jacobian: seq<Row>, scales: seq<real>, residual: seq<real>, y: seq<real>)
    requires Square(jacobian, |scales|) && |residual| == |y| == |scales|
    requires forall j :: 0 <= j < |scales| ==> scales[j] != 0.0
    ensures Shaped(ScaledSystem(jacobian, scales, residual), |scales|)
    ensures Kills(ScaledSystem(jacobian, scales, residual), Zeros(|scales|), y + [-1.0])
       <==> SolvesSystem(jacobian, Unscaled(y, scales), residual)
    ensures Kills(ScaledSystem(jacobian, scales, residual), Zeros(|scales|), y + [0.0])
       <==> Vanishes(jacobian, Unscaled(y, scales))
  {
    hide Times, Ratio, Sum, ScaledRow, Unscaled;
    var rows := ScaledSystem(jacobian, scales, residual);
    forall i | 0 <= i < |rows|
      ensures Sum(rows[i], y + [-1.0], 0) == Sum(jacobian[i], Unscaled(y, scales), 0) + residual[i]
      ensures Sum(rows[i], y + [0.0], 0) == Sum(jacobian[i], Unscaled(y, scales), 0)
    {
      ScaledSum(jacobian[i], scales, -residual[i], y, -1.0, 0);
      ScaledSum(jacobian[i], scales, -residual[i], y, 0.0, 0);
      MinusOne(residual[i]);
    }
  }

  lemma ScaleBack(x: seq<real>, scales: seq<real>) returns (y: seq<real>)
    requires |x| == |scales| && forall j :: 0 <= j < |scales| ==> scales[j] != 0.0
    ensures |y| == |x| && Unscaled(y, scales) == x
    ensures (forall j :: 0 <= j < |y| ==> y[j] == 0.0) ==> forall j :: 0 <= j < |x| ==> x[j] == 0.0
  {
    y := seq(|x|, j requires 0 <= j < |x| => Times(x[j], scales[j]));
    forall j | 0 <= j < |x|
      ensures Ratio(y[j], scales[j]) == x[j] && (y[j] == 0.0 ==> x[j] == 0.0)
    {
      RatioOfProduct(x[j], scales[j]);
    }
    assert Unscaled(y, scales) == x;
  }

  lemma RatioOfProduct(x: real, s: real)
    requires s != 0.0
    ensures Ratio(Times(x, s), s) == x && (Times(x, s) == 0.0 ==> x == 0.0)
  {
  }

  // ---------------------------------------------------------------- the two outcomes

  // An eliminated system has the substituted step as its only solution.
  lemma EliminatedSolves(jacobian: seq<Row>, scales: seq<real>, residual: seq<real>, rows: seq<Row>, y: seq<real>)
    requires Square(jacobian, |scales|) && |residual| == |y| == |scales|
    requires forall j :: 0 <= j < |scales| ==> scales[j] != 0.0
    requires var n := |scales|;
      && SameSystem(ScaledSystem(jacobian, scales, residual), Zeros(n), rows, Los(n, n, n), n)
      && (forall i :: 0 <= i < n ==> rows[i][i] != 0.0) && Kills(rows, Los(n, n, n), y + [-1.0])
    ensures SolvesSystem(jacobian, Unscaled(y, scales), residual)
    ensures Nonsingular(jacobian)
  {
    hide Sum, ScaledSystem, Unscaled, Times, Ratio;
    var n := |scales|;
    ScaledKills(jacobian, scales, residual, y);
    forall x | Vanishes(jacobian, x)
      ensures forall j :: 0 <= j < |x| ==> x[j] == 0.0
    {
      var w := ScaleBack(x, scales);
      ScaledKills(jacobian, scales, residual, w);
      var zero := seq(n + 1, _ => 0.0);
      forall i | 0 <= i < n
        ensures Sum(rows[i], zero, i) == 0.0
      {
        ZeroSum(rows[i], zero, i);
      }
      forall i | 0 <= i < n
        ensures Sum(rows[i], w + [0.0], i) == 0.0
      {
        assert Sum(rows[i], w + [0.0], Los(n, n, n)[i]) == 0.0;
      }
      TriangularUnique(rows, n, w + [0.0], zero, 0);
      assert forall j :: 0 <= j < n ==> w[j] == (w + [0.0])[j];
    }
  }

  lemma {:induction false} ZeroSum(row: Row, z: seq<real>, lo: nat)
    requires |row| == |z| && forall j :: 0 <= j < |z| ==> z[j] == 0.0
    ensures Sum(row, z, lo) == 0.0
    decreases |z| - lo
  {
    if lo < |z| {
      ZeroSum(row, z, lo + 1);
      ZeroTimes(row[lo]);
    }
  }

  lemma KernelSingular(jacobian: seq<Row>, scales: seq<real>, residual: seq<real>, kernel: seq<real>)
    requires Square(jacobian, |scales|) && |residual| == |scales| && forall j :: 0 <= j < |scales| ==> scales[j] != 0.0
    requires InKernel(ScaledSystem(jacobian, scales, residual), |scales|, kernel)
    ensures !Nonsingular(jacobian)
  {
    hide Sum, ScaledSystem, Times, Ratio;
    var n := |scales|;
    var y := kernel[..n];
    assert kernel == y + [0.0];
    ScaledKills(jacobian, scales, residual, y);
    var x := Unscaled(y, scales);
    var j :| 0 <= j < n && kernel[j] != 0.0;
    NonzeroRatio(y[j], scales[j]);
    assert Vanishes(jacobian, x) && x[j] != 0.0;
  }

  lemma NonzeroRatio(a: real, s: real)
    requires s != 0.0 && a != 0.0
    ensures Ratio(a, s) != 0.0
  {
  }

  // A zero column is a kernel vector by itself.
  lemma ZeroColumn(jacobian: seq<Row>, n: nat, c: nat)
    requires Square(jacobian, n) && c < n && forall i :: 0 <= i < n ==> jacobian[i][c] == 0.0
    ensures !Nonsingular(jacobian)
  {
    hide Times;
    var x := seq(n, j => if j == c then 1.0 else 0.0);
    forall i | 0 <= i < n
      ensures Sum(jacobian[i], x, 0) == 0.0
    {
      ColumnSum(jacobian[i], x, c, 0);
    }
    assert Vanishes(jacobian, x) && x[c] != 0.0;
  }

  lemma {:induction false} ColumnSum(row: Row, x: seq<real>, c: nat, lo: nat)
    requires |row| == |x| && c < |x| && row[c] == 0.0
    requires forall j :: 0 <= j < |x| && j != c ==> x[j] == 0.0
    ensures Sum(row, x, lo) == 0.0
    decreases |x| - lo
  {
    if lo < |x| {
      ColumnSum(row, x, c, lo + 1);
      ZeroTimes(row[lo]);
      ZeroTimes(x[lo]);
    }
  }

  // ---------------------------------------------------------------- one Newton step

  type Vector = v: seq<real> | |v| == 3 witness [0.0, 0.0, 0.0]

  datatype Plane = Plane(point: Vector, normal: Vector)

  datatype SurfaceSample = SurfaceSample(position: Vector, uDerivative: Vector, vDerivative: Vector)

  datatype State = State(first: SurfaceSample, second: SurfaceSample, residual: seq<real>, error: real)

  // Two surfaces, a plane, and hypot.
  datatype Problem = Problem(
    first: (real, real) -> Option<SurfaceSample>,
    second: (real, real) -> Option<SurfaceSample>,
    plane: Plane,
    norm: (real, real, real) -> real)

  function Dot(a: Vector, b: Vector): real {
    Times(a[0], b[0]) + Times(a[1], b[1]) + Times(a[2], b[2])
  }

  function Difference(a: Vector, b: Vector): Vector {
    [a[0] - b[0], a[1] - b[1], a[2] - b[2]]
  }

  function Larger(a: real, b: real): real {
    if a < b then b else a
  }

  // The gap between both points, and the distance of the first to the plane.
  function ResidualOf(first: SurfaceSample, second: SurfaceSample, plane: Plane): (r: seq<real>)
    ensures |r| == 4
  {
    Difference(first.position, second.position) + [Dot(Difference(first.position, plane.point), plane.normal)]
  }

  function StateOf(p: Problem, first: SurfaceSample, second: SurfaceSample): State {
    var r := ResidualOf(first, second, p.plane);
    State(first, second, r, Larger(p.norm(r[0], r[1], r[2]), Abs(r[3])))
  }

  function Sampled(p: Problem, uv: seq<real>): (r: Option<State>)
    ensures r.Some? ==> |uv| == 4 && r.value.residual == ResidualOf(r.value.first, r.value.second, p.plane)
  {
    if |uv| != 4 then None
    else
      match (p.first(uv[0], uv[1]), p.second(uv[2], uv[3]))
      case (Some(first), Some(second)) => Some(StateOf(p, first, second))
      case _ => None
  }

  // Both surfaces at a parameter quadruple.
  method Sample(p: Problem, uv: seq<real>) returns (r: Option<State>)
    requires |uv| == 4
    ensures r == Sampled(p, uv)
  {
    var samples: seq<SurfaceSample> := [];
    for side := 0 to 2
      invariant |samples| == side
      invariant side > 0 ==> p.first(uv[0], uv[1]) == Some(samples[0])
      invariant side > 1 ==> p.second(uv[2], uv[3]) == Some(samples[1])
    {
      var sample;
      if side == 0 {
        sample := p.first(uv[0], uv[1]);
      } else {
        sample := p.second(uv[2], uv[3]);
      }
      if sample.None? {
        return None;
      }
      samples := samples + [sample.value];
    }
    var delta := Difference(samples[0].position, samples[1].position);
    var distance := Dot(Difference(samples[0].position, p.plane.point), p.plane.normal);
    return Some(State(samples[0], samples[1], delta + [distance],
                      Larger(p.norm(delta[0], delta[1], delta[2]), Abs(distance))));
  }

  function Columns(s: State): seq<Vector> {
    [s.first.uDerivative, s.first.vDerivative, s.second.uDerivative, s.second.vDerivative]
  }

  function Entry(columns: seq<Vector>, normal: Vector, row: nat, col: nat): real
    requires |columns| == 4 && row < 4 && col < 4
  {
    if row == 3 then (if col < 2 then Dot(columns[col], normal) else 0.0)
    else if col < 2 then columns[col][row] else -columns[col][row]
  }

  // Derivatives of the gap between the surfaces and of the distance to the
  // plane, with respect to both parameter pairs.
  function Jacobian(columns: seq<Vector>, normal: Vector): (rows: seq<Row>)
    requires |columns| == 4
    ensures Square(rows, 4)
  {
    seq(4, row requires 0 <= row < 4 => seq(4, col requires 0 <= col < 4 => Entry(columns, normal, row, col)))
  }

  function ColumnScale(jacobian: seq<Row>, col: nat, rows: nat): (r: real)
    requires Square(jacobian, 4) && col < 4 && rows <= 4
    ensures r >= 0.0 && forall i :: 0 <= i < rows ==> Abs(jacobian[i][col]) <= r
  {
    if rows == 0 then 0.0
    else
      var before := ColumnScale(jacobian, col, rows - 1);
      if Abs(jacobian[rows - 1][col]) > before then Abs(jacobian[rows - 1][col]) else before
  }

  // ---------------------------------------------------------------- tangent planes

  // Coordinate i of the point of the tangent plane at an offset.
  function Tangent(x: SurfaceSample, du: real, dv: real, i: nat): real
    requires i < 3
  {
    x.position[i] + du * x.uDerivative[i] + dv * x.vDerivative[i]
  }

  // At the offsets both tangent planes have the same point, and it lies in the
  // plane.
  ghost predicate TangentsMeet(first: SurfaceSample, second: SurfaceSample, plane: Plane, h: seq<real>) {
    && |h| == 4
    && (forall i :: 0 <= i < 3 ==> Tangent(first, h[0], h[1], i) == Tangent(second, h[2], h[3], i))
    && (Tangent(first, h[0], h[1], 0) - plane.point[0]) * plane.normal[0]
       + (Tangent(first, h[0], h[1], 1) - plane.point[1]) * plane.normal[1]
       + (Tangent(first, h[0], h[1], 2) - plane.point[2]) * plane.normal[2] == 0.0
  }

  function Move(x: SurfaceSample, du: real, dv: real, i: nat): real
    requires i < 3
  {
    du * x.uDerivative[i] + dv * x.vDerivative[i]
  }

  // Offsets that move both tangent points alike, along the plane.
  ghost predicate MovesAlike(first: SurfaceSample, second: SurfaceSample, plane: Plane, h: seq<real>) {
    && |h| == 4
    && (forall i :: 0 <= i < 3 ==> Move(first, h[0], h[1], i) == Move(second, h[2], h[3], i))
    && Move(first, h[0], h[1], 0) * plane.normal[0] + Move(first, h[0], h[1], 1) * plane.normal[1]
       + Move(first, h[0], h[1], 2) * plane.normal[2] == 0.0
  }

  // Only not moving does: both surfaces and the plane cross.
  ghost predicate Crossing(first: SurfaceSample, second: SurfaceSample, plane: Plane) {
    forall h :: MovesAlike(first, second, plane, h) ==> forall j :: 0 <= j < 4 ==> h[j] == 0.0
  }

  lemma FourTerms(row: Row, h: seq<real>)
    requires |row| == |h| == 4
    ensures Sum(row, h, 0) == row[0] * h[0] + row[1] * h[1] + row[2] * h[2] + row[3] * h[3]
  {
    assert Sum(row, h, 4) == 0.0;
    assert Sum(row, h, 3) == Times(row[3], h[3]);
    assert Sum(row, h, 2) == Times(row[2], h[2]) + Times(row[3], h[3]);
  }

  lemma RowEntries(s: State, plane: Plane, i: nat)
    requires i < 3
    ensures Jacobian(Columns(s), plane.normal)[i] ==
      [s.first.uDerivative[i], s.first.vDerivative[i], -s.second.uDerivative[i], -s.second.vDerivative[i]]
  {
  }

  lemma PlaneEntries(s: State, plane: Plane)
    ensures Jacobian(Columns(s), plane.normal)[3] ==
      [Dot(s.first.uDerivative, plane.normal), Dot(s.first.vDerivative, plane.normal), 0.0, 0.0]
  {
    hide Dot;
  }

  lemma RowMoves(s: State, plane: Plane, h: seq<real>, i: nat)
    requires |h| == 4 && i < 3
    ensures Sum(Jacobian(Columns(s), plane.normal)[i], h, 0)
         == Move(s.first, h[0], h[1], i) - Move(s.second, h[2], h[3], i)
  {
    hide Sum, Jacobian;
    RowEntries(s, plane, i);
    FourTerms(Jacobian(Columns(s), plane.normal)[i], h);
  }

  lemma PlaneMoves(s: State, plane: Plane, h: seq<real>)
    requires |h| == 4
    ensures Sum(Jacobian(Columns(s), plane.normal)[3], h, 0) == PlaneMove(s.first, plane, h)
  {
    hide Sum, Jacobian, Dot;
    PlaneEntries(s, plane);
    FourTerms(Jacobian(Columns(s), plane.normal)[3], h);
    DotMoves(s.first.uDerivative, s.first.vDerivative, plane.normal, h[0], h[1]);
  }

  lemma DotMoves(a: Vector, b: Vector, n: Vector, x: real, y: real)
    ensures Dot(a, n) * x + Dot(b, n) * y
         == (x * a[0] + y * b[0]) * n[0] + (x * a[1] + y * b[1]) * n[1] + (x * a[2] + y * b[2]) * n[2]
  {
  }

  lemma MeetPlane(x: SurfaceSample, plane: Plane, du: real, dv: real)
    ensures (Tangent(x, du, dv, 0) - plane.point[0]) * plane.normal[0]
            + (Tangent(x, du, dv, 1) - plane.point[1]) * plane.normal[1]
            + (Tangent(x, du, dv, 2) - plane.point[2]) * plane.normal[2]
         == Dot(Difference(x.position, plane.point), plane.normal)
            + (Move(x, du, dv, 0) * plane.normal[0] + Move(x, du, dv, 1) * plane.normal[1]
               + Move(x, du, dv, 2) * plane.normal[2])
  {
    var m0, m1, m2 := Move(x, du, dv, 0), Move(x, du, dv, 1), Move(x, du, dv, 2);
    var d := Difference(x.position, plane.point);
    assert Tangent(x, du, dv, 0) - plane.point[0] == d[0] + m0;
    assert Tangent(x, du, dv, 1) - plane.point[1] == d[1] + m1;
    assert Tangent(x, du, dv, 2) - plane.point[2] == d[2] + m2;
    SpreadPlane(d, m0, m1, m2, plane.normal);
  }

  lemma SpreadPlane(d: Vector, x: real, y: real, z: real, n: Vector)
    ensures (d[0] + x) * n[0] + (d[1] + y) * n[1] + (d[2] + z) * n[2]
         == Dot(d, n) + (x * n[0] + y * n[1] + z * n[2])
  {
  }

  function PlaneMove(x: SurfaceSample, plane: Plane, h: seq<real>): real
    requires |h| == 4
  {
    Move(x, h[0], h[1], 0) * plane.normal[0] + Move(x, h[0], h[1], 1) * plane.normal[1]
    + Move(x, h[0], h[1], 2) * plane.normal[2]
  }

  // What the rows of the system say.
  lemma RowsMove(s: State, plane: Plane, h: seq<real>)
    requires |h| == 4
    ensures forall i :: 0 <= i < 3 ==>
      Sum(Jacobian(Columns(s), plane.normal)[i], h, 0) == Move(s.first, h[0], h[1], i) - Move(s.second, h[2], h[3], i)
    ensures Sum(Jacobian(Columns(s), plane.normal)[3], h, 0) == PlaneMove(s.first, plane, h)
  {
    hide Sum, Jacobian, Move, PlaneMove;
    forall i | 0 <= i < 3
      ensures Sum(Jacobian(Columns(s), plane.normal)[i], h, 0)
           == Move(s.first, h[0], h[1], i) - Move(s.second, h[2], h[3], i)
    {
      RowMoves(s, plane, h, i);
    }
    PlaneMoves(s, plane, h);
  }

  lemma VanishesMoves(s: State, plane: Plane, h: seq<real>)
    ensures Vanishes(Jacobian(Columns(s), plane.normal), h) <==> MovesAlike(s.first, s.second, plane, h)
  {
    hide Sum, Jacobian, Move;
    if |h| == 4 {
      RowsMove(s, plane, h);
    }
  }

  lemma TangentsAre(s: State, plane: Plane, h: seq<real>)
    requires s.residual == ResidualOf(s.first, s.second, plane) && |h| == 4
    ensures TangentsMeet(s.first, s.second, plane, h)
       <==> && (forall i :: 0 <= i < 3 ==>
                  Move(s.first, h[0], h[1], i) - Move(s.second, h[2], h[3], i) == -s.residual[i])
            && PlaneMove(s.first, plane, h) == -s.residual[3]
  {
    hide Dot, Move, Tangent;
    MeetPlane(s.first, plane, h[0], h[1]);
    forall i | 0 <= i < 3
      ensures Tangent(s.first, h[0], h[1], i) == Tangent(s.second, h[2], h[3], i)
         <==> Move(s.first, h[0], h[1], i) - Move(s.second, h[2], h[3], i) == -s.residual[i]
    {
      TangentMoves(s.first, h[0], h[1], i);
      TangentMoves(s.second, h[2], h[3], i);
    }
  }

  // The linear system says that the tangent planes meet in the plane.
  lemma SystemMeets(s: State, plane: Plane, h: seq<real>)
    requires s.residual == ResidualOf(s.first, s.second, plane)
    ensures SolvesSystem(Jacobian(Columns(s), plane.normal), h, s.residual)
       <==> TangentsMeet(s.first, s.second, plane, h)
  {
    hide Sum, Jacobian, Move, PlaneMove, ResidualOf, TangentsMeet;
    if |h| == 4 {
      RowsMove(s, plane, h);
      TangentsAre(s, plane, h);
    } else {
      OtherLength(s, plane, h);
    }
  }

  lemma OtherLength(s: State, plane: Plane, h: seq<real>)
    requires |h| != 4
    ensures !TangentsMeet(s.first, s.second, plane, h) && |Jacobian(Columns(s), plane.normal)| == 4
  {
  }

  lemma TangentMoves(x: SurfaceSample, du: real, dv: real, i: nat)
    requires i < 3
    ensures Tangent(x, du, dv, i) == x.position[i] + Move(x, du, dv, i)
  {
  }

  lemma CrossingIff(s: State, plane: Plane)
    requires s.residual == ResidualOf(s.first, s.second, plane)
    ensures Nonsingular(Jacobian(Columns(s), plane.normal)) <==> Crossing(s.first, s.second, plane)
  {
    hide Sum, Jacobian, MovesAlike, Vanishes;
    var jacobian := Jacobian(Columns(s), plane.normal);
    forall h
      ensures Vanishes(jacobian, h) <==> MovesAlike(s.first, s.second, plane, h)
    {
      VanishesMoves(s, plane, h);
    }
    forall h | MovesAlike(s.first, s.second, plane, h)
      ensures |h| == 4
    {
      FourOffsets(s, plane, h);
    }
    if Crossing(s.first, s.second, plane) {
      forall h | Vanishes(jacobian, h)
        ensures forall j :: 0 <= j < |h| ==> h[j] == 0.0
      {
        assert MovesAlike(s.first, s.second, plane, h);
      }
    }
    if Nonsingular(jacobian) {
      forall h | MovesAlike(s.first, s.second, plane, h)
        ensures forall j :: 0 <= j < 4 ==> h[j] == 0.0
      {
        assert Vanishes(jacobian, h);
      }
    }
  }

  lemma FourOffsets(s: State, plane: Plane, h: seq<real>)
    requires MovesAlike(s.first, s.second, plane, h)
    ensures |h| == 4
  {
  }

  // A step exists exactly where both surfaces and the plane cross, and it leads
  // to the common point of both tangent planes and the plane.
  method NewtonStep(s: State, plane: Plane) returns (r: Option<seq<real>>)
    requires s.residual == ResidualOf(s.first, s.second, plane)
    ensures r.Some? <==> Crossing(s.first, s.second, plane)
    ensures r.Some? ==> TangentsMeet(s.first, s.second, plane, r.value)
  {
    var step := SystemStep(s, plane);
    CrossingIff(s, plane);
    if step.Some? {
      SystemMeets(s, plane, step.value);
    }
    return step;
  }

  // Some exactly when the Jacobian is nonsingular, and then the step solves
  // J step = -residual.
  method SystemStep(s: State, plane: Plane) returns (r: Option<seq<real>>)
    requires |s.residual| == 4
    ensures r.Some? <==> Nonsingular(Jacobian(Columns(s), plane.normal))
    ensures r.Some? ==> SolvesSystem(Jacobian(Columns(s), plane.normal), r.value, s.residual)
  {
    hide Sum, Kills, SameSystem, Nonsingular, Times, Ratio, Entry, InKernel, SolvesSystem;
    var columns := Columns(s);
    var jacobian := Jacobian(columns, plane.normal);
    var scales: seq<real> := [];
    for col := 0 to 4
      invariant |scales| == col && forall j :: 0 <= j < col ==> scales[j] != 0.0
    {
      var scale := 0.0;
      for row := 0 to 4
        invariant scale == ColumnScale(jacobian, col, row)
      {
        if Abs(jacobian[row][col]) > scale {
          scale := Abs(jacobian[row][col]);
        }
      }
      if scale == 0.0 {
        forall i | 0 <= i < 4
          ensures jacobian[i][col] == 0.0
        {
          assert Abs(jacobian[i][col]) <= scale;
        }
        ZeroColumn(jacobian, 4, col);
        return None;
      }
      scales := scales + [scale];
    }
    var scaled := ScaledSystem(jacobian, scales, s.residual);
    var matrix := new Row[4](i requires 0 <= i < 4 => scaled[i]);
    assert matrix[..] == scaled;
    var ok;
    ghost var kernel;
    ok, kernel := Eliminate(matrix, 4);
    if !ok {
      KernelSingular(jacobian, scales, s.residual, kernel);
      return None;
    }
    ghost var rows := matrix[..];
    var step := Substitute(matrix, 4);
    EliminatedSolves(jacobian, scales, s.residual, rows, step);
    ghost var y := step;
    for i := 0 to 4
      invariant |step| == 4 && forall j :: 0 <= j < 4 ==> step[j] == if j < i then Ratio(y[j], scales[j]) else y[j]
    {
      step := step[i := Ratio(step[i], scales[i])];
    }
    assert step == Unscaled(y, scales);
    return Some(step);
  }

  // ---------------------------------------------------------------- the damped iteration

  function Damped(uv: seq<real>, step: seq<real>, damping: real): (r: seq<real>)
    requires |uv| == |step|
    ensures |r| == |uv|
  {
    seq(|uv|, i requires 0 <= i < |uv| => uv[i] + Times(damping, step[i]))
  }

  const MAX_UPDATES := 32
  const MAX_DAMPING_TRIALS := 16

  // One, halved n times.
  function Halved(n: nat): real {
    if n == 0 then 1.0 else Halved(n - 1) / 2.0
  }

  function Trial(uv: seq<real>, step: seq<real>, n: nat): (r: seq<real>)
    requires |uv| == |step|
    ensures |r| == |uv|
  {
    Damped(uv, step, Halved(n))
  }

  predicate Accepts(p: Problem, uv: seq<real>, error: real, step: seq<real>, n: nat)
    requires |uv| == |step|
  {
    Sampled(p, Trial(uv, step, n)).Some? && Sampled(p, Trial(uv, step, n)).value.error < error
  }

  // Trial n leads to `next` and is the first that is accepted.
  predicate FirstAccepted(p: Problem, uv: seq<real>, error: real, step: seq<real>, n: nat, next: seq<real>)
    requires |uv| == |step|
  {
    && n < MAX_DAMPING_TRIALS && Accepts(p, uv, error, step, n) && next == Trial(uv, step, n)
    && forall m :: 0 <= m < n ==> !Accepts(p, uv, error, step, m)
  }

  // The first damped step that lowers the error, if one of the trials does.
  method Improve(p: Problem, uv: seq<real>, state: State, step: seq<real>) returns (r: Option<seq<real>>)
    requires |uv| == |step| == 4
    ensures r.Some? ==> exists n :: FirstAccepted(p, uv, state.error, step, n, r.value)
    ensures r.None? ==> forall n :: 0 <= n < MAX_DAMPING_TRIALS ==> !Accepts(p, uv, state.error, step, n)
  {
    var damping := 1.0;
    for trial := 0 to MAX_DAMPING_TRIALS
      invariant damping == Halved(trial)
      invariant forall m :: 0 <= m < trial ==> !Accepts(p, uv, state.error, step, m)
    {
      var candidate := Damped(uv, step, damping);
      var next := Sample(p, candidate);
      if next.Some? && next.value.error < state.error {
        assert candidate == Trial(uv, step, trial);
        assert FirstAccepted(p, uv, state.error, step, trial, candidate);
        return Some(candidate);
      }
      damping := damping / 2.0;
    }
    return None;
  }

  // ---------------------------------------------------------------- iterates

  ghost predicate StepAt(p: Problem, uv: seq<real>, step: seq<real>) {
    && |uv| == |step| == 4 && Sampled(p, uv).Some?
    && Crossing(Sampled(p, uv).value.first, Sampled(p, uv).value.second, p.plane)
    && TangentsMeet(Sampled(p, uv).value.first, Sampled(p, uv).value.second, p.plane, step)
  }

  // The next parameters: the Newton step with the first damping that lowers the
  // error.
  ghost predicate IsUpdate(p: Problem, uv: seq<real>, next: seq<real>) {
    exists step, n :: StepAt(p, uv, step)
      && FirstAccepted(p, uv, Sampled(p, uv).value.error, step, n, next)
  }

  // No damping of the step lowers the error.
  ghost predicate Stalled(p: Problem, uv: seq<real>, step: seq<real>) {
    && StepAt(p, uv, step)
    && forall n :: 0 <= n < MAX_DAMPING_TRIALS ==> !Accepts(p, uv, Sampled(p, uv).value.error, step, n)
  }

  // No crossing, or no damping of the step that lowers the error.
  ghost predicate Stuck(p: Problem, uv: seq<real>) {
    && |uv| == 4 && Sampled(p, uv).Some?
    && (Crossing(Sampled(p, uv).value.first, Sampled(p, uv).value.second, p.plane) ==>
          exists step :: Stalled(p, uv, step))
  }

  ghost predicate OutsideTolerance(p: Problem, uv: seq<real>, tolerance: real) {
    Sampled(p, uv).Some? && Sampled(p, uv).value.error > tolerance
  }

  // Updates from parameters outside the tolerance only.
  ghost predicate Iterates(p: Problem, tolerance: real, uvs: seq<seq<real>>) {
    && uvs != []
    && (forall i :: 0 <= i < |uvs| ==> |uvs[i]| == 4 && Sampled(p, uvs[i]).Some?)
    && forall i :: 0 <= i < |uvs| - 1 ==>
         OutsideTolerance(p, uvs[i], tolerance) && IsUpdate(p, uvs[i], uvs[i + 1])
  }

  // The iteration from `start` ends at `uv`: within the tolerance, stuck, or
  // after the last allowed update.
  ghost predicate EndsAt(p: Problem, tolerance: real, start: seq<real>, uv: seq<real>,
                         uvs: seq<seq<real>>) {
    && Iterates(p, tolerance, uvs) && uvs[0] == start && uvs[|uvs| - 1] == uv
    && |uvs| <= MAX_UPDATES + 1
    && (OutsideTolerance(p, uv, tolerance) ==> |uvs| == MAX_UPDATES + 1 || Stuck(p, uv))
  }

  lemma OneMore(p: Problem, tolerance: real, uvs: seq<seq<real>>, uv: seq<real>, step: seq<real>,
                next: seq<real>)
    requires Iterates(p, tolerance, uvs) && uvs[|uvs| - 1] == uv && |next| == 4
    requires OutsideTolerance(p, uv, tolerance) && StepAt(p, uv, step)
    requires exists n :: FirstAccepted(p, uv, Sampled(p, uv).value.error, step, n, next)
    ensures Iterates(p, tolerance, uvs + [next])
    ensures Sampled(p, next).Some? && Sampled(p, next).value.error < Sampled(p, uv).value.error
  {
    hide StepAt;
    var more := uvs + [next];
    assert IsUpdate(p, uv, next);
    forall i | 0 <= i < |more| - 1
      ensures OutsideTolerance(p, more[i], tolerance) && IsUpdate(p, more[i], more[i + 1])
    {
      assert more[i] == uvs[i];
      assert i + 1 < |uvs| ==> more[i + 1] == uvs[i + 1];
    }
  }

  // The outcome is decided by the iterates: success exactly when the iteration
  // ends within the tolerance. The error never grows.
  method Solve(p: Problem, start: seq<real>, tolerance: real)
    returns (r: Result<State>, uv: seq<real>)
    requires |start| == 4
    ensures Sampled(p, start).None? ==> r.Err?
    ensures Sampled(p, start).Some? ==>
      && (exists uvs :: EndsAt(p, tolerance, start, uv, uvs))
      && Sampled(p, uv).Some? && Sampled(p, uv).value.error <= Sampled(p, start).value.error
      && (r.Ok? <==> Sampled(p, uv).value.error <= tolerance)
    ensures r.Ok? ==> Sampled(p, uv) == Some(r.value)
  {
    hide Crossing, TangentsMeet, Iterates, IsUpdate, Stuck, StepAt, FirstAccepted, Trial, Accepts, Sampled;
    uv := start;
    var sampled := Sample(p, uv);
    if sampled.None? {
      return Err(InvalidRecord), uv;
    }
    var state := sampled.value;
    var iteration := 0;
    ghost var uvs := [start];
    StartIterates(p, tolerance, start);
    while state.error > tolerance && iteration < MAX_UPDATES
      invariant |uv| == 4 && Sampled(p, uv) == Some(state) && state.error <= Sampled(p, start).value.error
      invariant Iterates(p, tolerance, uvs) && uvs != [] && uvs[0] == start && uvs[|uvs| - 1] == uv
      invariant |uvs| == iteration + 1 <= MAX_UPDATES + 1
      decreases MAX_UPDATES - iteration
    {
      SampledResidual(p, uv);
      var step := NewtonStep(state, p.plane);
      if step.None? {
        SingularStuck(p, uv);
        assert EndsAt(p, tolerance, start, uv, uvs);
        return Err(InvalidRecord), uv;
      }
      StepLength(state.first, state.second, p.plane, step.value);
      StepFound(p, uv, step.value);
      var improved := Improve(p, uv, state, step.value);
      if improved.None? {
        StalledStuck(p, uv, step.value);
        assert EndsAt(p, tolerance, start, uv, uvs);
        return Err(InvalidRecord), uv;
      }
      TrialLength(p, uv, state.error, step.value, improved.value);
      OneMore(p, tolerance, uvs, uv, step.value, improved.value);
      uvs := uvs + [improved.value];
      uv := improved.value;
      state := Sampled(p, uv).value;
      iteration := iteration + 1;
    }
    assert EndsAt(p, tolerance, start, uv, uvs);
    if state.error > tolerance {
      return Err(InvalidRecord), uv;
    }
    return Ok(state), uv;
  }

  lemma StartIterates(p: Problem, tolerance: real, start: seq<real>)
    requires |start| == 4 && Sampled(p, start).Some?
    ensures Iterates(p, tolerance, [start])
  {
  }

  lemma TrialLength(p: Problem, uv: seq<real>, error: real, step: seq<real>, next: seq<real>)
    requires |uv| == |step| == 4 && exists n :: FirstAccepted(p, uv, error, step, n, next)
    ensures |next| == 4
  {
  }

  lemma StepFound(p: Problem, uv: seq<real>, step: seq<real>)
    requires |uv| == |step| == 4 && Sampled(p, uv).Some?
    requires Crossing(Sampled(p, uv).value.first, Sampled(p, uv).value.second, p.plane)
    requires TangentsMeet(Sampled(p, uv).value.first, Sampled(p, uv).value.second, p.plane, step)
    ensures StepAt(p, uv, step)
  {
  }

  lemma SingularStuck(p: Problem, uv: seq<real>)
    requires |uv| == 4 && Sampled(p, uv).Some?
    requires !Crossing(Sampled(p, uv).value.first, Sampled(p, uv).value.second, p.plane)
    ensures Stuck(p, uv)
  {
    hide Crossing;
  }

  lemma StalledStuck(p: Problem, uv: seq<real>, step: seq<real>)
    requires StepAt(p, uv, step)
    requires forall n :: 0 <= n < MAX_DAMPING_TRIALS ==> !Accepts(p, uv, Sampled(p, uv).value.error, step, n)
    ensures Stuck(p, uv)
  {
    hide Crossing, TangentsMeet, Accepts;
    assert Stalled(p, uv, step);
  }

  // ---------------------------------------------------------------- uniqueness

  function Minus(x: seq<real>, y: seq<real>): (z: seq<real>)
    requires |x| == |y|
    ensures |z| == |x|
  {
    seq(|x|, i requires 0 <= i < |x| => x[i] - y[i])
  }

  lemma TimesDifference(a: real, x: real, y: real)
    ensures Times(a, x - y) == Times(a, x) - Times(a, y)
  {
  }

  lemma {:induction false} SumDifference(row: Row, x: seq<real>, y: seq<real>, lo: nat)
    requires |row| == |x| == |y|
    ensures Sum(row, Minus(x, y), lo) == Sum(row, x, lo) - Sum(row, y, lo)
    decreases |x| - lo
  {
    hide Times;
    if lo < |x| {
      SumDifference(row, x, y, lo + 1);
      TimesDifference(row[lo], x[lo], y[lo]);
    }
  }

  // A nonsingular system has one solution.
  lemma StepUnique(jacobian: seq<Row>, x: seq<real>, y: seq<real>, residual: seq<real>)
    requires Nonsingular(jacobian) && SolvesSystem(jacobian, x, residual) && SolvesSystem(jacobian, y, residual)
    ensures x == y
  {
    hide Sum;
    forall i | 0 <= i < |jacobian|
      ensures |jacobian[i]| == |x| && Sum(jacobian[i], Minus(x, y), 0) == 0.0
    {
      SumDifference(jacobian[i], x, y, 0);
    }
    assert Vanishes(jacobian, Minus(x, y));
    assert forall i :: 0 <= i < |x| ==> Minus(x, y)[i] == x[i] - y[i];
  }

  // Every point has at most one update, so the iterates are determined.
  lemma UpdateUnique(p: Problem, uv: seq<real>, a: seq<real>, b: seq<real>)
    requires IsUpdate(p, uv, a) && IsUpdate(p, uv, b)
    ensures a == b
  {
    hide Crossing, TangentsMeet, Accepts, Trial;
    var s, m :| StepAt(p, uv, s)
      && FirstAccepted(p, uv, Sampled(p, uv).value.error, s, m, a);
    var t, n :| StepAt(p, uv, t)
      && FirstAccepted(p, uv, Sampled(p, uv).value.error, t, n, b);
    MeetUnique(Sampled(p, uv).value, p.plane, s, t);
  }

  lemma {:induction false} SameIterates(p: Problem, tolerance: real, a: seq<seq<real>>,
                                         b: seq<seq<real>>, n: nat)
    requires Iterates(p, tolerance, a) && Iterates(p, tolerance, b) && a[0] == b[0]
    requires n < |a| && n < |b|
    ensures a[n] == b[n]
  {
    hide IsUpdate, OutsideTolerance;
    if n > 0 {
      SameIterates(p, tolerance, a, b, n - 1);
      UpdateUnique(p, a[n - 1], a[n - 1 + 1], b[n - 1 + 1]);
    }
  }

  lemma StuckStays(p: Problem, uv: seq<real>, next: seq<real>)
    requires IsUpdate(p, uv, next)
    ensures !Stuck(p, uv)
  {
    hide Crossing, TangentsMeet, Accepts, Trial;
    var s, m :| StepAt(p, uv, s) && FirstAccepted(p, uv, Sampled(p, uv).value.error, s, m, next);
    forall step
      ensures !Stalled(p, uv, step)
    {
      if Stalled(p, uv, step) {
        MeetUnique(Sampled(p, uv).value, p.plane, s, step);
      }
    }
  }

  lemma EndsNoLater(p: Problem, tolerance: real, start: seq<real>, u: seq<real>, v: seq<real>,
                    a: seq<seq<real>>, b: seq<seq<real>>)
    requires EndsAt(p, tolerance, start, u, a) && EndsAt(p, tolerance, start, v, b)
    ensures |a| >= |b|
  {
    hide IsUpdate, Stuck;
    if |a| < |b| {
      var n := |a| - 1;
      SameIterates(p, tolerance, a, b, n);
      StuckStays(p, b[n], b[n + 1]);
    }
  }

  // Where the iteration from a start ends is determined.
  lemma EndUnique(p: Problem, tolerance: real, start: seq<real>, u: seq<real>, v: seq<real>,
                  a: seq<seq<real>>, b: seq<seq<real>>)
    requires EndsAt(p, tolerance, start, u, a) && EndsAt(p, tolerance, start, v, b)
    ensures u == v
  {
    EndsNoLater(p, tolerance, start, u, v, a, b);
    EndsNoLater(p, tolerance, start, v, u, b, a);
    SameIterates(p, tolerance, a, b, |a| - 1);
  }

  lemma StepLength(first: SurfaceSample, second: SurfaceSample, plane: Plane, h: seq<real>)
    requires TangentsMeet(first, second, plane, h)
    ensures |h| == 4
  {
  }

  lemma SampledResidual(p: Problem, uv: seq<real>)
    requires Sampled(p, uv).Some?
    ensures Sampled(p, uv).value.residual == ResidualOf(Sampled(p, uv).value.first, Sampled(p, uv).value.second, p.plane)
  {
  }

  // Crossing tangent planes meet the plane in one point only.
  lemma MeetUnique(s: State, plane: Plane, x: seq<real>, y: seq<real>)
    requires s.residual == ResidualOf(s.first, s.second, plane) && Crossing(s.first, s.second, plane)
    requires TangentsMeet(s.first, s.second, plane, x) && TangentsMeet(s.first, s.second, plane, y)
    ensures x == y
  {
    hide Crossing, TangentsMeet, Jacobian, SolvesSystem, Nonsingular;
    SystemMeets(s, plane, x);
    SystemMeets(s, plane, y);
    CrossingIff(s, plane);
    StepUnique(Jacobian(Columns(s), plane.normal), x, y, s.residual);
  }

  // ---------------------------------------------------------------- what the error means

  // hypot.
  ghost predicate IsNorm(norm: (real, real, real) -> real) {
    forall x, y, z :: norm(x, y, z) >= 0.0 && norm(x, y, z) * norm(x, y, z) == x * x + y * y + z * z
  }

  // The squared distance of the two points, and how far the first is off the
  // plane.
  function GapSquared(a: Vector, b: Vector): real {
    (a[0] - b[0]) * (a[0] - b[0]) + (a[1] - b[1]) * (a[1] - b[1]) + (a[2] - b[2]) * (a[2] - b[2])
  }

  function OffPlane(a: Vector, plane: Plane): real {
    (a[0] - plane.point[0]) * plane.normal[0] + (a[1] - plane.point[1]) * plane.normal[1]
    + (a[2] - plane.point[2]) * plane.normal[2]
  }

  lemma NormIs(norm: (real, real, real) -> real, a: Vector, b: Vector)
    requires IsNorm(norm)
    ensures var length := norm(a[0] - b[0], a[1] - b[1], a[2] - b[2]);
      length >= 0.0 && length * length == GapSquared(a, b)
  {
  }

  lemma SampledError(p: Problem, uv: seq<real>)
    requires |uv| == 4 && p.first(uv[0], uv[1]).Some? && p.second(uv[2], uv[3]).Some?
    ensures Sampled(p, uv).Some?
    ensures var a, b := p.first(uv[0], uv[1]).value.position, p.second(uv[2], uv[3]).value.position;
      Sampled(p, uv).value.error == Larger(p.norm(a[0] - b[0], a[1] - b[1], a[2] - b[2]), Abs(OffPlane(a, p.plane)))
  {
    hide Abs, Larger;
    var a := p.first(uv[0], uv[1]).value.position;
    DotOffPlane(a, p.plane);
  }

  lemma DotOffPlane(a: Vector, plane: Plane)
    ensures Dot(Difference(a, plane.point), plane.normal) == OffPlane(a, plane)
  {
  }

  // The error is within a tolerance exactly when both surface points are that
  // close and the first is that close to the plane.
  lemma ErrorWithin(p: Problem, uv: seq<real>, tolerance: real)
    requires IsNorm(p.norm) && tolerance >= 0.0 && |uv| == 4
    requires p.first(uv[0], uv[1]).Some? && p.second(uv[2], uv[3]).Some?
    ensures Sampled(p, uv).Some?
    ensures var a, b := p.first(uv[0], uv[1]).value.position, p.second(uv[2], uv[3]).value.position;
      Sampled(p, uv).value.error <= tolerance
      <==> GapSquared(a, b) <= tolerance * tolerance && -tolerance <= OffPlane(a, p.plane) <= tolerance
  {
    hide GapSquared, OffPlane, Sampled, IsNorm;
    var a, b := p.first(uv[0], uv[1]).value.position, p.second(uv[2], uv[3]).value.position;
    NormIs(p.norm, a, b);
    SampledError(p, uv);
    Squares(p.norm(a[0] - b[0], a[1] - b[1], a[2] - b[2]), tolerance);
  }

  lemma Squares(x: real, y: real)
    requires x >= 0.0 && y >= 0.0
    ensures x * x <= y * y <==> x <= y
  {
    if x <= y {
      NoSmaller(x, y);
    } else {
      StrictSquares(y, x);
    }
  }

  lemma Products(d: real, x: real, y: real)
    requires d >= 0.0 && x >= 0.0 && y >= 0.0
    ensures d * x >= 0.0 && d * y >= 0.0 && (d > 0.0 && x > 0.0 ==> d * x > 0.0)
  {
  }

  lemma StrictSquares(x: real, y: real)
    requires 0.0 <= x < y
    ensures x * x < y * y
  {
    var d := y - x;
    Products(d, y, x);
    assert d * y + d * x > 0.0;
    assert y * y - x * x == d * y + d * x;
  }

  lemma NoSmaller(x: real, y: real)
    requires 0.0 <= x <= y
    ensures x * x <= y * y
  {
    Products(y - x, y, x);
    assert y * y - x * x == (y - x) * y + (y - x) * x;
  }

  // ---------------------------------------------------------------- planes

  // A surface that is its own tangent plane.
  ghost predicate Affine(f: (real, real) -> Option<SurfaceSample>, x: SurfaceSample) {
    forall u, v :: AffineAt(f, x, u, v)
  }

  predicate AffineAt(f: (real, real) -> Option<SurfaceSample>, x: SurfaceSample, u: real, v: real) {
    && f(u, v).Some?
    && f(u, v).value.uDerivative == x.uDerivative && f(u, v).value.vDerivative == x.vDerivative
    && forall i :: 0 <= i < 3 ==> f(u, v).value.position[i] == Tangent(x, u, v, i)
  }

  lemma Advanced(f: (real, real) -> Option<SurfaceSample>, x: SurfaceSample, u: real, v: real, du: real, dv: real,
                 i: nat)
    requires Affine(f, x) && i < 3
    ensures f(u + du, v + dv).Some? && f(u, v).Some?
    ensures f(u + du, v + dv).value.position[i] == Tangent(f(u, v).value, du, dv, i)
  {
    assert AffineAt(f, x, u, v) && AffineAt(f, x, u + du, v + dv);
    var here := f(u, v).value;
    assert f(u + du, v + dv).value.position[i] == Tangent(x, u + du, v + dv, i);
    assert here.position[i] == Tangent(x, u, v, i);
    Shifted(x.position[i], x.uDerivative[i], x.vDerivative[i], u, v, du, dv);
  }

  lemma Shifted(x: real, a: real, b: real, u: real, v: real, du: real, dv: real)
    ensures x + (u + du) * a + (v + dv) * b == (x + u * a + v * b) + du * a + dv * b
  {
  }

  // On planes the undamped step leaves no error.
  lemma AffineStep(p: Problem, x: SurfaceSample, y: SurfaceSample, uv: seq<real>, step: seq<real>)
    requires Affine(p.first, x) && Affine(p.second, y) && IsNorm(p.norm)
    requires |uv| == 4 && Sampled(p, uv).Some?
    requires TangentsMeet(Sampled(p, uv).value.first, Sampled(p, uv).value.second, p.plane, step)
    ensures Sampled(p, Trial(uv, step, 0)).Some? && Sampled(p, Trial(uv, step, 0)).value.error <= 0.0
  {
    hide TangentsMeet, Affine, Tangent, IsNorm, GapSquared, OffPlane;
    var s := Sampled(p, uv).value;
    StepLength(s.first, s.second, p.plane, step);
    var next := Trial(uv, step, 0);
    assert next == [uv[0] + step[0], uv[1] + step[1], uv[2] + step[2], uv[3] + step[3]];
    Advanced(p.first, x, uv[0], uv[1], step[0], step[1], 0);
    Advanced(p.second, y, uv[2], uv[3], step[2], step[3], 0);
    forall i | 0 <= i < 3
      ensures p.first(next[0], next[1]).value.position[i] == Tangent(s.first, step[0], step[1], i)
      ensures p.second(next[2], next[3]).value.position[i] == Tangent(s.second, step[2], step[3], i)
    {
      Advanced(p.first, x, uv[0], uv[1], step[0], step[1], i);
      Advanced(p.second, y, uv[2], uv[3], step[2], step[3], i);
    }
    var a, b := p.first(next[0], next[1]).value.position, p.second(next[2], next[3]).value.position;
    assert a[0] == Tangent(s.first, step[0], step[1], 0);
    MeetsHere(s.first, s.second, p.plane, step, a, b);
    ErrorWithin(p, next, 0.0);
  }

  lemma MeetsHere(first: SurfaceSample, second: SurfaceSample, plane: Plane, h: seq<real>, a: Vector, b: Vector)
    requires TangentsMeet(first, second, plane, h)
    requires forall i :: 0 <= i < 3 ==> a[i] == Tangent(first, h[0], h[1], i) && b[i] == Tangent(second, h[2], h[3], i)
    ensures GapSquared(a, b) == 0.0 && OffPlane(a, plane) == 0.0
  {
    hide Tangent;
    assert a[0] == b[0] && a[1] == b[1] && a[2] == b[2];
  }

  lemma SameCrossing(p: Problem, x: SurfaceSample, y: SurfaceSample, uv: seq<real>)
    requires Affine(p.first, x) && Affine(p.second, y) && |uv| == 4
    ensures Sampled(p, uv).Some?
    ensures Crossing(Sampled(p, uv).value.first, Sampled(p, uv).value.second, p.plane) <==> Crossing(x, y, p.plane)
  {
    hide Tangent, Move;
    assert AffineAt(p.first, x, uv[0], uv[1]) && AffineAt(p.second, y, uv[2], uv[3]);
    var s := Sampled(p, uv).value;
    forall h
      ensures MovesAlike(s.first, s.second, p.plane, h) <==> MovesAlike(x, y, p.plane, h)
    {
      if |h| == 4 {
        SameMoves(s.first, x, h[0], h[1]);
        SameMoves(s.second, y, h[2], h[3]);
      }
    }
  }

  lemma SameMoves(a: SurfaceSample, b: SurfaceSample, du: real, dv: real)
    requires a.uDerivative == b.uDerivative && a.vDerivative == b.vDerivative
    ensures forall i :: 0 <= i < 3 ==> Move(a, du, dv, i) == Move(b, du, dv, i)
  {
  }

  // Two planes and the plane, if they cross: from any start the iteration ends
  // within the tolerance, after one update at most.
  lemma PlanesSolved(p: Problem, x: SurfaceSample, y: SurfaceSample, tolerance: real, start: seq<real>, uv: seq<real>,
                     uvs: seq<seq<real>>)
    requires Affine(p.first, x) && Affine(p.second, y) && IsNorm(p.norm) && Crossing(x, y, p.plane)
    requires tolerance >= 0.0 && |start| == 4 && EndsAt(p, tolerance, start, uv, uvs)
    ensures Sampled(p, uv).Some? && Sampled(p, uv).value.error <= tolerance && |uvs| <= 2
  {
    hide Crossing, Sampled, TangentsMeet, MovesAlike, Affine, IsNorm, Trial;
    if |uvs| >= 2 {
      assert OutsideTolerance(p, uvs[0], tolerance) && IsUpdate(p, uvs[0], uvs[1]);
      FirstUpdate(p, x, y, uvs[0], uvs[1]);
    }
    assert |uvs| > 2 ==> OutsideTolerance(p, uvs[1], tolerance);
    if |uvs| == 1 && OutsideTolerance(p, uv, tolerance) {
      NotStuck(p, x, y, uv);
    }
  }

  lemma FirstUpdate(p: Problem, x: SurfaceSample, y: SurfaceSample, uv: seq<real>, next: seq<real>)
    requires Affine(p.first, x) && Affine(p.second, y) && IsNorm(p.norm) && IsUpdate(p, uv, next)
    requires OutsideTolerance(p, uv, 0.0)
    ensures Sampled(p, next).Some? && Sampled(p, next).value.error <= 0.0
  {
    hide Crossing, Sampled, TangentsMeet, Affine, IsNorm, Trial;
    var step, n :| StepAt(p, uv, step) && FirstAccepted(p, uv, Sampled(p, uv).value.error, step, n, next);
    AffineStep(p, x, y, uv, step);
    assert Accepts(p, uv, Sampled(p, uv).value.error, step, 0);
    assert n == 0;
  }

  lemma NotStuck(p: Problem, x: SurfaceSample, y: SurfaceSample, uv: seq<real>)
    requires Affine(p.first, x) && Affine(p.second, y) && IsNorm(p.norm) && Crossing(x, y, p.plane)
    requires |uv| == 4 && OutsideTolerance(p, uv, 0.0)
    ensures !Stuck(p, uv)
  {
    hide Crossing, Sampled, TangentsMeet, Affine, IsNorm, Trial;
    SameCrossing(p, x, y, uv);
    forall step
      ensures !Stalled(p, uv, step)
    {
      if Stalled(p, uv, step) {
        AffineStep(p, x, y, uv, step);
        FullTrial(p, uv, step);
      }
    }
  }

  lemma FullTrial(p: Problem, uv: seq<real>, step: seq<real>)
    requires Stalled(p, uv, step) && Sampled(p, Trial(uv, step, 0)).Some?
    ensures Sampled(p, Trial(uv, step, 0)).value.error >= Sampled(p, uv).value.error
  {
    hide Crossing, TangentsMeet, Sampled, Trial;
    assert !Accepts(p, uv, Sampled(p, uv).value.error, step, 0);
  }

  // ---------------------------------------------------------------- dampings

  lemma {:induction false} HalvedPower(n: nat)
    ensures Power2(n) as real * Halved(n) == 1.0
  {
    if n > 0 {
      HalvedPower(n - 1);
    }
  }

  // The step, halved n times.
  predicate MovesBy(uv: seq<real>, step: seq<real>, n: nat, next: seq<real>) {
    && |uv| == |step| == |next| == 4
    && forall i :: 0 <= i < 4 ==> Power2(n) as real * (next[i] - uv[i]) == step[i]
  }

  // An update moves by the step, halved fewer than 16 times, to a smaller error.
  lemma UpdateHalves(p: Problem, uv: seq<real>, next: seq<real>) returns (step: seq<real>, n: nat)
    requires IsUpdate(p, uv, next)
    ensures n < 16 && MovesBy(uv, step, n, next) && Sampled(p, uv).Some? && Sampled(p, next).Some?
    ensures TangentsMeet(Sampled(p, uv).value.first, Sampled(p, uv).value.second, p.plane, step)
    ensures Sampled(p, next).value.error < Sampled(p, uv).value.error
  {
    hide Crossing, TangentsMeet, Sampled, Times, Halved, Power2;
    var t, m :| StepAt(p, uv, t) && FirstAccepted(p, uv, Sampled(p, uv).value.error, t, m, next);
    step, n := t, m;
    HalvedPower(n);
    forall i | 0 <= i < 4
      ensures Power2(n) as real * (next[i] - uv[i]) == step[i]
    {
      HalfMove(Power2(n) as real, Halved(n), step[i], uv[i], next[i]);
    }
  }

  lemma HalfMove(a: real, b: real, x: real, from: real, to: real)
    requires a * b == 1.0 && to == from + Times(b, x)
    ensures a * (to - from) == x
  {
    assert a * (b * x) == (a * b) * x;
  }

  lemma TrialIs(uv: seq<real>, step: seq<real>, n: nat, next: seq<real>)
    requires MovesBy(uv, step, n, next)
    ensures next == Trial(uv, step, n)
  {
    hide Times, Halved, Power2;
    HalvedPower(n);
    forall i | 0 <= i < 4
      ensures next[i] == uv[i] + Times(Halved(n), step[i])
    {
      MoveBack(Power2(n) as real, Halved(n), step[i], next[i] - uv[i]);
    }
  }

  lemma MoveBack(a: real, b: real, x: real, d: real)
    requires a * b == 1.0 && a * d == x
    ensures d == Times(b, x)
  {
    assert b * (a * d) == (a * b) * d;
  }

  // None of the sixteen halved steps that meet the tangent planes lowers the
  // error.
  ghost predicate Blocked(p: Problem, uv: seq<real>, step: seq<real>) {
    && Sampled(p, uv).Some?
    && TangentsMeet(Sampled(p, uv).value.first, Sampled(p, uv).value.second, p.plane, step)
    && forall n: nat, next :: n < 16 && MovesBy(uv, step, n, next) ==>
         Sampled(p, next).None? || Sampled(p, next).value.error >= Sampled(p, uv).value.error
  }

  lemma StalledBlocked(p: Problem, uv: seq<real>, step: seq<real>)
    requires Stalled(p, uv, step)
    ensures Blocked(p, uv, step)
  {
    hide Crossing, TangentsMeet, Sampled, MovesBy, Trial;
    forall n: nat, next | n < 16 && MovesBy(uv, step, n, next)
      ensures Sampled(p, next).None? || Sampled(p, next).value.error >= Sampled(p, uv).value.error
    {
      TrialIs(uv, step, n, next);
      assert !Accepts(p, uv, Sampled(p, uv).value.error, step, n);
    }
  }

  // The iteration ends after at most 32 updates; outside the tolerance it ends
  // there, where the three tangent planes do not cross, or where all sixteen
  // halved steps fail.
  lemma EndsOutside(p: Problem, tolerance: real, start: seq<real>, uv: seq<real>, uvs: seq<seq<real>>)
    requires EndsAt(p, tolerance, start, uv, uvs)
    ensures 1 <= |uvs| <= 33 && Sampled(p, uv).Some?
    ensures Sampled(p, uv).value.error > tolerance && |uvs| < 33
            && Crossing(Sampled(p, uv).value.first, Sampled(p, uv).value.second, p.plane) ==>
      exists step :: Blocked(p, uv, step)
  {
    hide Crossing, TangentsMeet, Sampled, IsUpdate, Stalled, Blocked;
    if OutsideTolerance(p, uv, tolerance) && |uvs| < 33
       && Crossing(Sampled(p, uv).value.first, Sampled(p, uv).value.second, p.plane) {
      var step :| Stalled(p, uv, step);
      StalledBlocked(p, uv, step);
    }
  }
}
