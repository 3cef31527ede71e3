// Binding analysed boundary paths to face geometry, and evaluating them.
module PathBinding {
  import opened Results
  import opened BoundaryGraph
  import opened BoundaryGroups
  import opened BoundaryTracing
  import opened ShellUses
  import opened ShellSummary

  datatype Vector3 = Vector3(x: real, y: real, z: real)

  // A source fin with its curve interval.
  datatype BoundFin = BoundFin(use: Fin, face: nat, surface: nat, curve: nat, start: real, end: real)

  datatype BoundPathEdge = BoundPathEdge(use: PathEdge, source: BoundFin)

  datatype BoundPath = BoundPath(kind: GroupKind, edges: seq<BoundPathEdge>)

  // Stands for the evaluation of a bound fin at a fraction of its interval.
  type Evaluator = (BoundFin, real) -> Result<Vector3>

  predicate MatchesSource(edge: BoundPathEdge) {
    var use, fin := edge.use, edge.source.use;
    && use.edge != 0 && use.fin != 0 && use.fin == fin.fin && use.edge == fin.edge
    && use.sense != Unknown && fin.sense != Unknown
    && use.start == (if use.sense == fin.sense then fin.start else fin.end)
    && use.end == (if use.sense == fin.sense then fin.end else fin.start)
  }

  // The source interval in path direction.
  function Oriented(edge: BoundPathEdge): BoundFin {
    if edge.use.sense != edge.source.use.sense
    then edge.source.(start := edge.source.end, end := edge.source.start)
    else edge.source
  }

  function EvaluateBoundBoundaryPathEdge(evaluate: Evaluator, edge: BoundPathEdge, fraction: real): Result<Vector3> {
    if !MatchesSource(edge) then Err(InvalidOptions) else evaluate(Oriented(edge), fraction)
  }

  function Square(x: real): real {
    x * x
  }

  // The distance of a and b exceeds a nonnegative tolerance.
  predicate Apart(a: Vector3, b: Vector3, tolerance: real) {
    Square(a.x - b.x) + Square(a.y - b.y) + Square(a.z - b.z) > Square(tolerance)
  }

  function Bind(path: seq<PathEdge>, fins: map<nat, BoundFin>): (edges: seq<BoundPathEdge>)
    requires forall i :: 0 <= i < |path| ==> path[i].fin in fins
    ensures |edges| == |path|
  {
    seq(|path|, i requires 0 <= i < |path| => BoundPathEdge(path[i], fins[path[i].fin]))
  }

  // ---------------------------------------------------------------- what binding checks

  predicate EdgesListed(edges: seq<nat>) {
    Distinct(edges) && forall i :: 0 <= i < |edges| ==> edges[i] != 0
  }

  predicate StepBinds(group: BoundaryGroup, fins: map<nat, BoundFin>, i: nat)
    requires i < |group.path|
  {
    var use := group.path[i];
    && use.edge in group.edges && use.fin in fins && MatchesSource(BoundPathEdge(use, fins[use.fin]))
    && (forall j :: 0 <= j < i ==> group.path[j].edge != use.edge && group.path[j].fin != use.fin)
    && (i > 0 ==> group.path[i - 1].end == use.start)
  }

  predicate EndsBind(group: BoundaryGroup)
    requires group.path != []
  {
    var first, last := group.path[0].start, group.path[|group.path| - 1].end;
    if group.kind == Cycle then first == last
    else
      && |group.endVertices| == 2 && first == group.endVertices[0] && last == group.endVertices[1]
      && first != 0 && first != last
  }

  // Every check of the binding that does not look at geometry.
  predicate PathBinds(group: BoundaryGroup, fins: map<nat, BoundFin>) {
    && group.kind != Branched && group.path != [] && |group.path| == |group.edges|
    && EdgesListed(group.edges)
    && (forall i :: 0 <= i < |group.path| ==> group.path[i].fin in fins)
    && (forall i :: 0 <= i < |group.path| ==> StepBinds(group, fins, i))
    && EndsBind(group)
  }

  function At(evaluate: Evaluator, edge: BoundPathEdge, fraction: real): Vector3 {
    match EvaluateBoundBoundaryPathEdge(evaluate, edge, fraction)
    case Ok(position) => position
    case Err(_) => Vector3(0.0, 0.0, 0.0)
  }

  predicate EdgeEvaluates(evaluate: Evaluator, edge: BoundPathEdge) {
    && EvaluateBoundBoundaryPathEdge(evaluate, edge, 0.0).Ok?
    && EvaluateBoundBoundaryPathEdge(evaluate, edge, 0.5).Ok?
    && EvaluateBoundBoundaryPathEdge(evaluate, edge, 1.0).Ok?
  }

  predicate StepJoins(evaluate: Evaluator, edges: seq<BoundPathEdge>, tolerance: real, i: nat)
    requires i < |edges|
  {
    && EdgeEvaluates(evaluate, edges[i])
    && (i > 0 ==> !Apart(At(evaluate, edges[i - 1], 1.0), At(evaluate, edges[i], 0.0), tolerance))
  }

  // Every geometric check.
  predicate PathJoins(evaluate: Evaluator, kind: GroupKind, edges: seq<BoundPathEdge>, tolerance: real)
    requires edges != []
  {
    && (forall i :: 0 <= i < |edges| ==> StepJoins(evaluate, edges, tolerance, i))
    && (kind == Cycle ==> !Apart(At(evaluate, edges[0], 0.0), At(evaluate, edges[|edges| - 1], 1.0), tolerance))
  }

  // The error of a geometric failure: an evaluation's own error, or a gap.
  ghost predicate GeometricError(evaluate: Evaluator, edges: seq<BoundPathEdge>, error: ErrorCode) {
    || error == InvalidRecord
    || exists i, fraction :: 0 <= i < |edges|
         && EvaluateBoundBoundaryPathEdge(evaluate, edges[i], fraction) == Err(error)
  }

  // One edge at its start, middle and end.
  method JoinStep(evaluate: Evaluator, edge: BoundPathEdge, first: Option<Vector3>, previous: Option<Vector3>,
                  tolerance: real)
    returns (r: Result<(Vector3, Vector3)>)
    ensures r.Ok? <==>
      && EdgeEvaluates(evaluate, edge)
      && (previous.Some? ==> !Apart(previous.value, At(evaluate, edge, 0.0), tolerance))
    ensures r.Ok? ==>
      r.value == (if first.Some? then first.value else At(evaluate, edge, 0.0), At(evaluate, edge, 1.0))
    ensures r.Err? ==>
      r.error == InvalidRecord || exists fraction :: EvaluateBoundBoundaryPathEdge(evaluate, edge, fraction) == Err(r.error)
  {
    hide EvaluateBoundBoundaryPathEdge, Apart;
    var begin, end := first, previous;
    for step := 0 to 3
      invariant step > 0 ==>
        && EvaluateBoundBoundaryPathEdge(evaluate, edge, 0.0).Ok?
        && (previous.Some? ==> !Apart(previous.value, At(evaluate, edge, 0.0), tolerance))
      invariant step > 1 ==> EvaluateBoundBoundaryPathEdge(evaluate, edge, 0.5).Ok?
      invariant step > 2 ==> EvaluateBoundBoundaryPathEdge(evaluate, edge, 1.0).Ok?
      invariant begin == if step > 0 && first.None? then Some(At(evaluate, edge, 0.0)) else first
      invariant end == if step > 2 then Some(At(evaluate, edge, 1.0)) else previous
    {
      var fraction := [0.0, 0.5, 1.0][step];
      var sample := EvaluateBoundBoundaryPathEdge(evaluate, edge, fraction);
      if sample.Err? {
        return Err(sample.error);
      }
      if step == 0 {
        if end.Some? && Apart(end.value, sample.value, tolerance) {
          return Err(InvalidRecord);
        }
        if begin.None? {
          begin := Some(sample.value);
        }
      } else if step == 2 {
        end := Some(sample.value);
      }
    }
    return Ok((begin.value, end.value));
  }

  // The listed edges as a set; None for a null or repeated edge.
  method EdgeSet(edges: seq<nat>) returns (r: Option<set<int>>)
    ensures r.Some? <==> EdgesListed(edges)
    ensures r.Some? ==> forall e :: e in r.value <==> e in edges
  {
    var remaining: set<int> := {};
    for i := 0 to |edges|
      invariant forall e :: e in remaining <==> e in edges[..i]
      invariant EdgesListed(edges[..i])
    {
      var e := edges[i];
      if e == 0 || e in remaining {
        assert edges[i] == e;
        return None;
      }
      assert edges[..i + 1] == edges[..i] + [e];
      remaining := remaining + {e};
    }
    assert edges[..|edges|] == edges;
    return Some(remaining);
  }

  // The edges still to come and the fins already used after i steps.
  ghost predicate Consumed(group: BoundaryGroup, i: nat, remaining: set<int>, used: set<int>)
    requires i <= |group.path|
  {
    && (forall e :: e in remaining <==> e in group.edges && forall j :: 0 <= j < i ==> group.path[j].edge != e)
    && (forall f :: f in used <==> exists j :: 0 <= j < i && group.path[j].fin == f)
  }

  lemma StepChecks(group: BoundaryGroup, fins: map<nat, BoundFin>, i: nat, remaining: set<int>, used: set<int>)
    requires i < |group.path| && Consumed(group, i, remaining, used)
    ensures var use := group.path[i];
      && (StepBinds(group, fins, i) <==>
            && use.edge in remaining && use.fin !in used && use.fin in fins
            && MatchesSource(BoundPathEdge(use, fins[use.fin])) && (i > 0 ==> group.path[i - 1].end == use.start))
      && Consumed(group, i + 1, remaining - {use.edge}, used + {use.fin})
  {
    hide MatchesSource;
  }

  // The first i steps are bound and joined.
  ghost predicate BoundUpTo(evaluate: Evaluator, group: BoundaryGroup, fins: map<nat, BoundFin>, tolerance: real,
                            i: nat, edges: seq<BoundPathEdge>) {
    && |edges| == i <= |group.path|
    && (forall j :: 0 <= j < i ==>
          group.path[j].fin in fins && edges[j] == BoundPathEdge(group.path[j], fins[group.path[j].fin]))
    && (forall j :: 0 <= j < i ==> StepBinds(group, fins, j))
    && (forall j :: 0 <= j < i ==> StepJoins(evaluate, edges, tolerance, j))
  }

  lemma BoundMore(evaluate: Evaluator, group: BoundaryGroup, fins: map<nat, BoundFin>, tolerance: real,
                  i: nat, edges: seq<BoundPathEdge>)
    requires BoundUpTo(evaluate, group, fins, tolerance, i, edges) && i < |group.path| && StepBinds(group, fins, i)
    ensures group.path[i].fin in fins
    ensures var edge := BoundPathEdge(group.path[i], fins[group.path[i].fin]);
      && (PathBinds(group, fins) ==> Bind(group.path, fins)[i] == edge)
      && var joins := EdgeEvaluates(evaluate, edge)
                      && (i > 0 ==> !Apart(At(evaluate, edges[i - 1], 1.0), At(evaluate, edge, 0.0), tolerance));
         if joins then BoundUpTo(evaluate, group, fins, tolerance, i + 1, edges + [edge])
         else PathBinds(group, fins) ==> !StepJoins(evaluate, Bind(group.path, fins), tolerance, i)
  {
    hide StepBinds, Apart, EdgeEvaluates, At, EndsBind, EdgesListed;
    StepKnown(group, fins, i);
    var edge := BoundPathEdge(group.path[i], fins[group.path[i].fin]);
    assert PathBinds(group, fins) && i > 0 ==> Bind(group.path, fins)[i - 1] == edges[i - 1];
    forall j: nat | j < i
      ensures StepJoins(evaluate, edges + [edge], tolerance, j)
    {
      assert StepJoins(evaluate, edges, tolerance, j);
    }
  }

  lemma StepKnown(group: BoundaryGroup, fins: map<nat, BoundFin>, i: nat)
    requires i < |group.path| && StepBinds(group, fins, i)
    ensures group.path[i].fin in fins
  {
  }

  // Binding succeeds exactly when the combinatorial and the geometric checks
  // hold; when the former hold, only geometry can fail.
  method BindPath(evaluate: Evaluator, group: BoundaryGroup, fins: map<nat, BoundFin>, tolerance: real)
    returns (r: Result<BoundPath>)
    ensures r.Ok? <==> PathBinds(group, fins) && PathJoins(evaluate, group.kind, Bind(group.path, fins), tolerance)
    ensures r.Ok? ==> r.value == BoundPath(group.kind, Bind(group.path, fins))
    ensures r.Err? && PathBinds(group, fins) ==> GeometricError(evaluate, Bind(group.path, fins), r.error)
  {
    hide EvaluateBoundBoundaryPathEdge, Apart, MatchesSource, Consumed, StepBinds, EdgesListed, EdgeEvaluates;
    if group.kind == Branched {
      return Err(UnsupportedFormat);
    }
    if group.path == [] || |group.path| != |group.edges| {
      return Err(InvalidOptions);
    }
    var listed := EdgeSet(group.edges);
    if listed.None? {
      return Err(InvalidOptions);
    }
    var remaining, used: set<int> := listed.value, {};
    var edges: seq<BoundPathEdge> := [];
    var first, previous: Option<Vector3> := None, None;
    NothingConsumed(group, remaining);
    for i := 0 to |group.path|
      invariant Consumed(group, i, remaining, used)
      invariant BoundUpTo(evaluate, group, fins, tolerance, i, edges)
      invariant if i == 0 then first == None && previous == None
                else first == Some(At(evaluate, edges[0], 0.0)) && previous == Some(At(evaluate, edges[i - 1], 1.0))
    {
      var use := group.path[i];
      StepChecks(group, fins, i, remaining, used);
      if use.edge !in remaining || use.fin in used || use.fin !in fins {
        return Err(InvalidOptions);
      }
      remaining := remaining - {use.edge};
      used := used + {use.fin};
      var edge := BoundPathEdge(use, fins[use.fin]);
      if !MatchesSource(edge) || (edges != [] && edges[|edges| - 1].use.end != use.start) {
        return Err(InvalidOptions);
      }
      BoundMore(evaluate, group, fins, tolerance, i, edges);
      var joined := JoinStep(evaluate, edge, first, previous, tolerance);
      if joined.Err? {
        return Err(joined.error);
      }
      first, previous := Some(joined.value.0), Some(joined.value.1);
      edges := edges + [edge];
    }
    assert edges == Bind(group.path, fins);
    if group.kind == Cycle {
      if edges[0].use.start != edges[|edges| - 1].use.end {
        return Err(InvalidOptions);
      }
      if Apart(first.value, previous.value, tolerance) {
        return Err(InvalidRecord);
      }
    } else if |group.endVertices| != 2 || edges[0].use.start != group.endVertices[0]
              || edges[|edges| - 1].use.end != group.endVertices[1] || group.endVertices[0] == 0
              || group.endVertices[0] == group.endVertices[1] {
      return Err(InvalidOptions);
    }
    return Ok(BoundPath(group.kind, edges));
  }

  lemma NothingConsumed(group: BoundaryGroup, remaining: set<int>)
    requires forall e :: e in remaining <==> e in group.edges
    ensures Consumed(group, 0, remaining, {})
  {
  }

  // ---------------------------------------------------------------- evaluation along a path

  datatype JoinSide = Incoming | Outgoing | OtherSide

  datatype PathEvaluation = PathEvaluation(
    edgeIndex: nat,
    edgeFraction: real,
    use: PathEdge,
    face: nat,
    surface: nat,
    curve: nat,
    position: Vector3)

  // A position on an edge, with what the edge lies on.
  function SampleOf(edge: BoundPathEdge, index: nat, fraction: real, position: Vector3): PathEvaluation {
    PathEvaluation(index, fraction, edge.use, edge.source.face, edge.source.surface, edge.source.curve, position)
  }

  const MAX_EXACT_INTEGER := 0x20_0000_0000_0000

  // The edge and fraction that stand for a path parameter.
  predicate SplitsAt(count: nat, parameter: real, side: JoinSide, index: nat, fraction: real) {
    && index < count && index as real + fraction == parameter && 0.0 <= fraction <= 1.0
    && (fraction == 0.0 ==> index == 0 || side == Outgoing)
    && (fraction == 1.0 ==> index + 1 == count || side == Incoming)
  }

  lemma SplitUnique(count: nat, parameter: real, side: JoinSide, i: nat, s: real, j: nat, t: real)
    requires SplitsAt(count, parameter, side, i, s) && SplitsAt(count, parameter, side, j, t)
    ensures i == j && s == t
  {
    var a, b := i as real, j as real;
    assert i < j ==> a + 1.0 <= b;
    assert j < i ==> b + 1.0 <= a;
  }

  ghost predicate EvaluatesTo(evaluate: Evaluator, path: BoundPath, parameter: real, side: JoinSide,
                              index: nat, fraction: real, r: Result<PathEvaluation>) {
    && SplitsAt(|path.edges|, parameter, side, index, fraction)
    && match EvaluateBoundBoundaryPathEdge(evaluate, path.edges[index], fraction)
       case Ok(position) => r == Ok(SampleOf(path.edges[index], index, fraction, position))
       case Err(error) => r == Err(error)
  }

  predicate InDomain(path: BoundPath, parameter: real, tolerance: real, maxEdges: nat, side: JoinSide) {
    && maxEdges != 0 && path.kind != Branched && side != OtherSide && 0.0 <= tolerance
    && 0 < |path.edges| <= maxEdges && |path.edges| <= MAX_EXACT_INTEGER && 0.0 <= parameter <= |path.edges| as real
  }

  // Inside the domain the result is the edge evaluation at the one split of the
  // parameter; outside it is an error.
  method EvaluateBoundBoundaryPath(evaluate: Evaluator, path: BoundPath, parameter: real, tolerance: real,
                                   maxEdges: nat, side: JoinSide)
    returns (r: Result<PathEvaluation>)
    ensures InDomain(path, parameter, tolerance, maxEdges, side) ==>
      exists index, fraction :: EvaluatesTo(evaluate, path, parameter, side, index, fraction, r)
    ensures !InDomain(path, parameter, tolerance, maxEdges, side) ==> r.Err?
  {
    hide EvaluateBoundBoundaryPathEdge;
    if maxEdges == 0 || side == OtherSide || parameter < 0.0 || tolerance < 0.0 || path.edges == [] {
      return Err(InvalidOptions);
    }
    if path.kind == Branched {
      return Err(UnsupportedFormat);
    }
    if |path.edges| > maxEdges || |path.edges| > MAX_EXACT_INTEGER {
      return Err(ResourceLimit);
    }
    var count := |path.edges| as real;
    if parameter > count {
      return Err(InvalidOptions);
    }
    var index: nat, fraction := 0, 0.0;
    if parameter == count {
      index := |path.edges| - 1;
      fraction := 1.0;
    } else {
      index := parameter.Floor;
      fraction := parameter - index as real;
      if fraction == 0.0 && index != 0 && side == Incoming {
        index := index - 1;
        fraction := 1.0;
      }
    }
    assert SplitsAt(|path.edges|, parameter, side, index, fraction);
    var edge := path.edges[index];
    var evaluation := EvaluateBoundBoundaryPathEdge(evaluate, edge, fraction);
    r := if evaluation.Err? then Err(evaluation.error)
         else Ok(PathEvaluation(index, fraction, edge.use, edge.source.face, edge.source.surface, edge.source.curve,
                                evaluation.value));
    assert EvaluatesTo(evaluate, path, parameter, side, index, fraction, r);
  }

  // A bound path is continuous up to the tolerance: both one-sided samples at
  // an inner join exist and are not apart.
  lemma BoundPathContinuous(evaluate: Evaluator, path: BoundPath, tolerance: real, k: nat,
                            incoming: Result<PathEvaluation>, outgoing: Result<PathEvaluation>,
                            i: nat, s: real, j: nat, t: real)
    requires path.edges != [] && PathJoins(evaluate, path.kind, path.edges, tolerance) && 0 < k < |path.edges|
    requires EvaluatesTo(evaluate, path, k as real, Incoming, i, s, incoming)
    requires EvaluatesTo(evaluate, path, k as real, Outgoing, j, t, outgoing)
    ensures incoming.Ok? && outgoing.Ok?
    ensures !Apart(incoming.value.position, outgoing.value.position, tolerance)
  {
    hide EvaluateBoundBoundaryPathEdge, Apart;
    SplitUnique(|path.edges|, k as real, Incoming, i, s, k - 1, 1.0);
    SplitUnique(|path.edges|, k as real, Outgoing, j, t, k, 0.0);
    assert StepJoins(evaluate, path.edges, tolerance, k) && StepJoins(evaluate, path.edges, tolerance, k - 1);
  }

  // A bound cycle closes up to the tolerance: the samples at both ends of its
  // domain exist and are not apart, on either side.
  lemma BoundCycleCloses(evaluate: Evaluator, path: BoundPath, tolerance: real, first: JoinSide, last: JoinSide,
                         start: Result<PathEvaluation>, end: Result<PathEvaluation>, i: nat, s: real, j: nat, t: real)
    requires path.kind == Cycle && path.edges != [] && PathJoins(evaluate, path.kind, path.edges, tolerance)
    requires EvaluatesTo(evaluate, path, 0.0, first, i, s, start)
    requires EvaluatesTo(evaluate, path, |path.edges| as real, last, j, t, end)
    ensures start.Ok? && end.Ok?
    ensures !Apart(start.value.position, end.value.position, tolerance)
  {
    hide EvaluateBoundBoundaryPathEdge, Apart;
    var n := |path.edges|;
    SplitUnique(n, 0.0, first, i, s, 0, 0.0);
    SplitUnique(n, n as real, last, j, t, n - 1, 1.0);
    assert StepJoins(evaluate, path.edges, tolerance, 0) && StepJoins(evaluate, path.edges, tolerance, n - 1);
  }

  // ---------------------------------------------------------------- analysed groups bind

  // Fins on file with the same incidence as the analysed uses.
  ghost predicate Carries(fins: map<nat, BoundFin>, uses: set<Use>) {
    && (forall u :: u in uses ==> u.fin.fin != 0 && u.fin.fin in fins && fins[u.fin.fin].use == u.fin)
    && (forall u, w :: u in uses && w in uses && u.fin.fin == w.fin.fin ==> u == w)
  }

  lemma StepAt(w: seq<BoundaryEdge>, v: nat, k: nat)
    requires k < |w|
    ensures PathOf(w, v)[k] == StepFrom(w[k], WalkEnd(w[..k], v))
    ensures PathOf(w, v)[k].start == WalkEnd(w[..k], v) && PathOf(w, v)[k].end == WalkEnd(w[..k + 1], v)
    decreases |w|
  {
    if k == |w| - 1 {
      assert w[..k + 1] == w;
    } else {
      var shorter := w[..|w| - 1];
      StepAt(shorter, v, k);
      assert shorter[..k] == w[..k] && shorter[..k + 1] == w[..k + 1];
    }
  }

  // A step along a boundary edge agrees with the edge's source fin, in either
  // direction of either.
  lemma StepMatches(u: Use, v: nat, source: BoundFin)
    requires UsableFin(u.fin) && u.fin.fin != 0 && source.use == u.fin && Meets(BoundaryEdgeOf(u.fin), v)
    ensures MatchesSource(BoundPathEdge(StepFrom(BoundaryEdgeOf(u.fin), v), source))
  {
  }

  // The canonical walk of an analysed group satisfies every combinatorial
  // check of the binding.
  lemma WalkBinds(g: Edges, uses: set<Use>, own: set<nat>, group: BoundaryGroup, fins: map<nat, BoundFin>)
    requires g <= BoundarySet(uses, own) && DistinctIds(g) && IsGroup(g, group) && group.kind != Branched
    requires Carries(fins, uses) && forall u :: u in uses ==> UsableFin(u.fin)
    ensures PathBinds(group, fins)
  {
    hide Carries, MatchesSource, UsableFin, Trail, KindOf, EndsOf, BranchesOf, VerticesOf, StepBinds, EndsBind;
    var w, v :| CanonicalWalk(g, w, v) && group.path == PathOf(w, v);
    WalkCounts(g, group, w, v);
    forall i: nat | i < |w|
      ensures group.path[i].fin in fins && StepBinds(group, fins, i)
    {
      WalkStepBinds(g, uses, own, group, fins, w, v, i);
    }
    WalkEnds(g, group, w, v);
    forall i | 0 <= i < |group.edges|
      ensures group.edges[i] != 0
    {
      assert group.edges[i] in Elements(group.edges);
      var e :| e in g && e.edge == group.edges[i];
      var u := SourceUse(g, uses, own, e);
      assert UsableFin(u.fin);
      UsableEdge(u.fin);
    }
  }

  lemma UsableEdge(fin: Fin)
    requires UsableFin(fin)
    ensures fin.edge != 0
  {
  }

  lemma WalkEnds(g: Edges, group: BoundaryGroup, w: seq<BoundaryEdge>, v: nat)
    requires Members(g, group) && CanonicalWalk(g, w, v) && group.kind != Branched && group.path == PathOf(w, v)
    ensures group.path != [] && EndsBind(group)
  {
    hide Trail, KindOf;
    StepAt(w, v, 0);
    StepAt(w, v, |w| - 1);
    assert w[..|w|] == w && w[..0] == [];
    var last := WalkEnd(w, v);
    if group.kind == Chain {
      assert v in EndsOf(g) && last in EndsOf(g);
      AscendingLength(group.endVertices);
      assert |{v, last}| == 2;
      assert group.endVertices[0] in Elements(group.endVertices) && group.endVertices[1] in Elements(group.endVertices);
    }
  }

  lemma WalkCounts(g: Edges, group: BoundaryGroup, w: seq<BoundaryEdge>, v: nat)
    requires DistinctIds(g) && Members(g, group) && Trail(w, v, g) && Elements(w) == g
    ensures |group.edges| == |w|
  {
    IdCount(g);
    AscendingLength(group.edges);
    TrailLength(w, v, g);
  }

  lemma WalkStepBinds(g: Edges, uses: set<Use>, own: set<nat>, group: BoundaryGroup, fins: map<nat, BoundFin>,
                      w: seq<BoundaryEdge>, v: nat, i: nat)
    requires g <= BoundarySet(uses, own) && DistinctIds(g) && Members(g, group) && group.path == PathOf(w, v)
    requires Carries(fins, uses) && forall u :: u in uses ==> UsableFin(u.fin)
    requires Trail(w, v, g) && i < |w|
    ensures group.path[i].fin in fins && StepBinds(group, fins, i)
  {
    hide MatchesSource, UsableFin, KindOf, EndsOf, BranchesOf, VerticesOf, Carries, BoundarySet, WalkEnd, IsWalk, PathOf,
         DistinctIds, Meets;
    TrailTake(w, v, g, i);
    StepAt(w, v, i);
    StepSource(g, uses, own, fins, w[i], WalkEnd(w[..i], v));
    assert w[i].edge in Ids(g);
    assert group.path[i].edge in Elements(group.edges);
    forall j: nat | j < i
      ensures group.path[j].edge != group.path[i].edge && group.path[j].fin != group.path[i].fin
    {
      StepAt(w, v, j);
      assert w[j] in g by {
        assert w[j] in Elements(w);
      }
      DifferentSteps(g, uses, own, fins, w[j], w[i]);
    }
    if i > 0 {
      StepAt(w, v, i - 1);
    }
  }

  lemma StepSource(g: Edges, uses: set<Use>, own: set<nat>, fins: map<nat, BoundFin>, e: BoundaryEdge, v: nat)
    requires g <= BoundarySet(uses, own) && e in g && Meets(e, v)
    requires Carries(fins, uses) && forall u :: u in uses ==> UsableFin(u.fin)
    ensures e.fin in fins && MatchesSource(BoundPathEdge(StepFrom(e, v), fins[e.fin]))
    ensures StepFrom(e, v).fin == e.fin && StepFrom(e, v).edge == e.edge
  {
    hide MatchesSource, UsableFin, BoundarySet;
    var u := SourceUse(g, uses, own, e);
    StepMatches(u, v, fins[e.fin]);
  }

  lemma DifferentSteps(g: Edges, uses: set<Use>, own: set<nat>, fins: map<nat, BoundFin>, e: BoundaryEdge, f: BoundaryEdge)
    requires g <= BoundarySet(uses, own) && DistinctIds(g) && e in g && f in g && e != f && Carries(fins, uses)
    ensures e.edge != f.edge && e.fin != f.fin
  {
    hide BoundarySet;
    var u := SourceUse(g, uses, own, e);
    var w := SourceUse(g, uses, own, f);
  }

  lemma SourceUse(g: Edges, uses: set<Use>, own: set<nat>, e: BoundaryEdge) returns (u: Use)
    requires g <= BoundarySet(uses, own) && e in g
    ensures u in uses && BoundaryEdgeOf(u.fin) == e && u.fin.fin == e.fin && u.fin.edge == e.edge
  {
    u :| u in uses && u.fin.edge in own && Valence(uses, u.fin.edge) == 1 && BoundaryEdgeOf(u.fin) == e;
  }

  // Producer and consumer agree: every unbranched group of an analysed
  // component passes all combinatorial checks of BindPath.
  lemma AnalysedGroupBinds(faces: set<Face>, c: Component, group: BoundaryGroup, fins: map<nat, BoundFin>)
    requires IsComponent(faces, c) && group in c.boundaryGroups && group.kind != Branched
    requires Carries(fins, UsesOf(faces)) && forall u :: u in UsesOf(faces) ==> UsableFin(u.fin)
    ensures PathBinds(group, fins)
  {
    hide IsGroup, Carries, UsableFin, PathBinds, DistinctIds;
    var uses, own := UsesOf(faces), Elements(c.edges);
    var g := BoundarySet(uses, own);
    var k :| 0 <= k < |c.boundaryGroups| && c.boundaryGroups[k] == group;
    assert GroupAt(g, c.boundaryGroups[k]);
    BoundaryDistinct(uses, own);
    PartDistinct(g, Front(group));
    WalkBinds(GroupOf(g, Front(group)), uses, own, group, fins);
  }

  lemma PartDistinct(g: Edges, id: nat)
    requires DistinctIds(g)
    ensures GroupOf(g, id) <= g && DistinctIds(GroupOf(g, id))
  {
  }

  // ---------------------------------------------------------------- curves under the fins

  // The parameter at a fraction of an interval.
  function Between(start: real, end: real, fraction: real): real {
    start + fraction * (end - start)
  }

  // Fins are evaluated on their curve, from the start of their interval to its
  // end.
  ghost predicate OnCurves(evaluate: Evaluator, curve: (nat, real) -> Vector3) {
    forall fin, fraction :: 0.0 <= fraction <= 1.0 ==>
      evaluate(fin, fraction) == Ok(curve(fin.curve, Between(fin.start, fin.end, fraction)))
  }

  // A use against the sense of its fin runs the interval backwards, from the
  // source's end to its start.
  lemma UseRuns(evaluate: Evaluator, curve: (nat, real) -> Vector3, edge: BoundPathEdge, fraction: real)
    requires MatchesSource(edge) && OnCurves(evaluate, curve) && 0.0 <= fraction <= 1.0
    ensures var fin := edge.source;
      EvaluateBoundBoundaryPathEdge(evaluate, edge, fraction)
      == Ok(curve(fin.curve, if edge.use.sense == fin.use.sense then Between(fin.start, fin.end, fraction)
                             else Between(fin.start, fin.end, 1.0 - fraction)))
  {
    var fin := edge.source;
    assert Between(fin.end, fin.start, fraction) == Between(fin.start, fin.end, 1.0 - fraction);
  }

  lemma UseEnds(evaluate: Evaluator, curve: (nat, real) -> Vector3, edge: BoundPathEdge)
    requires MatchesSource(edge) && OnCurves(evaluate, curve)
    ensures var fin, same := edge.source, edge.use.sense == edge.source.use.sense;
      && EvaluateBoundBoundaryPathEdge(evaluate, edge, 0.0) == Ok(curve(fin.curve, if same then fin.start else fin.end))
      && EvaluateBoundBoundaryPathEdge(evaluate, edge, 1.0) == Ok(curve(fin.curve, if same then fin.end else fin.start))
      && EvaluateBoundBoundaryPathEdge(evaluate, edge, 0.5).Ok?
  {
    hide MatchesSource;
    var fin := edge.source;
    UseRuns(evaluate, curve, edge, 0.0);
    UseRuns(evaluate, curve, edge, 0.5);
    UseRuns(evaluate, curve, edge, 1.0);
    assert Between(fin.start, fin.end, 0.0) == fin.start && Between(fin.start, fin.end, 1.0) == fin.end;
  }

  // The curve of a fin runs from its start vertex to its end vertex.
  predicate JoinsVertices(curve: (nat, real) -> Vector3, place: nat -> Vector3, fin: BoundFin) {
    curve(fin.curve, fin.start) == place(fin.use.start) && curve(fin.curve, fin.end) == place(fin.use.end)
  }

  // Then every step of a bound path runs from its own start vertex to its own
  // end vertex, and the path has no gaps at all: only the combinatorial checks
  // can fail.
  lemma PlacedPathJoins(evaluate: Evaluator, curve: (nat, real) -> Vector3, place: nat -> Vector3, group: BoundaryGroup,
                        fins: map<nat, BoundFin>, tolerance: real)
    requires OnCurves(evaluate, curve) && PathBinds(group, fins)
    requires forall f :: f in fins ==> JoinsVertices(curve, place, fins[f])
    ensures forall i :: 0 <= i < |group.path| ==>
      && At(evaluate, Bind(group.path, fins)[i], 0.0) == place(group.path[i].start)
      && At(evaluate, Bind(group.path, fins)[i], 1.0) == place(group.path[i].end)
    ensures PathJoins(evaluate, group.kind, Bind(group.path, fins), tolerance)
  {
    hide Apart, OnCurves, Between, EdgesListed;
    var edges := Bind(group.path, fins);
    forall i | 0 <= i < |group.path|
      ensures EdgeEvaluates(evaluate, edges[i])
      ensures At(evaluate, edges[i], 0.0) == place(group.path[i].start)
      ensures At(evaluate, edges[i], 1.0) == place(group.path[i].end)
    {
      assert StepBinds(group, fins, i);
      UseEnds(evaluate, curve, edges[i]);
    }
    forall i | 0 <= i < |edges|
      ensures StepJoins(evaluate, edges, tolerance, i)
    {
      if i > 0 {
        assert StepBinds(group, fins, i);
        NotApart(place(group.path[i].start), tolerance);
      }
    }
    NotApart(place(group.path[0].start), tolerance);
  }

  lemma NotApart(a: Vector3, tolerance: real)
    ensures !Apart(a, a, tolerance)
  {
    assert Square(0.0) == 0.0;
    SquareSize(tolerance);
  }

  lemma SquareSize(x: real)
    ensures Square(x) >= 0.0
  {
  }
}
