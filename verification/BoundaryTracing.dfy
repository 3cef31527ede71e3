// TraceBoundaryPath: walking one group, and why no failure exit is reachable.
module BoundaryTracing {
  import opened Results
  import opened BoundaryGraph
  import opened BoundaryGroups
  import opened Sorting

  datatype BoundaryVertex = BoundaryVertex(first: nat, degree: nat, second: nat)

  type VertexMap = map<nat, BoundaryVertex>

  // Every recorded edge index exists.
  predicate IndicesInRange(vertices: VertexMap, count: nat) {
    forall v :: v in vertices ==> vertices[v].first < count && vertices[v].second < count
  }

  // The edge to leave `current` by; None is the failure exit.
  function ChooseIndex(vertices: VertexMap, chain: bool, first: nat, current: nat, visited: set<int>, step: nat): Option<nat> {
    if step != 0 || chain then
      if current !in vertices then None
      else if vertices[current].first !in visited then Some(vertices[current].first)
      else if vertices[current].degree != 2 then None
      else Some(vertices[current].second)
    else Some(first)
  }

  datatype Traced = Traced(path: seq<PathEdge>, end: nat)

  // The steps from `step` on, and the vertex they end at.
  function TraceSteps(edges: seq<BoundaryEdge>, vertices: VertexMap, chain: bool, first: nat, current: nat,
                      visited: set<int>, step: nat, total: nat): (r: Option<Traced>)
    requires first < |edges| && IndicesInRange(vertices, |edges|)
    decreases total - step
  {
    if step >= total then Some(Traced([], current))
    else
      match ChooseIndex(vertices, chain, first, current, visited, step)
      case None => None
      case Some(index) =>
        if index >= |edges| || index in visited || !Meets(edges[index], current) then None
        else
          var s := StepFrom(edges[index], current);
          match TraceSteps(edges, vertices, chain, first, s.end, visited + {index}, step + 1, total)
          case None => None
          case Some(rest) => Some(Traced([s] + rest.path, rest.end))
  }

  function StartVertex(group: BoundaryGroup, edge: BoundaryEdge): nat
    requires group.kind == Chain ==> |group.endVertices| == 2
  {
    if group.kind == Chain then group.endVertices[0] else Smaller(edge.start, edge.end)
  }

  function Trace(group: BoundaryGroup, edges: seq<BoundaryEdge>, indices: map<nat, nat>, vertices: VertexMap):
    Result<seq<PathEdge>>
    requires IndicesInRange(vertices, |edges|) && forall id :: id in indices ==> indices[id] < |edges|
  {
    if group.kind == Branched then Ok([])
    else if group.edges == [] || (group.kind == Chain && |group.endVertices| != 2) || group.edges[0] !in indices
    then Err(InvalidRecord)
    else
      var first := indices[group.edges[0]];
      var start := StartVertex(group, edges[first]);
      match TraceSteps(edges, vertices, group.kind == Chain, first, start, {}, 0, |group.edges|)
      case None => Err(InvalidRecord)
      case Some(traced) =>
        if traced.end != (if group.kind == Chain then group.endVertices[1] else start) then Err(InvalidRecord)
        else Ok(traced.path)
  }

  method TraceBoundaryPath(group: BoundaryGroup, edges: seq<BoundaryEdge>, indices: map<nat, nat>, vertices: VertexMap)
    returns (r: Result<seq<PathEdge>>)
    requires IndicesInRange(vertices, |edges|) && forall id :: id in indices ==> indices[id] < |edges|
    ensures r == Trace(group, edges, indices, vertices)
  {
    var path := [];
    if group.kind == Branched {
      return Ok(path);
    }
    if group.edges == [] || (group.kind == Chain && |group.endVertices| != 2) {
      return Err(InvalidRecord);
    }
    if group.edges[0] !in indices {
      return Err(InvalidRecord);
    }
    var first := indices[group.edges[0]];
    var current: nat := if group.kind == Chain then group.endVertices[0]
                   else Smaller(edges[first].start, edges[first].end);
    var start := current;
    var visited: set<int> := {};
    ghost var whole := TraceSteps(edges, vertices, group.kind == Chain, first, start, {}, 0, |group.edges|);
    PrependNothing(whole);
    for step := 0 to |group.edges|
      invariant whole == Prepend(path, TraceSteps(edges, vertices, group.kind == Chain, first, current, visited,
                                                  step, |group.edges|))
    {
      var index := first;
      if step != 0 || group.kind == Chain {
        if current !in vertices {
          return Err(InvalidRecord);
        }
        index := vertices[current].first;
        if index in visited {
          if vertices[current].degree != 2 {
            return Err(InvalidRecord);
          }
          index := vertices[current].second;
        }
      }
      if index in visited {
        return Err(InvalidRecord);
      }
      visited := visited + {index};
      var edge := edges[index];
      var forward := current == edge.start;
      if !forward && current != edge.end {
        return Err(InvalidRecord);
      }
      var next := if forward then edge.end else edge.start;
      PrependStep(path, StepFrom(edge, current),
                  TraceSteps(edges, vertices, group.kind == Chain, first, next, visited, step + 1, |group.edges|));
      path := path + [PathEdge(edge.edge, edge.fin, current, next, if forward then Forward else Reverse)];
      current := next;
    }
    assert path + [] == path;
    var target := if group.kind == Chain then group.endVertices[1] else start;
    if current != target {
      return Err(InvalidRecord);
    }
    return Ok(path);
  }

  function Prepend(path: seq<PathEdge>, rest: Option<Traced>): Option<Traced> {
    match rest
    case None => None
    case Some(t) => Some(Traced(path + t.path, t.end))
  }

  lemma PrependNothing(rest: Option<Traced>)
    ensures Prepend([], rest) == rest
  {
    match rest
    case None =>
    case Some(t) => assert [] + t.path == t.path;
  }

  lemma PrependStep(path: seq<PathEdge>, s: PathEdge, rest: Option<Traced>)
    ensures Prepend(path + [s], rest) == Prepend(path, Prepend([s], rest))
  {
    match rest
    case None =>
    case Some(t) => assert path + [s] + t.path == path + ([s] + t.path);
  }

  // ---------------------------------------------------------------- tracing succeeds

  // The table entry of vertex v describes its degree and halves in g.
  ghost predicate VertexInfo(g: Edges, edges: seq<BoundaryEdge>, v: nat, info: BoundaryVertex) {
    && info.first < |edges| && info.second < |edges|
    && info.degree == Degree(g, v)
    && edges[info.first] in g && Meets(edges[info.first], v)
    && (info.degree == 2 ==>
          exists a, b :: HalvesAt(g, v) == {Half(edges[info.first], a), Half(edges[info.second], b)})
  }

  ghost predicate Tables(g: Edges, edges: seq<BoundaryEdge>, vertices: VertexMap) {
    && IndicesInRange(vertices, |edges|) && Distinct(edges) && g <= Elements(edges)
    && forall v :: v in VerticesOf(g) ==> v in vertices && VertexInfo(g, edges, v, vertices[v])
  }

  ghost predicate VisitedIs(edges: seq<BoundaryEdge>, visited: set<int>, w: seq<BoundaryEdge>) {
    forall i :: 0 <= i < |edges| ==> (i in visited <==> edges[i] in Elements(w))
  }

  lemma MetVertex(g: Edges, e: BoundaryEdge, v: nat)
    requires HasVertices(g) && e in g && Meets(e, v)
    ensures v in VerticesOf(g)
  {
  }

  // Exactly one of the two edges at the current vertex is unvisited.
  lemma UnvisitedEdge(g: Edges, edges: seq<BoundaryEdge>, v: nat, info: BoundaryVertex, s: Edges)
    requires VertexInfo(g, edges, v, info) && info.degree == 2 && s <= g && Degree(s, v) == 1
    ensures edges[info.second] in g && Meets(edges[info.second], v)
    ensures edges[info.first] in s ==> edges[info.second] !in s
  {
    var a, b :| HalvesAt(g, v) == {Half(edges[info.first], a), Half(edges[info.second], b)};
    assert Half(edges[info.second], b) in HalvesAt(g, v);
    assert Half(edges[info.first], a) in HalvesAt(g, v);
    if edges[info.first] in s && edges[info.second] in s {
      BothHalves(g, s, edges[info.first], a, edges[info.second], b, v);
    }
  }

  lemma BothHalves(g: Edges, s: Edges, e: BoundaryEdge, a: bool, f: BoundaryEdge, b: bool, v: nat)
    requires HalvesAt(g, v) == {Half(e, a), Half(f, b)} && e in s && f in s
    ensures Degree(s, v) >= Degree(g, v)
  {
    assert Half(e, a) in HalvesAt(g, v) && Half(f, b) in HalvesAt(g, v);
    SubsetSize(HalvesAt(g, v), HalvesAt(s, v));
  }

  // The situation before one step of the trace.
  ghost predicate Tracing(g: Edges, edges: seq<BoundaryEdge>, vertices: VertexMap, chain: bool, first: nat,
                          w: seq<BoundaryEdge>, v: nat, visited: set<int>) {
    && ConnectedGroup(g) && Unbranched(g) && Tables(g, edges, vertices)
    && (if chain then Degree(g, v) == 1 && v in VerticesOf(g) else NoEnds(g))
    && Trail(w, v, g) && VisitedIs(edges, visited, w)
    && first < |edges| && edges[first] in g
    && (w == [] && !chain ==> Meets(edges[first], v))
  }

  lemma ChosenEdge(g: Edges, edges: seq<BoundaryEdge>, vertices: VertexMap, chain: bool, first: nat,
                   w: seq<BoundaryEdge>, v: nat, visited: set<int>) returns (index: nat)
    requires Tracing(g, edges, vertices, chain, first, w, v, visited) && Elements(w) != g
    ensures ChooseIndex(vertices, chain, first, WalkEnd(w, v), visited, |w|) == Some(index)
    ensures index < |edges| && index !in visited && edges[index] in g && edges[index] !in Elements(w)
    ensures Meets(edges[index], WalkEnd(w, v))
    ensures w == [] && !chain ==> index == first
  {
    var c := WalkEnd(w, v);
    if w == [] {
      index := if chain then vertices[v].first else first;
      if chain {
        assert VertexInfo(g, edges, v, vertices[v]);
      }
    } else {
      Progress(g, w, v);
      StartTouched(w, v, g);
      var e :| e in Elements(w) && Meets(e, c);
      MetVertex(g, e, c);
      var info := vertices[c];
      assert VertexInfo(g, edges, c, info);
      UnvisitedEdge(g, edges, c, info, Elements(w));
      index := if info.first in visited then info.second else info.first;
    }
  }

  lemma PathOfStep(w: seq<BoundaryEdge>, v: nat, k: nat)
    requires k < |w|
    ensures PathOf(w, v)[k] == StepFrom(w[k], WalkEnd(w[..k], v))
    decreases |w|
  {
    if k < |w| - 1 {
      PathOfStep(w[..|w| - 1], v, k);
      assert w[..|w| - 1][..k] == w[..k];
    }
  }

  lemma VisitedExtended(edges: seq<BoundaryEdge>, visited: set<int>, w: seq<BoundaryEdge>, index: nat)
    requires VisitedIs(edges, visited, w) && Distinct(edges) && index < |edges|
    ensures VisitedIs(edges, visited + {index}, w + [edges[index]])
  {
    assert forall x :: x in w + [edges[index]] <==> x in w || x == edges[index];
  }

  lemma TracingStep(g: Edges, edges: seq<BoundaryEdge>, vertices: VertexMap, chain: bool, first: nat,
                    w: seq<BoundaryEdge>, v: nat, visited: set<int>, index: nat)
    requires Tracing(g, edges, vertices, chain, first, w, v, visited)
    requires index < |edges| && edges[index] in g && edges[index] !in Elements(w) && Meets(edges[index], WalkEnd(w, v))
    ensures Tracing(g, edges, vertices, chain, first, w + [edges[index]], v, visited + {index})
  {
    TrailExtended(w, edges[index], v, g);
    VisitedExtended(edges, visited, w, index);
    hide ConnectedGroup, Unbranched, Tables, Trail, VisitedIs, NoEnds, Degree;
  }

  lemma TraceUnfolds(edges: seq<BoundaryEdge>, vertices: VertexMap, chain: bool, first: nat, current: nat,
                     visited: set<int>, step: nat, total: nat, index: nat, rest: Traced)
    requires first < |edges| && IndicesInRange(vertices, |edges|) && step < total
    requires ChooseIndex(vertices, chain, first, current, visited, step) == Some(index)
    requires index < |edges| && index !in visited && Meets(edges[index], current)
    requires TraceSteps(edges, vertices, chain, first, Other(edges[index], current), visited + {index}, step + 1, total)
          == Some(rest)
    ensures TraceSteps(edges, vertices, chain, first, current, visited, step, total)
         == Some(Traced([StepFrom(edges[index], current)] + rest.path, rest.end))
  {
  }

  // The rest of the trace completes a full trail.
  lemma {:induction false} TraceCompletes(g: Edges, edges: seq<BoundaryEdge>, vertices: VertexMap, chain: bool,
                                          first: nat, w: seq<BoundaryEdge>, v: nat, visited: set<int>)
    returns (full: seq<BoundaryEdge>)
    requires Tracing(g, edges, vertices, chain, first, w, v, visited) && IndicesInRange(vertices, |edges|)
    ensures Trail(full, v, g) && Elements(full) == g && |w| <= |full| == |g| && full[..|w|] == w
    ensures TraceSteps(edges, vertices, chain, first, WalkEnd(w, v), visited, |w|, |g|)
         == Some(Traced(PathOf(full, v)[|w|..], WalkEnd(full, v)))
    ensures w == [] && !chain && g != {} ==> full != [] && full[0] == edges[first]
    decreases |g| - |w|
  {
    hide IndicesInRange, TraceSteps, Tracing, Degree, ChooseIndex, PathOf, StepFrom, WalkEnd, Other, Meets, Distinct;
    TracingLength(g, edges, vertices, chain, first, w, v, visited);
    if |w| == |g| {
      full := w;
      assert full[..|w|] == w && PathOf(full, v)[|w|..] == [];
      TraceStops(edges, vertices, chain, first, WalkEnd(w, v), visited, |w|);
    } else {
      var index := ChosenEdge(g, edges, vertices, chain, first, w, v, visited);
      var e := edges[index];
      TracingStep(g, edges, vertices, chain, first, w, v, visited, index);
      Extended(w, e, v);
      full := TraceCompletes(g, edges, vertices, chain, first, w + [e], v, visited + {index});
      assert full[|w|] == (w + [e])[|w|] == e;
      assert full[..|w|] == w;
      PathOfStep(full, v, |w|);
      assert PathOf(full, v)[|w|..] == [StepFrom(e, WalkEnd(w, v))] + PathOf(full, v)[|w| + 1..];
      TraceUnfolds(edges, vertices, chain, first, WalkEnd(w, v), visited, |w|, |g|, index,
                   Traced(PathOf(full, v)[|w| + 1..], WalkEnd(full, v)));
    }
  }

  lemma TracingLength(g: Edges, edges: seq<BoundaryEdge>, vertices: VertexMap, chain: bool, first: nat,
                      w: seq<BoundaryEdge>, v: nat, visited: set<int>)
    requires Tracing(g, edges, vertices, chain, first, w, v, visited)
    ensures first < |edges| && IndicesInRange(vertices, |edges|) && Trail(w, v, g)
    ensures |w| <= |g| && (|w| == |g| <==> Elements(w) == g)
  {
    TrailLength(w, v, g);
    SubsetSize(Elements(w), g);
  }

  lemma TraceStops(edges: seq<BoundaryEdge>, vertices: VertexMap, chain: bool, first: nat, current: nat,
                   visited: set<int>, total: nat)
    requires first < |edges| && IndicesInRange(vertices, |edges|)
    ensures TraceSteps(edges, vertices, chain, first, current, visited, total, total) == Some(Traced([], current))
  {
  }

  // ---------------------------------------------------------------- whole groups

  lemma IdCount(g: Edges)
    requires DistinctIds(g)
    ensures |Ids(g)| == |g|
    decreases |g|
  {
    if g == {} {
      assert Ids(g) == {};
    } else {
      var e :| e in g;
      IdCount(g - {e});
      assert Ids(g) == Ids(g - {e}) + {e.edge};
      assert g == g - {e} + {e};
    }
  }

  lemma AscendingLength(s: seq<nat>)
    requires Ascending(s)
    ensures |Elements(s)| == |s|
  {
    DistinctSize(s);
  }

  // The index table leads from the smallest ID to its edge.
  ghost predicate FirstEdge(g: Edges, edges: seq<BoundaryEdge>, group: BoundaryGroup, indices: map<nat, nat>) {
    && group.edges != [] && group.edges[0] in indices && indices[group.edges[0]] < |edges|
    && edges[indices[group.edges[0]]] in g && edges[indices[group.edges[0]]].edge == group.edges[0]
  }

  lemma SmallestFirst(g: Edges, group: BoundaryGroup, e: BoundaryEdge)
    requires Members(g, group) && e in g && group.edges != []
    ensures group.edges[0] <= e.edge
  {
    assert e.edge in Elements(group.edges);
    var k :| 0 <= k < |group.edges| && group.edges[k] == e.edge;
  }

  // The two ends, in ascending order, are all ends.
  lemma ChainEnds(g: Edges, group: BoundaryGroup)
    requires ConnectedGroup(g) && Unbranched(g) && Members(g, group) && group.kind == Chain
    ensures |group.endVertices| == 2 && group.endVertices[0] < group.endVertices[1]
    ensures EndsOf(g) == {group.endVertices[0], group.endVertices[1]}
  {
    var v :| v in EndsOf(g);
    var other := TwoEnds(g, v);
    DegreeOneInVertices(g, other);
    assert EndsOf(g) == {v, other};
    AscendingLength(group.endVertices);
    assert |{v, other}| == 2;
    assert group.endVertices[0] in Elements(group.endVertices) && group.endVertices[1] in Elements(group.endVertices);
  }

  lemma DegreeOneInVertices(g: Edges, v: nat)
    requires HasVertices(g) && Degree(g, v) == 1
    ensures v in VerticesOf(g)
  {
    var h :| h in HalvesAt(g, v);
    assert Meets(h.edge, v);
  }

  // No failure exit of the trace is reachable: an unbranched group is covered
  // by its canonical walk.
  lemma TraceSucceeds(g: Edges, edges: seq<BoundaryEdge>, indices: map<nat, nat>, vertices: VertexMap, group: BoundaryGroup)
    requires SoundGroup(g) && DistinctIds(g) && Members(g, group)
    requires Tables(g, edges, vertices) && FirstEdge(g, edges, group, indices)
    requires forall id :: id in indices ==> indices[id] < |edges|
    ensures Trace(group, edges, indices, vertices).Ok?
    ensures CanonicalPath(g, Trace(group, edges, indices, vertices).value)
  {
    if group.kind != Branched {
      SoundUnbranched(g);
      IdCount(g);
      AscendingLength(group.edges);
      var first := indices[group.edges[0]];
      var e := edges[first];
      if e.start == 0 || e.end == 0 {
        RingTrace(g, edges, indices, vertices, group);
      } else {
        ConnectedTrace(g, edges, indices, vertices, group);
      }
    }
  }

  lemma RingTrace(g: Edges, edges: seq<BoundaryEdge>, indices: map<nat, nat>, vertices: VertexMap, group: BoundaryGroup)
    requires SoundGroup(g) && Members(g, group) && |group.edges| == |g|
    requires IndicesInRange(vertices, |edges|) && FirstEdge(g, edges, group, indices)
    requires forall id :: id in indices ==> indices[id] < |edges|
    requires var e := edges[indices[group.edges[0]]]; e.start == 0 || e.end == 0
    ensures Trace(group, edges, indices, vertices).Ok?
    ensures CanonicalPath(g, Trace(group, edges, indices, vertices).value)
  {
    var first := indices[group.edges[0]];
    var e := edges[first];
    assert g == {e} && e.start == 0 && e.end == 0;
    RingDegree(e);
    var w := [] + [e];
    Extended([], e, 0);
    assert Elements(w) == {e};
    assert PathOf(w, 0) == [StepFrom(e, 0)];
    assert TraceSteps(edges, vertices, false, first, 0, {} + {first}, 1, 1) == Some(Traced([], 0));
    TraceUnfolds(edges, vertices, false, first, 0, {}, 0, 1, first, Traced([], 0));
    assert CanonicalWalk(g, w, 0);
  }

  lemma ConnectedTrace(g: Edges, edges: seq<BoundaryEdge>, indices: map<nat, nat>, vertices: VertexMap, group: BoundaryGroup)
    requires SoundGroup(g) && DistinctIds(g) && Members(g, group) && |group.edges| == |g| && group.kind != Branched
    requires Tables(g, edges, vertices) && FirstEdge(g, edges, group, indices)
    requires forall id :: id in indices ==> indices[id] < |edges|
    requires Unbranched(g) && (group.kind == Cycle ==> NoEnds(g))
    requires var e := edges[indices[group.edges[0]]]; e.start != 0 && e.end != 0
    ensures Trace(group, edges, indices, vertices).Ok?
    ensures CanonicalPath(g, Trace(group, edges, indices, vertices).value)
  {
    hide Degree, HalvesAt, TraceSteps, VertexInfo, PathOf, WalkEnd, IsWalk, Tables, Unbranched, NoEnds, IndicesInRange;
    var first, chain := indices[group.edges[0]], group.kind == Chain;
    if chain {
      ChainEnds(g, group);
      assert group.endVertices[0] in EndsOf(g);
    }
    var v := StartVertex(group, edges[first]);
    TracingStart(g, edges, vertices, chain, first, v);
    var full := TraceCompletes(g, edges, vertices, chain, first, [], v, {});
    assert PathOf(full, v)[0..] == PathOf(full, v);
    Finished(g, full, v);
    if chain {
      DegreeOneInVertices(g, WalkEnd(full, v));
      assert WalkEnd(full, v) in EndsOf(g);
    } else {
      forall x | x in g
        ensures full[0].edge <= x.edge
      {
        SmallestFirst(g, group, x);
      }
    }
    assert CanonicalWalk(g, full, v);
  }

  lemma TracingStart(g: Edges, edges: seq<BoundaryEdge>, vertices: VertexMap, chain: bool, first: nat, v: nat)
    requires ConnectedGroup(g) && Unbranched(g) && Tables(g, edges, vertices)
    requires if chain then Degree(g, v) == 1 && v in VerticesOf(g) else NoEnds(g)
    requires first < |edges| && edges[first] in g && (!chain ==> Meets(edges[first], v))
    ensures Tracing(g, edges, vertices, chain, first, [], v, {})
    ensures WalkEnd([], v) == v && IndicesInRange(vertices, |edges|) && GoodStart(g, v)
  {
    hide Degree, VertexInfo, Unbranched, NoEnds, IndicesInRange;
    assert Elements<BoundaryEdge>([]) == {};
  }

  // ---------------------------------------------------------------- where a path starts

  lemma PathEnds(w: seq<BoundaryEdge>, v: nat)
    requires w != []
    ensures PathOf(w, v)[0] == StepFrom(w[0], v) && PathOf(w, v)[|w| - 1].end == WalkEnd(w, v)
  {
    PathOfStep(w, v, 0);
    PathOfStep(w, v, |w| - 1);
    assert w[..0] == [];
  }

  // On the group itself: a chain runs from its smaller end vertex to its larger
  // one, a cycle from the smaller vertex of its first edge back to it.
  lemma PathStarts(g: Edges, group: BoundaryGroup)
    requires IsGroup(g, group) && group.kind != Branched
    ensures var path := group.path;
      && path != [] && group.edges != []
      && (group.kind == Chain ==>
            && |group.endVertices| == 2 && group.endVertices[0] < group.endVertices[1]
            && path[0].start == group.endVertices[0] && path[|path| - 1].end == group.endVertices[1])
      && (group.kind == Cycle ==>
            && path[0].edge == group.edges[0] && path[0].start <= path[0].end
            && path[|path| - 1].end == path[0].start)
  {
    hide Trail, KindOf, EndsOf, BranchesOf, VerticesOf, PathOf;
    var w, v :| CanonicalWalk(g, w, v) && group.path == PathOf(w, v);
    PathEnds(w, v);
    FirstInGroup(g, group, w[0]);
    if group.kind == Chain {
      SortedPair(group.endVertices, v, WalkEnd(w, v));
    } else {
      SmallestEdge(g, group, w[0]);
    }
  }

  lemma FirstInGroup(g: Edges, group: BoundaryGroup, e: BoundaryEdge)
    requires Members(g, group) && Elements(group.edges) == Ids(g) && e in g
    ensures group.edges != []
  {
    assert e.edge in Ids(g);
    assert e.edge in Elements(group.edges);
  }

  lemma SortedPair(ends: seq<nat>, v: nat, u: nat)
    requires Ascending(ends) && Elements(ends) == {v, u} && v < u
    ensures ends == [v, u]
  {
    assert Ascending([v, u]) && Elements([v, u]) == {v, u};
    AscendingUnique(ends, [v, u]);
  }

  lemma SmallestEdge(g: Edges, group: BoundaryGroup, e: BoundaryEdge)
    requires Members(g, group) && group.edges != [] && e in g && forall f :: f in g ==> e.edge <= f.edge
    ensures group.edges[0] == e.edge
  {
    assert e.edge in Ids(g);
    assert e.edge in Elements(group.edges);
    var k :| 0 <= k < |group.edges| && group.edges[k] == e.edge;
    assert group.edges[0] in Elements(group.edges);
    var f :| f in g && f.edge == group.edges[0];
  }
}
