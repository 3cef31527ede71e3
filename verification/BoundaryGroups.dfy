// What GroupBoundaryEdges promises, stated on the set of boundary edges alone.
module BoundaryGroups {
  import opened Components
  import opened BoundaryGraph
  import opened Sorting

  datatype GroupKind = Cycle | Chain | Branched

  datatype BoundaryGroup = BoundaryGroup(
    kind: GroupKind,
    edges: seq<nat>,
    vertices: seq<nat>,
    endVertices: seq<nat>,
    branchVertices: seq<nat>,
    path: seq<PathEdge>)

  ghost predicate DistinctIds(g: Edges) {
    forall e, f :: e in g && f in g && e.edge == f.edge ==> e == f
  }

  predicate EndpointsPaired(g: Edges) {
    forall e :: e in g ==> (e.start == 0 <==> e.end == 0)
  }

  // (edge ID, vertex ID) incidences; ID zero is no vertex.
  function IdTouches(g: Edges): Touches {
    set e, v | e in g && v in {e.start, e.end} && v != 0 :: (e.edge, v)
  }

  // The edges connected to edge `id` through shared vertices.
  ghost function GroupOf(g: Edges, id: nat): Edges {
    set e | e in g && Connected(IdTouches(g), e.edge, id)
  }

  function Ids(g: Edges): set<nat> {
    set e | e in g :: e.edge
  }

  function VerticesOf(g: Edges): set<nat> {
    (set e | e in g :: e.start) + (set e | e in g :: e.end) - {0}
  }

  function EndsOf(g: Edges): set<nat> {
    set v | v in VerticesOf(g) && Degree(g, v) == 1
  }

  function BranchesOf(g: Edges): set<nat> {
    set v | v in VerticesOf(g) && Degree(g, v) > 2
  }

  function KindOf(g: Edges): GroupKind {
    if BranchesOf(g) != {} then Branched else if EndsOf(g) != {} then Chain else Cycle
  }

  function Smaller(a: nat, b: nat): nat {
    if b < a then b else a
  }

  // Chains start at their smaller end; cycles with their smallest edge ID, from
  // that edge's smaller vertex.
  ghost predicate CanonicalWalk(g: Edges, w: seq<BoundaryEdge>, v: nat) {
    && w != [] && Trail(w, v, g) && Elements(w) == g
    && if KindOf(g) == Chain
       then EndsOf(g) == {v, WalkEnd(w, v)} && v < WalkEnd(w, v)
       else && (forall e :: e in g ==> w[0].edge <= e.edge)
            && v == Smaller(w[0].start, w[0].end) && WalkEnd(w, v) == v
  }

  ghost predicate CanonicalPath(g: Edges, path: seq<PathEdge>) {
    if KindOf(g) == Branched then path == []
    else exists w, v :: CanonicalWalk(g, w, v) && path == PathOf(w, v)
  }

  ghost predicate Members(g: Edges, group: BoundaryGroup) {
    && group.kind == KindOf(g)
    && Ascending(group.edges) && Elements(group.edges) == Ids(g)
    && Ascending(group.vertices) && Elements(group.vertices) == VerticesOf(g)
    && Ascending(group.endVertices) && Elements(group.endVertices) == EndsOf(g)
    && Ascending(group.branchVertices) && Elements(group.branchVertices) == BranchesOf(g)
  }

  ghost predicate IsGroup(g: Edges, group: BoundaryGroup) {
    Members(g, group) && CanonicalPath(g, group.path)
  }

  function Front(group: BoundaryGroup): nat {
    if group.edges == [] then 0 else group.edges[0]
  }

  ghost predicate GroupAt(g: Edges, group: BoundaryGroup) {
    group.edges != [] && Front(group) in Ids(g) && IsGroup(GroupOf(g, Front(group)), group)
  }

  // The whole result: one group per component, ordered by smallest edge ID.
  ghost predicate IsGrouping(g: Edges, groups: seq<BoundaryGroup>) {
    && (forall k :: 0 <= k < |groups| ==> GroupAt(g, groups[k]))
    && (forall i, j :: 0 <= i < j < |groups| ==> Front(groups[i]) < Front(groups[j]))
    && (forall e :: e in g ==> exists k :: 0 <= k < |groups| && e.edge in groups[k].edges)
  }

  // ---------------------------------------------------------------- components

  lemma SharedVertexAdjacent(g: Edges, e: BoundaryEdge, f: BoundaryEdge, v: nat)
    requires e in g && f in g && v != 0 && Meets(e, v) && Meets(f, v)
    ensures Adjacent(IdTouches(g), e.edge, f.edge)
  {
    assert (e.edge, v) in IdTouches(g) && (f.edge, v) in IdTouches(g);
  }

  lemma GroupContains(g: Edges, e: BoundaryEdge)
    requires e in g
    ensures e in GroupOf(g, e.edge)
  {
    ConnectedReflexive(IdTouches(g), e.edge);
  }

  // Groups of connected IDs coincide.
  lemma SameGroup(g: Edges, a: nat, b: nat)
    requires Connected(IdTouches(g), a, b)
    ensures GroupOf(g, a) == GroupOf(g, b)
  {
    var t := IdTouches(g);
    ConnectedSymmetric(t, a, b);
    forall e | e in g
      ensures Connected(t, e.edge, a) <==> Connected(t, e.edge, b)
    {
      if Connected(t, e.edge, a) {
        ConnectedTransitive(t, e.edge, a, b);
      }
      if Connected(t, e.edge, b) {
        ConnectedTransitive(t, e.edge, b, a);
      }
    }
  }

  // An edge without vertices is a group of its own.
  lemma RingGroup(g: Edges, e: BoundaryEdge)
    requires e in g && DistinctIds(g) && e.start == 0 && e.end == 0
    ensures GroupOf(g, e.edge) == {e}
  {
    GroupContains(g, e);
    var t := IdTouches(g);
    forall key
      ensures (e.edge, key) !in t
    {
    }
    forall f | f in GroupOf(g, e.edge)
      ensures f == e
    {
      ConnectedSymmetric(t, f.edge, e.edge);
      var c :| ChainFrom(t, c, e.edge, f.edge);
      IsolatedChain(t, c);
    }
  }

  lemma IsolatedChain(t: Touches, c: seq<nat>)
    requires Components.Chain(t, c)
    ensures |c| > 1 ==> exists key :: (c[0], key) in t
  {
    if |c| > 1 {
      assert Adjacent(t, c[0], c[1]);
    }
  }

  lemma GroupHasVertices(g: Edges, e: BoundaryEdge)
    requires e in g && DistinctIds(g) && EndpointsPaired(g) && e.start != 0
    ensures HasVertices(GroupOf(g, e.edge))
  {
    forall f | f in GroupOf(g, e.edge)
      ensures f.start != 0 && f.end != 0
    {
      if f.start == 0 {
        ConnectedSymmetric(IdTouches(g), f.edge, e.edge);
        assert e in GroupOf(g, f.edge);
        RingGroup(g, f);
      }
    }
  }

  // The group of an edge with vertices is connected, and its vertices have the
  // same degree as in the whole set.
  lemma GroupConnected(g: Edges, e: BoundaryEdge)
    requires e in g && DistinctIds(g) && EndpointsPaired(g) && e.start != 0
    ensures ConnectedGroup(GroupOf(g, e.edge))
  {
    var group, t := GroupOf(g, e.edge), IdTouches(g);
    GroupHasVertices(g, e);
    forall s | s != {} && s <= group && Closed(group, s)
      ensures s == group
    {
      var x :| x in s;
      forall f | f in group
        ensures f in s
      {
        ConnectedSymmetric(t, f.edge, e.edge);
        ConnectedTransitive(t, x.edge, e.edge, f.edge);
        var c :| ChainFrom(t, c, x.edge, f.edge);
        IdsClosed(g, e, s);
        ClosedUnderChains(t, Ids(s), c);
        var y :| y in s && y.edge == f.edge;
        assert y == f;
      }
    }
  }

  lemma IdsClosed(g: Edges, e: BoundaryEdge, s: Edges)
    requires e in g && DistinctIds(g) && s <= GroupOf(g, e.edge) && Closed(GroupOf(g, e.edge), s)
    ensures forall i: nat, j: nat :: i in Ids(s) && Adjacent(IdTouches(g), i, j) ==> j in Ids(s)
  {
    var t := IdTouches(g);
    forall i: nat, j: nat | i in Ids(s) && Adjacent(t, i, j)
      ensures j in Ids(s)
    {
      var key :| (i, key) in t && (j, key) in t;
      var x :| x in s && x.edge == i;
      var x', v :| x' in g && v in {x'.start, x'.end} && v != 0 && (x'.edge, v) == (i, key);
      assert x' == x;
      var y, u :| y in g && u in {y.start, y.end} && u != 0 && (y.edge, u) == (j, key);
      SharedVertexAdjacent(g, y, x, key);
      AdjacentConnected(t, y.edge, x.edge);
      ConnectedTransitive(t, y.edge, x.edge, e.edge);
      assert y in GroupOf(g, e.edge) && Meets(x, key) && Meets(y, key);
    }
  }

  lemma GroupDegrees(g: Edges, id: nat, v: nat)
    requires v in VerticesOf(GroupOf(g, id))
    ensures Degree(GroupOf(g, id), v) == Degree(g, v)
  {
    var group, t := GroupOf(g, id), IdTouches(g);
    var e, u :| e in group && u in {e.start, e.end} && u != 0 && u == v;
    forall h | h in HalvesAt(g, v)
      ensures h in HalvesAt(group, v)
    {
      SharedVertexAdjacent(g, h.edge, e, v);
      AdjacentConnected(t, h.edge.edge, e.edge);
      ConnectedTransitive(t, h.edge.edge, e.edge, id);
    }
    assert HalvesAt(group, v) == HalvesAt(g, v);
  }

  // ---------------------------------------------------------------- one canonical path

  lemma ThreeHalves(g: Edges, s: Edges, e: BoundaryEdge, f: BoundaryEdge, v: nat)
    requires s <= g && e in g && f in g && e !in s && f !in s && e != f && Meets(e, v) && Meets(f, v)
    ensures Degree(g, v) >= Degree(s, v) + 2
  {
    DegreeAdded(s, e, v);
    DegreeAdded(s + {e}, f, v);
    DegreeMonotone(s + {e} + {f}, g, v);
  }

  lemma TrailTake(w: seq<BoundaryEdge>, v: nat, g: Edges, k: nat)
    requires Trail(w, v, g) && k <= |w|
    ensures Trail(w[..k], v, g)
    ensures k < |w| ==> w[k] in g && w[k] !in Elements(w[..k]) && Meets(w[k], WalkEnd(w[..k], v))
    decreases |w|
  {
    if k < |w| {
      TrailPrefix(w, v, g);
      TrailTake(w[..|w| - 1], v, g, k);
      assert w[..|w| - 1][..k] == w[..k];
      assert w[k] in w;
    } else {
      assert w[..k] == w;
    }
  }

  // Two full trails that start alike are the same.
  lemma {:induction false} SameTrail(g: Edges, w: seq<BoundaryEdge>, r: seq<BoundaryEdge>, v: nat, k: nat)
    requires Unbranched(g) && Trail(w, v, g) && Trail(r, v, g) && |w| == |r| && 1 <= k <= |w|
    requires w[0] == r[0]
    ensures w[..k] == r[..k]
  {
    if k > 1 {
      SameTrail(g, w, r, v, k - 1);
      var prefix := w[..k - 1];
      var c := WalkEnd(prefix, v);
      TrailTake(w, v, g, k - 1);
      TrailTake(r, v, g, k - 1);
      EndsHaveDegree(prefix, v, g);
      if w[k - 1] != r[k - 1] {
        ThreeHalves(g, Elements(prefix), w[k - 1], r[k - 1], c);
      }
      assert w[..k] == prefix + [w[k - 1]] && r[..k] == prefix + [r[k - 1]];
    }
  }

  lemma UnbranchedKind(g: Edges)
    requires HasVertices(g) && KindOf(g) != Branched
    ensures Unbranched(g)
    ensures KindOf(g) == Cycle ==> NoEnds(g)
  {
    forall e, v | e in g && Meets(e, v)
      ensures Degree(g, v) <= 2 && (KindOf(g) == Cycle ==> Degree(g, v) != 1)
    {
      assert v in VerticesOf(g);
    }
  }

  lemma RingDegree(e: BoundaryEdge)
    requires e.start == 0 && e.end == 0
    ensures Unbranched({e}) && NoEnds({e}) && KindOf({e}) == Cycle && VerticesOf({e}) == {}
  {
    DegreeAdded({}, e, 0);
    assert {} + {e} == {e};
    assert HalvesAt({}, 0) == {};
  }

  // A single ring, or a connected group with vertices.
  ghost predicate SoundGroup(g: Edges) {
    (exists e :: g == {e} && e.start == 0 && e.end == 0) || ConnectedGroup(g)
  }

  lemma SoundUnbranched(g: Edges)
    requires SoundGroup(g) && KindOf(g) != Branched
    ensures Unbranched(g)
    ensures KindOf(g) == Cycle ==> NoEnds(g)
  {
    if e :| g == {e} && e.start == 0 && e.end == 0 {
      RingDegree(e);
    } else {
      UnbranchedKind(g);
    }
  }

  lemma SameCanonicalWalk(g: Edges, w: seq<BoundaryEdge>, v: nat, r: seq<BoundaryEdge>, u: nat)
    requires SoundGroup(g) && DistinctIds(g) && KindOf(g) != Branched
    requires CanonicalWalk(g, w, v) && CanonicalWalk(g, r, u)
    ensures w == r && v == u
  {
    SoundUnbranched(g);
    TrailLength(w, v, g);
    TrailLength(r, u, g);
    TrailTake(w, v, g, 0);
    TrailTake(r, u, g, 0);
    if KindOf(g) == Chain {
      assert v in EndsOf(g) && u in EndsOf(g);
      assert v == u;
      if w[0] != r[0] {
        assert HalvesAt({}, v) == {};
        ThreeHalves(g, {}, w[0], r[0], v);
      }
    } else {
      assert w[0].edge == r[0].edge;
    }
    SameTrail(g, w, r, v, |w|);
    assert w[..|w|] == w && r[..|r|] == r;
  }

  lemma SameGroupResult(g: Edges, a: BoundaryGroup, b: BoundaryGroup)
    requires SoundGroup(g) && DistinctIds(g) && IsGroup(g, a) && IsGroup(g, b)
    ensures a == b
  {
    AscendingUnique(a.edges, b.edges);
    AscendingUnique(a.vertices, b.vertices);
    AscendingUnique(a.endVertices, b.endVertices);
    AscendingUnique(a.branchVertices, b.branchVertices);
    if KindOf(g) != Branched {
      var w, v :| CanonicalWalk(g, w, v) && a.path == PathOf(w, v);
      var r, u :| CanonicalWalk(g, r, u) && b.path == PathOf(r, u);
      SameCanonicalWalk(g, w, v, r, u);
    }
  }

  lemma GroupSound(g: Edges, e: BoundaryEdge)
    requires e in g && DistinctIds(g) && EndpointsPaired(g)
    ensures SoundGroup(GroupOf(g, e.edge)) && DistinctIds(GroupOf(g, e.edge))
  {
    if e.start == 0 {
      RingGroup(g, e);
    } else {
      GroupConnected(g, e);
    }
  }

  // Any group of one result also occurs in the other.
  lemma GroupFound(g: Edges, a: seq<BoundaryGroup>, b: seq<BoundaryGroup>, i: nat)
    requires DistinctIds(g) && EndpointsPaired(g) && IsGrouping(g, a) && IsGrouping(g, b) && i < |a|
    ensures a[i] in b
  {
    hide IsGroup, SoundGroup, DistinctIds, EndpointsPaired, GroupOf, IsGrouping, GroupAt;
    var e := FrontEdge(g, a, i);
    var k := GroupWith(g, b, e);
    SharedMember(g, b[k], e.edge);
    GroupSound(g, e);
    SameGroupResult(GroupOf(g, e.edge), a[i], b[k]);
  }

  lemma FrontEdge(g: Edges, groups: seq<BoundaryGroup>, i: nat) returns (e: BoundaryEdge)
    requires IsGrouping(g, groups) && i < |groups|
    ensures e in g && e.edge == Front(groups[i]) && IsGroup(GroupOf(g, e.edge), groups[i])
  {
    hide IsGroup;
    assert GroupAt(g, groups[i]);
    e :| e in g && e.edge == Front(groups[i]);
  }

  lemma GroupWith(g: Edges, groups: seq<BoundaryGroup>, e: BoundaryEdge) returns (k: nat)
    requires IsGrouping(g, groups) && e in g
    ensures k < |groups| && e.edge in groups[k].edges && GroupAt(g, groups[k])
    ensures IsGroup(GroupOf(g, Front(groups[k])), groups[k])
  {
    hide IsGroup;
    k :| 0 <= k < |groups| && e.edge in groups[k].edges;
    assert GroupAt(g, groups[k]);
  }

  lemma SharedMember(g: Edges, group: BoundaryGroup, id: nat)
    requires GroupAt(g, group) && id in group.edges
    ensures GroupOf(g, id) == GroupOf(g, Front(group))
  {
    hide Connected, CanonicalPath, KindOf;
    assert id in Elements(group.edges);
    var f :| f in GroupOf(g, Front(group)) && f.edge == id;
    SameGroup(g, id, Front(group));
  }

  lemma FrontsOrdered(groups: seq<BoundaryGroup>)
    requires forall i, j :: 0 <= i < j < |groups| ==> Front(groups[i]) < Front(groups[j])
    ensures OrderedBy(groups, Front) && KeysDistinct(groups, Front)
  {
  }

  // The result depends on nothing but the set of edges.
  lemma GroupingUnique(g: Edges, a: seq<BoundaryGroup>, b: seq<BoundaryGroup>)
    requires DistinctIds(g) && EndpointsPaired(g) && IsGrouping(g, a) && IsGrouping(g, b)
    ensures a == b
  {
    hide GroupAt, DistinctIds, EndpointsPaired;
    FrontsOrdered(a);
    FrontsOrdered(b);
    forall x
      ensures x in a <==> x in b
    {
      if x in a {
        var i :| 0 <= i < |a| && a[i] == x;
        GroupFound(g, a, b, i);
      }
      if x in b {
        var i :| 0 <= i < |b| && b[i] == x;
        GroupFound(g, b, a, i);
      }
    }
    OrderUnique(a, b, Front);
  }
}
