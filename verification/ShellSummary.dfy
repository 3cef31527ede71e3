// What AnalyzeShellEdgeIncidence promises, stated on the set of faces alone.
module ShellSummary {
  import opened Components
  import opened BoundaryGraph
  import opened Sorting
  import opened BoundaryGroups
  import opened ShellUses

  datatype EdgeUseCount = EdgeUseCount(edge: nat, forward: nat, reverse: nat)

  datatype Component = Component(
    faces: seq<nat>,
    edges: seq<nat>,
    faceFins: nat,
    isolatedLoops: nat,
    boundaryEdges: nat,
    pairedEdges: nat,
    higherValenceEdges: nat,
    boundaryGroups: seq<BoundaryGroup>,
    boundaryCycles: nat,
    boundaryChains: nat,
    branchedBoundaries: nat)

  datatype Incidence = Incidence(
    shell: nat,
    edges: seq<EdgeUseCount>,
    components: seq<Component>,
    faceComponents: nat,
    faceFins: nat,
    isolatedLoops: nat,
    boundaryEdges: nat,
    pairedEdges: nat,
    higherValenceEdges: nat,
    boundaryCycles: nat,
    boundaryChains: nat,
    branchedBoundaries: nat)

  // (face ID, edge ID) incidences.
  function FaceEdgeTouches(uses: set<Use>): Touches {
    set u | u in uses :: (u.face, u.fin.edge)
  }

  // The faces connected to face `id` through shared edge IDs.
  ghost function ComponentOf(faces: set<Face>, id: nat): set<nat> {
    set f | f in FaceIds(faces) && Connected(FaceEdgeTouches(UsesOf(faces)), f, id)
  }

  function Valence(uses: set<Use>, e: nat): nat {
    |EdgeUses(uses, e)|
  }

  function BoundaryIds(uses: set<Use>, edges: set<nat>): set<nat> {
    set e | e in edges && Valence(uses, e) == 1
  }

  function PairedIds(uses: set<Use>, edges: set<nat>): set<nat> {
    set e | e in edges && Valence(uses, e) == 2
  }

  function HigherIds(uses: set<Use>, edges: set<nat>): set<nat> {
    set e | e in edges && Valence(uses, e) > 2
  }

  // A use seen along its edge's natural direction.
  function BoundaryEdgeOf(fin: Fin): BoundaryEdge {
    if fin.sense == Forward then BoundaryEdge(fin.edge, fin.fin, fin.start, fin.end)
    else BoundaryEdge(fin.edge, fin.fin, fin.end, fin.start)
  }

  function BoundarySet(uses: set<Use>, edges: set<nat>): Edges {
    set u | u in uses && u.fin.edge in edges && Valence(uses, u.fin.edge) == 1 :: BoundaryEdgeOf(u.fin)
  }

  function KindCount(groups: seq<BoundaryGroup>, kind: GroupKind): nat {
    if groups == [] then 0
    else KindCount(groups[..|groups| - 1], kind) + Count(groups[|groups| - 1].kind == kind)
  }

  ghost predicate IsComponent(faces: set<Face>, c: Component) {
    var uses, ids, edges := UsesOf(faces), Elements(c.faces), Elements(c.edges);
    && c.faces != [] && Ascending(c.faces) && c.faces[0] in FaceIds(faces) && ids == ComponentOf(faces, c.faces[0])
    && Ascending(c.edges) && edges == EdgesOf(UsesIn(uses, ids))
    && c.faceFins == |UsesIn(uses, ids)|
    && c.isolatedLoops == |LoopsIn(IsolatedOf(faces), ids)|
    && c.boundaryEdges == |BoundaryIds(uses, edges)|
    && c.pairedEdges == |PairedIds(uses, edges)|
    && c.higherValenceEdges == |HigherIds(uses, edges)|
    && IsGrouping(BoundarySet(uses, edges), c.boundaryGroups)
    && c.boundaryCycles == KindCount(c.boundaryGroups, Cycle)
    && c.boundaryChains == KindCount(c.boundaryGroups, Chain)
    && c.branchedBoundaries == KindCount(c.boundaryGroups, Branched)
  }

  function FrontFace(c: Component): nat {
    if c.faces == [] then 0 else c.faces[0]
  }

  function Total(components: seq<Component>, f: Component -> nat): nat {
    if components == [] then 0
    else Total(components[..|components| - 1], f) + f(components[|components| - 1])
  }

  function UseCounts(uses: set<Use>): set<EdgeUseCount> {
    set e | e in EdgesOf(uses) :: EdgeUseCount(e, |SenseUses(uses, e, Forward)|, |SenseUses(uses, e, Reverse)|)
  }

  function CountedEdge(c: EdgeUseCount): nat {
    c.edge
  }

  ghost predicate AreComponents(faces: set<Face>, components: seq<Component>) {
    && (forall k :: 0 <= k < |components| ==> IsComponent(faces, components[k]))
    && (forall i, j :: 0 <= i < j < |components| ==> FrontFace(components[i]) < FrontFace(components[j]))
    && (forall f :: f in FaceIds(faces) ==> exists k :: 0 <= k < |components| && f in components[k].faces)
  }

  // The whole result, in terms of the set of faces.
  ghost predicate IsIncidence(shell: nat, faces: set<Face>, r: Incidence) {
    var uses := UsesOf(faces);
    && r.shell == shell
    && (forall i, j :: 0 <= i < j < |r.edges| ==> r.edges[i].edge < r.edges[j].edge)
    && Elements(r.edges) == UseCounts(uses)
    && AreComponents(faces, r.components) && r.faceComponents == |r.components|
    && r.faceFins == |uses| && r.isolatedLoops == |IsolatedOf(faces)|
    && r.boundaryEdges == |BoundaryIds(uses, EdgesOf(uses))|
    && r.pairedEdges == |PairedIds(uses, EdgesOf(uses))|
    && r.higherValenceEdges == |HigherIds(uses, EdgesOf(uses))|
    && r.boundaryCycles == Total(r.components, (c: Component) => c.boundaryCycles)
    && r.boundaryChains == Total(r.components, (c: Component) => c.boundaryChains)
    && r.branchedBoundaries == Total(r.components, (c: Component) => c.branchedBoundaries)
  }

  // ---------------------------------------------------------------- one result

  lemma BoundaryDistinct(uses: set<Use>, edges: set<nat>)
    ensures DistinctIds(BoundarySet(uses, edges))
  {
    forall e, f | e in BoundarySet(uses, edges) && f in BoundarySet(uses, edges) && e.edge == f.edge
      ensures e == f
    {
      var u :| u in uses && Valence(uses, u.fin.edge) == 1 && BoundaryEdgeOf(u.fin) == e;
      var w :| w in uses && Valence(uses, w.fin.edge) == 1 && BoundaryEdgeOf(w.fin) == f;
      assert BoundaryEdgeOf(u.fin).edge == u.fin.edge && BoundaryEdgeOf(w.fin).edge == w.fin.edge;
      assert u in EdgeUses(uses, e.edge) && w in EdgeUses(uses, e.edge);
      SubsetSize({u}, EdgeUses(uses, e.edge));
    }
  }

  // No boundary edge of the shell misses just one endpoint.
  ghost predicate BoundaryPaired(faces: set<Face>) {
    EndpointsPaired(BoundarySet(UsesOf(faces), EdgesOf(UsesOf(faces))))
  }

  lemma BoundaryPart(uses: set<Use>, edges: set<nat>, more: set<nat>)
    requires edges <= more
    ensures BoundarySet(uses, edges) <= BoundarySet(uses, more)
  {
  }

  lemma SameComponent(faces: set<Face>, a: Component, b: Component)
    requires BoundaryPaired(faces) && IsComponent(faces, a) && IsComponent(faces, b)
    requires Elements(a.faces) == Elements(b.faces)
    ensures a == b
  {
    hide Connected, IsGrouping, EndpointsPaired, DistinctIds, KindCount;
    var uses, edges := UsesOf(faces), Elements(a.edges);
    AscendingUnique(a.faces, b.faces);
    AscendingUnique(a.edges, b.edges);
    BoundaryDistinct(uses, edges);
    PairedPart(faces, edges);
    GroupingUnique(BoundarySet(uses, edges), a.boundaryGroups, b.boundaryGroups);
  }

  lemma PairedPart(faces: set<Face>, edges: set<nat>)
    requires BoundaryPaired(faces) && edges <= EdgesOf(UsesOf(faces))
    ensures EndpointsPaired(BoundarySet(UsesOf(faces), edges))
  {
    BoundaryPart(UsesOf(faces), edges, EdgesOf(UsesOf(faces)));
  }

  lemma ComponentShared(faces: set<Face>, f: nat, g: nat)
    requires g in ComponentOf(faces, f)
    ensures ComponentOf(faces, f) == ComponentOf(faces, g)
  {
    var t := FaceEdgeTouches(UsesOf(faces));
    ConnectedSymmetric(t, g, f);
    forall x | x in FaceIds(faces)
      ensures Connected(t, x, f) <==> Connected(t, x, g)
    {
      if Connected(t, x, f) {
        ConnectedTransitive(t, x, f, g);
      }
      if Connected(t, x, g) {
        ConnectedTransitive(t, x, g, f);
      }
    }
  }

  lemma MemberComponent(faces: set<Face>, c: Component, f: nat)
    requires IsComponent(faces, c) && f in c.faces
    ensures Elements(c.faces) == ComponentOf(faces, f) && f in FaceIds(faces)
  {
    hide Connected, IsGrouping;
    assert f in Elements(c.faces);
    ComponentShared(faces, c.faces[0], f);
  }

  lemma ComponentFound(faces: set<Face>, a: seq<Component>, b: seq<Component>, i: nat)
    requires BoundaryPaired(faces) && AreComponents(faces, a) && AreComponents(faces, b) && i < |a|
    ensures a[i] in b
  {
    hide IsComponent;
    assert IsComponent(faces, a[i]);
    ComponentFront(faces, a[i]);
    var f := FrontFace(a[i]);
    MemberComponent(faces, a[i], f);
    var k :| 0 <= k < |b| && f in b[k].faces;
    assert IsComponent(faces, b[k]);
    MemberComponent(faces, b[k], f);
    SameComponent(faces, a[i], b[k]);
  }

  lemma ComponentFront(faces: set<Face>, c: Component)
    requires IsComponent(faces, c)
    ensures c.faces != [] && FrontFace(c) in c.faces
  {
  }

  lemma ComponentsUnique(faces: set<Face>, a: seq<Component>, b: seq<Component>)
    requires BoundaryPaired(faces) && AreComponents(faces, a) && AreComponents(faces, b)
    ensures a == b
  {
    hide IsComponent, BoundaryPaired;
    forall x
      ensures x in a <==> x in b
    {
      if x in a {
        var i :| 0 <= i < |a| && a[i] == x;
        ComponentFound(faces, a, b, i);
      }
      if x in b {
        var i :| 0 <= i < |b| && b[i] == x;
        ComponentFound(faces, b, a, i);
      }
    }
    OrderUnique(a, b, FrontFace);
  }

  // The set of faces determines the whole result.
  lemma IncidenceUnique(shell: nat, faces: set<Face>, a: Incidence, b: Incidence)
    requires BoundaryPaired(faces) && IsIncidence(shell, faces, a) && IsIncidence(shell, faces, b)
    ensures a == b
  {
    hide AreComponents, BoundaryPaired, Total;
    ComponentsUnique(faces, a.components, b.components);
    CountsUnique(a.edges, b.edges);
  }

  lemma CountsUnique(a: seq<EdgeUseCount>, b: seq<EdgeUseCount>)
    requires forall i, j :: 0 <= i < j < |a| ==> a[i].edge < a[j].edge
    requires forall i, j :: 0 <= i < j < |b| ==> b[i].edge < b[j].edge
    requires Elements(a) == Elements(b)
    ensures a == b
  {
    forall x
      ensures x in a <==> x in b
    {
      assert x in a <==> x in Elements(a);
      assert x in b <==> x in Elements(b);
    }
    OrderUnique(a, b, CountedEdge);
  }

  // ---------------------------------------------------------------- partition

  // Two faces are in one component exactly when a chain of faces sharing edge
  // IDs joins them.
  lemma SameComponentIffConnected(faces: set<Face>, components: seq<Component>, f: nat, g: nat)
    requires AreComponents(faces, components) && f in FaceIds(faces) && g in FaceIds(faces)
    ensures (exists k :: 0 <= k < |components| && f in components[k].faces && g in components[k].faces)
       <==> Connected(FaceEdgeTouches(UsesOf(faces)), f, g)
  {
    hide IsComponent, Connected;
    var t := FaceEdgeTouches(UsesOf(faces));
    if k :| 0 <= k < |components| && f in components[k].faces && g in components[k].faces {
      MemberComponent(faces, components[k], g);
      assert f in Elements(components[k].faces);
    }
    if Connected(t, f, g) {
      var k :| 0 <= k < |components| && g in components[k].faces;
      MemberComponent(faces, components[k], g);
      assert f in Elements(components[k].faces);
    }
  }

  lemma ComponentsDisjoint(faces: set<Face>, components: seq<Component>, i: nat, j: nat)
    requires AreComponents(faces, components) && i < j < |components|
    ensures Elements(components[i].faces) !! Elements(components[j].faces)
  {
    hide IsComponent;
    ComponentFront(faces, components[i]);
    ComponentFront(faces, components[j]);
    forall f | f in components[i].faces
      ensures f !in components[j].faces
    {
      if f in components[j].faces {
        MemberComponent(faces, components[i], f);
        MemberComponent(faces, components[j], f);
        SmallestFace(faces, components[j], FrontFace(components[i]));
      }
    }
  }

  lemma SmallestFace(faces: set<Face>, c: Component, f: nat)
    requires IsComponent(faces, c)
    ensures f in Elements(c.faces) ==> FrontFace(c) <= f
  {
    if f in Elements(c.faces) {
      var k :| 0 <= k < |c.faces| && c.faces[k] == f;
    }
  }

  // Every used edge is listed in exactly one component.
  lemma EdgeInOneComponent(faces: set<Face>, components: seq<Component>, e: nat)
    requires AreComponents(faces, components)
    ensures e in EdgesOf(UsesOf(faces)) <==> exists k :: 0 <= k < |components| && e in components[k].edges
    ensures forall i, j :: 0 <= i < j < |components| ==> !(e in components[i].edges && e in components[j].edges)
  {
    hide IsComponent, Connected;
    var uses := UsesOf(faces);
    UsesHaveFaces(faces);
    forall k: nat | k < |components|
      ensures e in components[k].edges <==>
        exists u :: u in uses && u.fin.edge == e && u.face in Elements(components[k].faces)
    {
      ComponentEdges(faces, components[k], e);
    }
    if e in EdgesOf(uses) {
      var u :| u in uses && u.fin.edge == e;
      var k: nat :| k < |components| && u.face in components[k].faces;
      assert u.face in Elements(components[k].faces);
    }
    forall i: nat, j: nat | i < j < |components| && e in components[i].edges
      ensures e !in components[j].edges
    {
      var u :| u in uses && u.fin.edge == e && u.face in Elements(components[i].faces);
      forall w | w in uses && w.fin.edge == e
        ensures w.face !in Elements(components[j].faces)
      {
        ComponentsDisjoint(faces, components, i, j);
        SharedEdge(faces, u, w);
        MemberComponent(faces, components[i], u.face);
      }
    }
  }

  lemma ComponentEdges(faces: set<Face>, c: Component, e: nat)
    requires IsComponent(faces, c)
    ensures e in c.edges <==> exists u :: u in UsesOf(faces) && u.fin.edge == e && u.face in Elements(c.faces)
  {
    hide IsGrouping, Connected, ComponentOf;
    assert e in c.edges <==> e in Elements(c.edges);
  }

  lemma SharedEdge(faces: set<Face>, u: Use, w: Use)
    requires u in UsesOf(faces) && w in UsesOf(faces) && u.fin.edge == w.fin.edge
    ensures w.face in ComponentOf(faces, u.face)
  {
    var t := FaceEdgeTouches(UsesOf(faces));
    UsesHaveFaces(faces);
    assert (w.face, w.fin.edge) in t && (u.face, u.fin.edge) in t;
    assert Adjacent(t, w.face, u.face);
    AdjacentConnected(t, w.face, u.face);
  }

  // ---------------------------------------------------------------- totals

  function CoveredFaces(components: seq<Component>): set<nat> {
    if components == [] then {}
    else CoveredFaces(components[..|components| - 1]) + Elements(components[|components| - 1].faces)
  }

  function CoveredEdges(components: seq<Component>): set<nat> {
    if components == [] then {}
    else CoveredEdges(components[..|components| - 1]) + Elements(components[|components| - 1].edges)
  }

  lemma {:induction false} CoveredIn(components: seq<Component>, x: nat)
    ensures x in CoveredFaces(components) <==> exists k :: 0 <= k < |components| && x in components[k].faces
    ensures x in CoveredEdges(components) <==> exists k :: 0 <= k < |components| && x in components[k].edges
  {
    if components != [] {
      var n := |components| - 1;
      var shorter := components[..n];
      CoveredIn(shorter, x);
      assert forall k :: 0 <= k < n ==> shorter[k] == components[k];
      assert x in Elements(components[n].faces) <==> x in components[n].faces;
      assert x in Elements(components[n].edges) <==> x in components[n].edges;
    }
  }

  lemma UsesInUnion(uses: set<Use>, isolated: set<LoopUse>, a: set<nat>, b: set<nat>)
    requires a !! b
    ensures |UsesIn(uses, a + b)| == |UsesIn(uses, a)| + |UsesIn(uses, b)|
    ensures |LoopsIn(isolated, a + b)| == |LoopsIn(isolated, a)| + |LoopsIn(isolated, b)|
  {
    assert UsesIn(uses, a + b) == UsesIn(uses, a) + UsesIn(uses, b);
    assert LoopsIn(isolated, a + b) == LoopsIn(isolated, a) + LoopsIn(isolated, b);
  }

  lemma ValenceUnion(uses: set<Use>, a: set<nat>, b: set<nat>)
    requires a !! b
    ensures |BoundaryIds(uses, a + b)| == |BoundaryIds(uses, a)| + |BoundaryIds(uses, b)|
    ensures |PairedIds(uses, a + b)| == |PairedIds(uses, a)| + |PairedIds(uses, b)|
    ensures |HigherIds(uses, a + b)| == |HigherIds(uses, a)| + |HigherIds(uses, b)|
  {
    assert BoundaryIds(uses, a + b) == BoundaryIds(uses, a) + BoundaryIds(uses, b);
    assert PairedIds(uses, a + b) == PairedIds(uses, a) + PairedIds(uses, b);
    assert HigherIds(uses, a + b) == HigherIds(uses, a) + HigherIds(uses, b);
  }

  // The first n components account for their own faces and edges.
  lemma {:induction false} PartialTotals(faces: set<Face>, components: seq<Component>, n: nat)
    requires AreComponents(faces, components) && n <= |components|
    ensures var uses, part := UsesOf(faces), components[..n];
      && Total(part, (c: Component) => c.faceFins) == |UsesIn(uses, CoveredFaces(part))|
      && Total(part, (c: Component) => c.isolatedLoops) == |LoopsIn(IsolatedOf(faces), CoveredFaces(part))|
      && Total(part, (c: Component) => c.boundaryEdges) == |BoundaryIds(uses, CoveredEdges(part))|
      && Total(part, (c: Component) => c.pairedEdges) == |PairedIds(uses, CoveredEdges(part))|
      && Total(part, (c: Component) => c.higherValenceEdges) == |HigherIds(uses, CoveredEdges(part))|
  {
    hide IsComponent;
    var uses, part := UsesOf(faces), components[..n];
    if n == 0 {
      assert UsesIn(uses, {}) == {} && LoopsIn(IsolatedOf(faces), {}) == {};
      assert BoundaryIds(uses, {}) == {} && PairedIds(uses, {}) == {} && HigherIds(uses, {}) == {};
    } else {
      var shorter, c := components[..n - 1], components[n - 1];
      PartialTotals(faces, components, n - 1);
      assert part[..|part| - 1] == shorter;
      NewCover(faces, components, n - 1);
      UsesInUnion(uses, IsolatedOf(faces), CoveredFaces(shorter), Elements(c.faces));
      ValenceUnion(uses, CoveredEdges(shorter), Elements(c.edges));
      ComponentCounts(faces, c);
    }
  }

  lemma ComponentCounts(faces: set<Face>, c: Component)
    requires IsComponent(faces, c)
    ensures c.faceFins == |UsesIn(UsesOf(faces), Elements(c.faces))|
    ensures c.isolatedLoops == |LoopsIn(IsolatedOf(faces), Elements(c.faces))|
    ensures c.boundaryEdges == |BoundaryIds(UsesOf(faces), Elements(c.edges))|
    ensures c.pairedEdges == |PairedIds(UsesOf(faces), Elements(c.edges))|
    ensures c.higherValenceEdges == |HigherIds(UsesOf(faces), Elements(c.edges))|
  {
  }

  lemma NewCover(faces: set<Face>, components: seq<Component>, n: nat)
    requires AreComponents(faces, components) && n < |components|
    ensures CoveredFaces(components[..n]) !! Elements(components[n].faces)
    ensures CoveredEdges(components[..n]) !! Elements(components[n].edges)
  {
    hide IsComponent;
    var shorter := components[..n];
    forall x | x in Elements(components[n].faces)
      ensures x !in CoveredFaces(shorter)
    {
      CoveredIn(shorter, x);
      forall k | 0 <= k < n
        ensures x !in shorter[k].faces
      {
        ComponentsDisjoint(faces, components, k, n);
        assert x in shorter[k].faces <==> x in Elements(components[k].faces);
      }
    }
    forall x | x in Elements(components[n].edges)
      ensures x !in CoveredEdges(shorter)
    {
      CoveredIn(shorter, x);
      EdgeInOneComponent(faces, components, x);
    }
  }

  // Component counters add up to the shell's.
  lemma ComponentTotals(shell: nat, faces: set<Face>, r: Incidence)
    requires IsIncidence(shell, faces, r)
    ensures r.faceFins == Total(r.components, (c: Component) => c.faceFins)
    ensures r.isolatedLoops == Total(r.components, (c: Component) => c.isolatedLoops)
    ensures r.boundaryEdges == Total(r.components, (c: Component) => c.boundaryEdges)
    ensures r.pairedEdges == Total(r.components, (c: Component) => c.pairedEdges)
    ensures r.higherValenceEdges == Total(r.components, (c: Component) => c.higherValenceEdges)
  {
    hide IsComponent;
    var uses, all := UsesOf(faces), r.components;
    PartialTotals(faces, all, |all|);
    assert all[..|all|] == all;
    UsesHaveFaces(faces);
    forall x | x in FaceIds(faces)
      ensures x in CoveredFaces(all)
    {
      CoveredIn(all, x);
    }
    assert UsesIn(uses, CoveredFaces(all)) == uses;
    assert LoopsIn(IsolatedOf(faces), CoveredFaces(all)) == IsolatedOf(faces);
    forall e
      ensures e in EdgesOf(uses) <==> e in CoveredEdges(all)
    {
      CoveredIn(all, e);
      EdgeInOneComponent(faces, all, e);
    }
    assert CoveredEdges(all) == EdgesOf(uses);
  }

  function CountTotal(edges: seq<EdgeUseCount>): nat {
    if edges == [] then 0
    else CountTotal(edges[..|edges| - 1]) + edges[|edges| - 1].forward + edges[|edges| - 1].reverse
  }

  lemma CountIsValence(uses: set<Use>, e: nat)
    requires forall u :: u in uses ==> u.fin.sense != Unknown
    ensures |SenseUses(uses, e, Forward)| + |SenseUses(uses, e, Reverse)| == Valence(uses, e)
  {
    assert EdgeUses(uses, e) == SenseUses(uses, e, Forward) + SenseUses(uses, e, Reverse);
  }

  function UsesOn(uses: set<Use>, counts: seq<EdgeUseCount>): set<Use> {
    set u, c | u in uses && c in counts && c.edge == u.fin.edge :: u
  }

  lemma NoUses(uses: set<Use>)
    ensures UsesOn(uses, []) == {}
  {
  }

  lemma {:induction false} CountsCover(uses: set<Use>, counts: seq<EdgeUseCount>)
    requires forall u :: u in uses ==> u.fin.sense != Unknown
    requires forall i, j :: 0 <= i < j < |counts| ==> counts[i].edge < counts[j].edge
    requires forall c :: c in counts ==> c in UseCounts(uses)
    ensures CountTotal(counts) == |UsesOn(uses, counts)|
  {
    hide UsesOn, Valence;
    if counts == [] {
      NoUses(uses);
    } else {
      var shorter, c := counts[..|counts| - 1], counts[|counts| - 1];
      CountsCover(uses, shorter);
      assert c in UseCounts(uses);
      CountIsValence(uses, c.edge);
      MoreUses(uses, shorter, c);
      assert counts == shorter + [c];
    }
  }

  lemma MoreUses(uses: set<Use>, counts: seq<EdgeUseCount>, c: EdgeUseCount)
    requires forall i :: 0 <= i < |counts| ==> counts[i].edge < c.edge
    ensures |UsesOn(uses, counts + [c])| == |UsesOn(uses, counts)| + Valence(uses, c.edge)
  {
    assert forall x :: x in counts + [c] <==> x in counts || x == c;
    assert UsesOn(uses, counts + [c]) == UsesOn(uses, counts) + EdgeUses(uses, c.edge);
    assert UsesOn(uses, counts) !! EdgeUses(uses, c.edge);
  }

  // The uses counted on all edges are all fins.
  lemma EdgeTotals(shell: nat, faces: set<Face>, r: Incidence)
    requires IsIncidence(shell, faces, r) && forall u :: u in UsesOf(faces) ==> u.fin.sense != Unknown
    ensures CountTotal(r.edges) == r.faceFins
  {
    hide AreComponents, Total;
    var uses := UsesOf(faces);
    forall c
      ensures c in r.edges <==> c in UseCounts(uses)
    {
      assert c in r.edges <==> c in Elements(r.edges);
    }
    CountsCover(uses, r.edges);
    forall u | u in uses
      ensures u in UsesOn(uses, r.edges)
    {
      var e := u.fin.edge;
      assert e in EdgesOf(uses);
      var c := EdgeUseCount(e, |SenseUses(uses, e, Forward)|, |SenseUses(uses, e, Reverse)|);
      assert c in UseCounts(uses);
    }
    assert UsesOn(uses, r.edges) == uses;
  }

  // How many listed edges have between `low` and `high` uses.
  function EdgesWith(edges: seq<EdgeUseCount>, low: nat, high: nat): nat {
    if edges == [] then 0
    else
      var c := edges[|edges| - 1];
      EdgesWith(edges[..|edges| - 1], low, high) + (if low <= c.forward + c.reverse <= high then 1 else 0)
  }

  function IdsWith(uses: set<Use>, counts: seq<EdgeUseCount>, low: nat, high: nat): set<nat> {
    set c | c in counts && low <= Valence(uses, c.edge) <= high :: c.edge
  }

  lemma MoreIds(uses: set<Use>, counts: seq<EdgeUseCount>, c: EdgeUseCount, low: nat, high: nat)
    requires forall i :: 0 <= i < |counts| ==> counts[i].edge < c.edge
    ensures |IdsWith(uses, counts + [c], low, high)|
         == |IdsWith(uses, counts, low, high)| + (if low <= Valence(uses, c.edge) <= high then 1 else 0)
  {
    hide Valence;
    assert forall x :: x in counts + [c] <==> x in counts || x == c;
    var more := if low <= Valence(uses, c.edge) <= high then {c.edge} else {};
    assert IdsWith(uses, counts + [c], low, high) == IdsWith(uses, counts, low, high) + more;
    assert IdsWith(uses, counts, low, high) !! more;
  }

  lemma {:induction false} EdgesWithIds(uses: set<Use>, counts: seq<EdgeUseCount>, low: nat, high: nat)
    requires forall u :: u in uses ==> u.fin.sense != Unknown
    requires forall i, j :: 0 <= i < j < |counts| ==> counts[i].edge < counts[j].edge
    requires forall c :: c in counts ==> c in UseCounts(uses)
    ensures EdgesWith(counts, low, high) == |IdsWith(uses, counts, low, high)|
  {
    hide Valence, IdsWith;
    if counts == [] {
      NoIds(uses, low, high);
    } else {
      var shorter, c := counts[..|counts| - 1], counts[|counts| - 1];
      EdgesWithIds(uses, shorter, low, high);
      assert c in UseCounts(uses);
      CountIsValence(uses, c.edge);
      MoreIds(uses, shorter, c, low, high);
      assert counts == shorter + [c];
    }
  }

  lemma NoIds(uses: set<Use>, low: nat, high: nat)
    ensures IdsWith(uses, [], low, high) == {}
  {
  }

  function WithValence(uses: set<Use>, edges: set<nat>, low: nat, high: nat): set<nat> {
    set e | e in edges && low <= Valence(uses, e) <= high
  }

  lemma AllCounted(shell: nat, faces: set<Face>, r: Incidence, low: nat, high: nat)
    requires IsIncidence(shell, faces, r) && forall u :: u in UsesOf(faces) ==> u.fin.sense != Unknown
    ensures EdgesWith(r.edges, low, high) == |WithValence(UsesOf(faces), EdgesOf(UsesOf(faces)), low, high)|
  {
    hide AreComponents, Total, Valence;
    var uses := UsesOf(faces);
    forall c
      ensures c in r.edges <==> c in UseCounts(uses)
    {
      assert c in r.edges <==> c in Elements(r.edges);
    }
    EdgesWithIds(uses, r.edges, low, high);
    var all := WithValence(uses, EdgesOf(uses), low, high);
    forall e
      ensures e in all <==> e in IdsWith(uses, r.edges, low, high)
    {
      if e in all {
        assert EdgeUseCount(e, |SenseUses(uses, e, Forward)|, |SenseUses(uses, e, Reverse)|) in r.edges;
      }
    }
    assert all == IdsWith(uses, r.edges, low, high);
  }

  lemma ValenceKinds(uses: set<Use>)
    ensures var edges := EdgesOf(uses);
      && WithValence(uses, edges, 1, 1) == BoundaryIds(uses, edges)
      && WithValence(uses, edges, 2, 2) == PairedIds(uses, edges)
      && WithValence(uses, edges, 3, |uses|) == HigherIds(uses, edges)
      && |edges| == |BoundaryIds(uses, edges)| + |PairedIds(uses, edges)| + |HigherIds(uses, edges)|
  {
    hide Valence;
    var edges := EdgesOf(uses);
    forall e | e in edges
      ensures 1 <= Valence(uses, e) <= |uses|
    {
      ValenceRange(uses, e);
    }
    assert edges == BoundaryIds(uses, edges) + PairedIds(uses, edges) + HigherIds(uses, edges);
    assert BoundaryIds(uses, edges) !! PairedIds(uses, edges);
    assert BoundaryIds(uses, edges) + PairedIds(uses, edges) !! HigherIds(uses, edges);
  }

  // On the listed counts alone: an edge with one use is a boundary edge, one
  // with two is paired, and every other one has more.
  lemma EdgeKinds(shell: nat, faces: set<Face>, r: Incidence)
    requires IsIncidence(shell, faces, r) && forall u :: u in UsesOf(faces) ==> u.fin.sense != Unknown
    ensures r.boundaryEdges == EdgesWith(r.edges, 1, 1) && r.pairedEdges == EdgesWith(r.edges, 2, 2)
    ensures r.higherValenceEdges == EdgesWith(r.edges, 3, r.faceFins)
    ensures r.boundaryEdges + r.pairedEdges + r.higherValenceEdges == |r.edges|
  {
    AllCounted(shell, faces, r, 1, 1);
    AllCounted(shell, faces, r, 2, 2);
    AllCounted(shell, faces, r, 3, r.faceFins);
    ValenceKinds(UsesOf(faces));
    hide AreComponents, Total, Valence, EdgesWith, WithValence, BoundaryIds, PairedIds, HigherIds, UseCounts, EdgesOf;
    KindTotals(shell, faces, r);
  }

  lemma KindTotals(shell: nat, faces: set<Face>, r: Incidence)
    requires IsIncidence(shell, faces, r) && forall u :: u in UsesOf(faces) ==> u.fin.sense != Unknown
    ensures |EdgesOf(UsesOf(faces))| == |r.edges|
  {
    hide AreComponents, Total, Valence, WithValence;
    var uses := UsesOf(faces);
    AllCounted(shell, faces, r, 1, |uses|);
    AllInRange(shell, faces, r);
    AllValences(uses);
  }

  lemma AllValences(uses: set<Use>)
    ensures WithValence(uses, EdgesOf(uses), 1, |uses|) == EdgesOf(uses)
  {
    hide Valence;
    forall e | e in EdgesOf(uses)
      ensures 1 <= Valence(uses, e) <= |uses|
    {
      ValenceRange(uses, e);
    }
  }

  lemma ValenceRange(uses: set<Use>, e: nat)
    requires e in EdgesOf(uses)
    ensures 1 <= Valence(uses, e) <= |uses|
  {
    var u :| u in uses && u.fin.edge == e;
    assert u in EdgeUses(uses, e);
    SubsetSize(EdgeUses(uses, e), uses);
  }

  lemma AllInRange(shell: nat, faces: set<Face>, r: Incidence)
    requires IsIncidence(shell, faces, r) && forall u :: u in UsesOf(faces) ==> u.fin.sense != Unknown
    ensures EdgesWith(r.edges, 1, |UsesOf(faces)|) == |r.edges|
  {
    hide AreComponents, Total, Valence;
    var uses := UsesOf(faces);
    forall k | 0 <= k < |r.edges|
      ensures 1 <= r.edges[k].forward + r.edges[k].reverse <= |uses|
    {
      assert r.edges[k] in Elements(r.edges);
      assert r.edges[k] in UseCounts(uses);
      CountIsValence(uses, r.edges[k].edge);
      ValenceRange(uses, r.edges[k].edge);
    }
    EveryEdgeWith(r.edges, 1, |uses|);
  }

  lemma {:induction false} EveryEdgeWith(edges: seq<EdgeUseCount>, low: nat, high: nat)
    requires forall k :: 0 <= k < |edges| ==> low <= edges[k].forward + edges[k].reverse <= high
    ensures EdgesWith(edges, low, high) == |edges|
  {
    if edges != [] {
      EveryEdgeWith(edges[..|edges| - 1], low, high);
    }
  }

  // ---------------------------------------------------------------- totals and order

  lemma {:induction false} TotalFront(c: Component, components: seq<Component>, f: Component -> nat)
    ensures Total([c] + components, f) == f(c) + Total(components, f)
  {
    var all := [c] + components;
    if components == [] {
      assert all[..|all| - 1] == [];
    } else {
      var shorter := components[..|components| - 1];
      TotalFront(c, shorter, f);
      assert all[..|all| - 1] == [c] + shorter;
    }
  }

  lemma {:induction false} TotalInserted(c: Component, components: seq<Component>, key: Component -> nat, f: Component -> nat)
    requires OrderedBy(components, key)
    ensures Total(InsertBy(c, components, key), f) == f(c) + Total(components, f)
  {
    if components == [] || key(c) <= key(components[0]) {
      TotalFront(c, components, f);
    } else {
      TotalInserted(c, components[1..], key, f);
      TotalFront(components[0], InsertBy(c, components[1..], key), f);
      TotalFront(components[0], components[1..], f);
      assert components == [components[0]] + components[1..];
    }
  }

  // Sorting does not change a total.
  lemma {:induction false} TotalSorted(components: seq<Component>, key: Component -> nat, f: Component -> nat)
    ensures Total(SortBy(components, key), f) == Total(components, f)
  {
    if components != [] {
      TotalSorted(components[1..], key, f);
      TotalInserted(components[0], SortBy(components[1..], key), key, f);
      TotalFront(components[0], components[1..], f);
      assert components == [components[0]] + components[1..];
    }
  }
}
