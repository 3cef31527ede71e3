// AnalyzeShellEdgeIncidence after its scan: components, valences and groups.
module ShellIncidence {
  import opened Results
  import opened DisjointSetForest
  import opened Components
  import opened BoundaryGraph
  import opened Sorting
  import opened Classes
  import opened BoundaryGroups
  import opened BoundaryGrouping
  import opened ShellUses
  import opened ShellScan
  import opened ShellSummary

  const NO_FACES := Component([], [], 0, 0, 0, 0, 0, [], 0, 0, 0)

  // ---------------------------------------------------------------- faces of components

  // A component with the given faces and their counters.
  ghost function FacePart(uses: set<Use>, isolated: set<LoopUse>, members: seq<nat>): Component {
    NO_FACES.(faces := members, faceFins := |UsesIn(uses, Elements(members))|,
              isolatedLoops := |LoopsIn(isolated, Elements(members))|)
  }

  ghost predicate FaceParts(ids: seq<nat>, uses: set<Use>, isolated: set<LoopUse>, root: seq<nat>,
                            groupOf: seq<nat>, owners: seq<nat>, components: seq<Component>, count: nat) {
    && |ids| == |root| && |owners| == |components| && Classified(root, groupOf, owners, count)
    && forall k :: 0 <= k < |components| ==>
         components[k] == FacePart(uses, isolated, MemberIds(ids, root, owners[k], count))
  }

  function AddFace(c: Component, face: nat, fins: nat, isolated: nat): Component {
    c.(faces := c.faces + [face], faceFins := c.faceFins + fins, isolatedLoops := c.isolatedLoops + isolated)
  }

  lemma FacePartGrows(uses: set<Use>, isolated: set<LoopUse>, members: seq<nat>, face: nat)
    requires face !in members
    ensures FacePart(uses, isolated, members + [face])
         == AddFace(FacePart(uses, isolated, members), face, |UsesIn(uses, {face})|, |LoopsIn(isolated, {face})|)
  {
    assert Elements(members + [face]) == Elements(members) + {face};
    UsesInUnion(uses, isolated, Elements(members), {face});
  }

  lemma NoFacesYet(uses: set<Use>, isolated: set<LoopUse>)
    ensures FacePart(uses, isolated, []) == NO_FACES
  {
    assert Elements<nat>([]) == {};
    assert UsesIn(uses, {}) == {} && LoopsIn(isolated, {}) == {};
  }

  lemma FaceStep(ids: seq<nat>, uses: set<Use>, isolated: set<LoopUse>, root: seq<nat>, groupOf: seq<nat>,
                 owners: seq<nat>, components: seq<Component>, i: nat)
    requires FaceParts(ids, uses, isolated, root, groupOf, owners, components, i) && i < |root| && Distinct(ids)
    requires root[i] < |root|
    ensures |groupOf| == |root|
    ensures var fins, alone := |UsesIn(uses, {ids[i]})|, |LoopsIn(isolated, {ids[i]})|;
      if groupOf[root[i]] == |root| then
        FaceParts(ids, uses, isolated, root, groupOf[root[i] := |components|], owners + [root[i]],
                  components + [AddFace(NO_FACES, ids[i], fins, alone)], i + 1)
      else
        var k := groupOf[root[i]];
        k < |components|
        && FaceParts(ids, uses, isolated, root, groupOf, owners,
                     components[k := AddFace(components[k], ids[i], fins, alone)], i + 1)
  {
    hide FacePart, AddFace, MemberIds;
    if groupOf[root[i]] == |root| {
      ClassifyNew(ids, root, groupOf, owners, i);
      NoFacesYet(uses, isolated);
      FacePartGrows(uses, isolated, [], ids[i]);
      assert [] + [ids[i]] == [ids[i]];
    } else {
      ClassifyKnown(ids, root, groupOf, owners, i);
      var members := MemberIds(ids, root, root[i], i);
      MemberIdsElements(ids, root, root[i], i);
      FacePartGrows(uses, isolated, members, ids[i]);
      var k := groupOf[root[i]];
      var after := components[k := AddFace(components[k], ids[i], |UsesIn(uses, {ids[i]})|, |LoopsIn(isolated, {ids[i]})|)];
      forall j | 0 <= j < |after|
        ensures after[j] == FacePart(uses, isolated, MemberIds(ids, root, owners[j], i + 1))
      {
        assert components[j] == FacePart(uses, isolated, MemberIds(ids, root, owners[j], i));
        if j != k {
          assert MemberIds(ids, root, owners[j], i + 1) == MemberIds(ids, root, owners[j], i);
        }
      }
    }
  }

  // Faces in order; each component starts at its first face.
  method CollectFaces(faces: seq<Face>, sets: DisjointSets, s: ScanState, ghost uses: set<Use>,
                      ghost isolated: set<LoopUse>)
    returns (components: seq<Component>, groupOf: seq<nat>, ghost owners: seq<nat>)
    requires sets.Valid() && |sets.root| == |faces| && Distinct(FaceIdSeq(faces))
    requires FaceCounts(FaceIdSeq(faces), uses, isolated, s) && |s.faceFins| == |faces|
    modifies sets.parents
    ensures sets.Valid() && sets.root == old(sets.root) && sets.parents == old(sets.parents)
      && sets.sizes == old(sets.sizes)
    ensures FaceParts(FaceIdSeq(faces), uses, isolated, sets.root, groupOf, owners, components, |faces|)
  {
    hide FaceParts, DisjointSets.Valid, AddFace, Distinct;
    components, owners := [], [];
    groupOf := seq(|faces|, _ => |faces|);
    StartParts(FaceIdSeq(faces), uses, isolated, sets.root, groupOf);
    for i := 0 to |faces|
      invariant sets.Valid() && sets.root == old(sets.root) && sets.parents == old(sets.parents)
        && sets.sizes == old(sets.sizes)
      invariant FaceParts(FaceIdSeq(faces), uses, isolated, sets.root, groupOf, owners, components, i)
    {
      var r;
      ghost var steps;
      r, steps := sets.Find(i);
      FaceStep(FaceIdSeq(faces), uses, isolated, sets.root, groupOf, owners, components, i);
      if groupOf[r] == |faces| {
        groupOf := groupOf[r := |components|];
        components := components + [AddFace(NO_FACES, faces[i].face, s.faceFins[i], s.faceIsolated[i])];
        owners := owners + [r];
      } else {
        var k := groupOf[r];
        components := components[k := AddFace(components[k], faces[i].face, s.faceFins[i], s.faceIsolated[i])];
      }
    }
  }

  lemma StartParts(ids: seq<nat>, uses: set<Use>, isolated: set<LoopUse>, root: seq<nat>, groupOf: seq<nat>)
    requires |root| == |ids| && groupOf == seq(|ids|, _ => |ids|)
    ensures FaceParts(ids, uses, isolated, root, groupOf, [], [], 0)
  {
  }

  // ---------------------------------------------------------------- edges of components

  function GroupOfEdge(root: seq<nat>, groupOf: seq<nat>, edges: map<nat, EdgeState>, e: nat): nat {
    if e in edges && edges[e].firstFace < |root| && root[edges[e].firstFace] < |groupOf|
    then groupOf[root[edges[e].firstFace]] else |root|
  }

  ghost function OwnEdges(root: seq<nat>, groupOf: seq<nat>, edges: map<nat, EdgeState>, done: set<nat>, k: nat): set<nat> {
    set e | e in done && GroupOfEdge(root, groupOf, edges, e) == k
  }

  function UseCount(uses: set<Use>, e: nat): EdgeUseCount {
    EdgeUseCount(e, |SenseUses(uses, e, Forward)|, |SenseUses(uses, e, Reverse)|)
  }

  // The counters of one component or of the shell, with the edges `own`.
  datatype Tally = Tally(edges: seq<nat>, boundaryEdges: nat, pairedEdges: nat, higherValenceEdges: nat)

  ghost predicate TallyIs(uses: set<Use>, own: set<nat>, t: Tally) {
    && Distinct(t.edges) && Elements(t.edges) == own
    && t.boundaryEdges == |BoundaryIds(uses, own)|
    && t.pairedEdges == |PairedIds(uses, own)|
    && t.higherValenceEdges == |HigherIds(uses, own)|
  }

  function AddEdge(t: Tally, e: nat, uses: nat): Tally {
    var more := t.(edges := t.edges + [e]);
    if uses == 1 then more.(boundaryEdges := t.boundaryEdges + 1)
    else if uses == 2 then more.(pairedEdges := t.pairedEdges + 1)
    else more.(higherValenceEdges := t.higherValenceEdges + 1)
  }

  lemma TallyStep(uses: set<Use>, own: set<nat>, t: Tally, e: nat)
    requires TallyIs(uses, own, t) && e !in own && Valence(uses, e) > 0
    ensures TallyIs(uses, own + {e}, AddEdge(t, e, Valence(uses, e)))
  {
    assert Elements(t.edges + [e]) == Elements(t.edges) + {e};
    assert e !in t.edges by {
      assert e in t.edges <==> e in Elements(t.edges);
    }
    ValenceUnion(uses, own, {e});
    var n := Valence(uses, e);
    assert BoundaryIds(uses, {e}) == if n == 1 then {e} else {};
    assert PairedIds(uses, {e}) == if n == 2 then {e} else {};
    assert HigherIds(uses, {e}) == if n > 2 then {e} else {};
  }

  // Boundary edges in the order met, each once.
  ghost predicate ListsBoundary(uses: set<Use>, own: set<nat>, boundary: seq<BoundaryEdge>) {
    IdsDistinct(boundary) && Elements(boundary) == BoundarySet(uses, own)
  }

  function BoundaryEdgeIn(e: nat, s: EdgeState): BoundaryEdge {
    BoundaryEdge(e, s.fin, s.start, s.end)
  }

  lemma BoundaryStep(ids: seq<nat>, uses: set<Use>, own: set<nat>, boundary: seq<BoundaryEdge>, e: nat, s: EdgeState)
    requires ListsBoundary(uses, own, boundary) && e !in own && EdgeIs(ids, uses, e, s)
    ensures ListsBoundary(uses, own + {e},
                          if Valence(uses, e) == 1 then boundary + [BoundaryEdgeIn(e, s)] else boundary)
  {
    var u :| u in EdgeUses(uses, e) && s.(forward := 0, reverse := 0) == FirstState(s.firstFace, u.fin);
    var first := FirstState(s.firstFace, u.fin);
    assert u.fin.edge == e && s.fin == first.fin && s.start == first.start && s.end == first.end;
    assert BoundaryEdgeIn(e, s) == BoundaryEdgeOf(u.fin);
    OneBoundary(uses, e, u);
    var added := if Valence(uses, e) == 1 then {BoundaryEdgeOf(u.fin)} else {};
    assert BoundarySet(uses, own + {e}) == BoundarySet(uses, own) + BoundarySet(uses, {e});
    if Valence(uses, e) == 1 {
      var more := boundary + [BoundaryEdgeIn(e, s)];
      assert Elements(more) == Elements(boundary) + {BoundaryEdgeIn(e, s)};
      forall i | 0 <= i < |boundary|
        ensures boundary[i].edge != e
      {
        assert boundary[i] in Elements(boundary);
        assert BoundarySet(uses, own) == Elements(boundary);
        BoundaryIn(uses, own, boundary[i]);
      }
    }
  }

  lemma BoundaryIn(uses: set<Use>, own: set<nat>, b: BoundaryEdge)
    requires b in BoundarySet(uses, own)
    ensures b.edge in own
  {
    var u :| u in uses && u.fin.edge in own && BoundaryEdgeOf(u.fin) == b;
    assert BoundaryEdgeOf(u.fin).edge == u.fin.edge;
  }

  lemma OneBoundary(uses: set<Use>, e: nat, u: Use)
    requires u in EdgeUses(uses, e)
    ensures BoundarySet(uses, {e}) == if Valence(uses, e) == 1 then {BoundaryEdgeOf(u.fin)} else {}
  {
    if Valence(uses, e) == 1 {
      SubsetSize({u}, EdgeUses(uses, e));
      forall b | b in BoundarySet(uses, {e})
        ensures b == BoundaryEdgeOf(u.fin)
      {
        var w :| w in uses && w.fin.edge in {e} && BoundaryEdgeOf(w.fin) == b;
        assert w in EdgeUses(uses, e);
      }
      assert BoundaryEdgeOf(u.fin) in BoundarySet(uses, {e});
    }
  }

  // ---------------------------------------------------------------- the edge pass

  datatype EdgePass = EdgePass(counts: seq<EdgeUseCount>, shell: Tally, tallies: seq<Tally>,
                               boundaries: seq<seq<BoundaryEdge>>)

  ghost predicate PassIs(root: seq<nat>, groupOf: seq<nat>, uses: set<Use>, edges: map<nat, EdgeState>,
                         done: set<nat>, n: nat, p: EdgePass) {
    && |p.tallies| == |p.boundaries| == n
    && TallyIs(uses, done, p.shell)
    && p.counts == seq(|p.shell.edges|, i requires 0 <= i < |p.shell.edges| => UseCount(uses, p.shell.edges[i]))
    && forall k :: 0 <= k < n ==>
         && TallyIs(uses, OwnEdges(root, groupOf, edges, done, k), p.tallies[k])
         && ListsBoundary(uses, OwnEdges(root, groupOf, edges, done, k), p.boundaries[k])
  }

  function AddToPass(p: EdgePass, k: nat, e: nat, s: EdgeState): EdgePass
    requires k < |p.tallies| == |p.boundaries|
  {
    var n := s.forward + s.reverse;
    EdgePass(
      p.counts + [EdgeUseCount(e, s.forward, s.reverse)],
      AddEdge(p.shell, e, n),
      p.tallies[k := AddEdge(p.tallies[k], e, n)],
      if n == 1 then p.boundaries[k := p.boundaries[k] + [BoundaryEdgeIn(e, s)]] else p.boundaries)
  }

  lemma PassStep(ids: seq<nat>, root: seq<nat>, groupOf: seq<nat>, uses: set<Use>, edges: map<nat, EdgeState>,
                 done: set<nat>, n: nat, p: EdgePass, e: nat)
    requires PassIs(root, groupOf, uses, edges, done, n, p) && e !in done && e in edges
    requires EdgesAre(ids, uses, edges) && UsesFit(ids, uses)
    requires GroupOfEdge(root, groupOf, edges, e) < n
    ensures PassIs(root, groupOf, uses, edges, done + {e}, n,
                   AddToPass(p, GroupOfEdge(root, groupOf, edges, e), e, edges[e]))
  {
    hide TallyIs, ListsBoundary, AddEdge, BoundaryEdgeIn, GroupOfEdge, EdgeIs;
    var k, s := GroupOfEdge(root, groupOf, edges, e), edges[e];
    var after := AddToPass(p, k, e, s);
    assert EdgeIs(ids, uses, e, s);
    EdgeValence(ids, uses, e, s);
    TallyStep(uses, done, p.shell, e);
    ShellEdges(p.shell, e, Valence(uses, e));
    forall j: nat | j < n
      ensures TallyIs(uses, OwnEdges(root, groupOf, edges, done + {e}, j), after.tallies[j])
      ensures ListsBoundary(uses, OwnEdges(root, groupOf, edges, done + {e}, j), after.boundaries[j])
    {
      var own := OwnEdges(root, groupOf, edges, done, j);
      if j == k {
        assert OwnEdges(root, groupOf, edges, done + {e}, j) == own + {e};
        TallyStep(uses, own, p.tallies[j], e);
        BoundaryStep(ids, uses, own, p.boundaries[j], e, s);
      } else {
        assert OwnEdges(root, groupOf, edges, done + {e}, j) == own;
      }
    }
  }

  lemma ShellEdges(t: Tally, e: nat, n: nat)
    ensures AddEdge(t, e, n).edges == t.edges + [e]
  {
  }

  lemma EdgeValence(ids: seq<nat>, uses: set<Use>, e: nat, s: EdgeState)
    requires EdgeIs(ids, uses, e, s) && UsesFit(ids, uses)
    ensures s.forward + s.reverse == Valence(uses, e) > 0
    ensures EdgeUseCount(e, s.forward, s.reverse) == UseCount(uses, e)
  {
    CountIsValence(uses, e);
    var u :| u in EdgeUses(uses, e);
    SubsetSize({u}, EdgeUses(uses, e));
  }

  lemma PassStart(root: seq<nat>, groupOf: seq<nat>, uses: set<Use>, edges: map<nat, EdgeState>, n: nat)
    ensures PassIs(root, groupOf, uses, edges, {}, n,
                   EdgePass([], Tally([], 0, 0, 0), seq(n, _ => Tally([], 0, 0, 0)), seq(n, _ => [])))
  {
    assert BoundaryIds(uses, {}) == {} && PairedIds(uses, {}) == {} && HigherIds(uses, {}) == {};
    assert BoundarySet(uses, {}) == {};
    assert Elements<nat>([]) == {} && Elements<BoundaryEdge>([]) == {};
    forall k: nat
      ensures OwnEdges(root, groupOf, edges, {}, k) == {}
    {
    }
  }

  // The edge table in no particular order.
  method PassEdges(sets: DisjointSets, edges: map<nat, EdgeState>, n: nat, groupOf: seq<nat>,
                   ghost ids: seq<nat>, ghost uses: set<Use>, ghost owners: seq<nat>)
    returns (p: EdgePass)
    requires sets.Valid() && |ids| == |sets.root| && EdgesAre(ids, uses, edges) && UsesFit(ids, uses)
    requires |owners| == n && Classified(sets.root, groupOf, owners, |sets.root|)
    modifies sets.parents
    ensures sets.Valid() && sets.root == old(sets.root) && sets.parents == old(sets.parents)
      && sets.sizes == old(sets.sizes)
    ensures PassIs(sets.root, groupOf, uses, edges, edges.Keys, n, p)
  {
    hide PassIs, DisjointSets.Valid, AddToPass, EdgesAre, UsesFit;
    p := EdgePass([], Tally([], 0, 0, 0), seq(n, _ => Tally([], 0, 0, 0)), seq(n, _ => []));
    var remaining := edges.Keys;
    assert edges.Keys - remaining == {};
    PassStart(sets.root, groupOf, uses, edges, n);
    while remaining != {}
      invariant sets.Valid() && sets.root == old(sets.root) && sets.parents == old(sets.parents)
        && sets.sizes == old(sets.sizes)
      invariant remaining <= edges.Keys
      invariant PassIs(sets.root, groupOf, uses, edges, edges.Keys - remaining, n, p)
      decreases remaining
    {
      var e :| e in remaining;
      FirstFaceBelow(ids, uses, edges, e);
      var r;
      ghost var steps;
      r, steps := sets.Find(edges[e].firstFace);
      PassSizes(sets.root, groupOf, uses, edges, edges.Keys - remaining, n, p);
      PassStep(ids, sets.root, groupOf, uses, edges, edges.Keys - remaining, n, p, e);
      p := AddToPass(p, groupOf[r], e, edges[e]);
      assert edges.Keys - remaining + {e} == edges.Keys - (remaining - {e});
      remaining := remaining - {e};
    }
    assert edges.Keys - {} == edges.Keys;
  }

  lemma FirstFaceBelow(ids: seq<nat>, uses: set<Use>, edges: map<nat, EdgeState>, e: nat)
    requires EdgesAre(ids, uses, edges) && e in edges
    ensures edges[e].firstFace < |ids|
  {
    assert EdgeIs(ids, uses, e, edges[e]);
  }

  lemma PassSizes(root: seq<nat>, groupOf: seq<nat>, uses: set<Use>, edges: map<nat, EdgeState>,
                  done: set<nat>, n: nat, p: EdgePass)
    requires PassIs(root, groupOf, uses, edges, done, n, p)
    ensures |p.tallies| == |p.boundaries| == n
  {
  }

  // ---------------------------------------------------------------- components by ID

  // Faces share a root exactly when they are in one component.
  lemma SameFaceRoot(ids: seq<nat>, uses: set<Use>, root: seq<nat>, i: nat, j: nat)
    requires |root| == |ids| && Distinct(ids) && UsesFit(ids, uses) && Represents(root, FaceTouches(ids, uses))
    requires i < |ids| && j < |ids|
    ensures root[i] == root[j] <==> Connected(FaceEdgeTouches(uses), ids[i], ids[j])
  {
    var t, renamed := FaceTouches(ids, uses), FaceEdgeTouches(uses);
    FaceTouchesBelow(ids, uses, |ids|);
    forall x: nat, key | x < |ids|
      ensures (x, key) in t <==> (ids[x], key) in renamed
    {
      if (ids[x], key) in renamed {
        var u :| u in uses && u.face == ids[x] && u.fin.edge == key;
      }
    }
    RenamedConnected(t, ids, renamed, i, j);
  }

  lemma FaceIdsOf(faces: seq<Face>)
    ensures FaceIds(Elements(faces)) == Elements(FaceIdSeq(faces))
  {
    forall id
      ensures id in FaceIds(Elements(faces)) <==> id in FaceIdSeq(faces)
    {
      if id in FaceIds(Elements(faces)) {
        var f :| f in Elements(faces) && f.face == id;
        var i :| 0 <= i < |faces| && faces[i] == f;
        assert FaceIdSeq(faces)[i] == id;
      }
      if id in FaceIdSeq(faces) {
        var i :| 0 <= i < |faces| && FaceIdSeq(faces)[i] == id;
        assert faces[i] in Elements(faces);
      }
    }
  }

  // The members of class k, as a component of IDs.
  lemma MembersAreComponent(faces: seq<Face>, root: seq<nat>, owner: nat, i: nat)
    requires var ids, uses := FaceIdSeq(faces), UsesOf(Elements(faces));
      && |root| == |ids| && Distinct(ids) && UsesFit(ids, uses) && Represents(root, FaceTouches(ids, uses))
    requires i < |faces| && root[i] == owner
    ensures var members := MemberIds(FaceIdSeq(faces), root, owner, |faces|);
      Distinct(members) && Elements(members) == ComponentOf(Elements(faces), faces[i].face)
  {
    hide Represents, Connected, FaceTouches, UsesFit;
    var ids, uses := FaceIdSeq(faces), UsesOf(Elements(faces));
    var members := MemberIds(ids, root, owner, |faces|);
    MemberIdsElements(ids, root, owner, |faces|);
    FaceIdsOf(faces);
    forall id
      ensures id in members <==> id in ComponentOf(Elements(faces), faces[i].face)
    {
      if id in members {
        var j :| 0 <= j < |faces| && root[j] == owner && ids[j] == id;
        SameFaceRoot(ids, uses, root, j, i);
        assert id in Elements(ids);
      }
      if id in ComponentOf(Elements(faces), faces[i].face) {
        assert id in Elements(ids);
        var j :| 0 <= j < |faces| && ids[j] == id;
        SameFaceRoot(ids, uses, root, j, i);
      }
    }
  }

  // The edges counted for class k are the edges of its faces.
  lemma OwnEdgesAreEdges(ids: seq<nat>, uses: set<Use>, root: seq<nat>, groupOf: seq<nat>, owners: seq<nat>,
                         edges: map<nat, EdgeState>, k: nat)
    requires |root| == |ids| && Distinct(ids) && UsesFit(ids, uses) && Represents(root, FaceTouches(ids, uses))
    requires EdgesAre(ids, uses, edges) && Classified(root, groupOf, owners, |root|) && k < |owners|
    ensures OwnEdges(root, groupOf, edges, edges.Keys, k)
         == EdgesOf(UsesIn(uses, Elements(MemberIds(ids, root, owners[k], |ids|))))
  {
    hide Represents, Connected, FaceTouches, Classified;
    var members := MemberIds(ids, root, owners[k], |ids|);
    MemberIdsElements(ids, root, owners[k], |ids|);
    forall e
      ensures e in OwnEdges(root, groupOf, edges, edges.Keys, k) <==> e in EdgesOf(UsesIn(uses, Elements(members)))
    {
      if e in edges {
        ClassOfEdge(ids, uses, root, groupOf, owners, edges, k, e);
        var first := edges[e].firstFace;
        assert EdgeIs(ids, uses, e, edges[e]);
        var w :| w in EdgeUses(uses, e) && w.face == ids[first];
        forall u | u in EdgeUses(uses, e)
          ensures u.face in members <==> root[first] == owners[k]
        {
          var j: nat :| j < |ids| && ids[j] == u.face;
          SharedUse(uses, u, w);
          SameFaceRoot(ids, uses, root, j, first);
        }
      }
    }
  }

  lemma ClassOfEdge(ids: seq<nat>, uses: set<Use>, root: seq<nat>, groupOf: seq<nat>, owners: seq<nat>,
                    edges: map<nat, EdgeState>, k: nat, e: nat)
    requires |root| == |ids| && EdgesAre(ids, uses, edges) && e in edges
    requires Classified(root, groupOf, owners, |root|) && k < |owners|
    ensures edges[e].firstFace < |ids| && GroupOfEdge(root, groupOf, edges, e) < |owners|
    ensures GroupOfEdge(root, groupOf, edges, e) == k <==> root[edges[e].firstFace] == owners[k]
  {
    FirstFaceBelow(ids, uses, edges, e);
  }

  lemma SharedUse(uses: set<Use>, u: Use, w: Use)
    requires u in uses && w in uses && u.fin.edge == w.fin.edge
    ensures Connected(FaceEdgeTouches(uses), u.face, w.face)
  {
    var t := FaceEdgeTouches(uses);
    assert (u.face, u.fin.edge) in t && (w.face, w.fin.edge) in t;
    assert Adjacent(t, u.face, w.face);
    AdjacentConnected(t, u.face, w.face);
  }

  // ---------------------------------------------------------------- assembly

  function Grouped(c: Component, t: Tally, groups: seq<BoundaryGroup>): Component {
    Component(c.faces, t.edges, c.faceFins, c.isolatedLoops, t.boundaryEdges, t.pairedEdges, t.higherValenceEdges,
              groups, KindCount(groups, Cycle), KindCount(groups, Chain), KindCount(groups, Branched))
  }

  function Sorted(c: Component): Component {
    c.(faces := SortIds(c.faces), edges := SortIds(c.edges))
  }

  // Everything the two passes established.
  ghost predicate Passed(faces: seq<Face>, root: seq<nat>, groupOf: seq<nat>, owners: seq<nat>,
                         edges: map<nat, EdgeState>, base: seq<Component>, p: EdgePass) {
    var ids, uses, isolated := FaceIdSeq(faces), UsesOf(Elements(faces)), IsolatedOf(Elements(faces));
    && |root| == |ids| && Distinct(ids) && UsesFit(ids, uses) && Represents(root, FaceTouches(ids, uses))
    && EdgesAre(ids, uses, edges)
    && FaceParts(ids, uses, isolated, root, groupOf, owners, base, |ids|)
    && PassIs(root, groupOf, uses, edges, edges.Keys, |base|, p)
  }

  lemma ComponentReady(faces: seq<Face>, root: seq<nat>, groupOf: seq<nat>, owners: seq<nat>,
                       edges: map<nat, EdgeState>, base: seq<Component>, p: EdgePass, k: nat, groups: seq<BoundaryGroup>)
    requires Passed(faces, root, groupOf, owners, edges, base, p) && k < |base|
    requires IsGrouping(Elements(p.boundaries[k]), groups)
    ensures |p.tallies| == |p.boundaries| == |base|
    ensures IsComponent(Elements(faces), Sorted(Grouped(base[k], p.tallies[k], groups)))
    ensures Elements(base[k].faces) == Elements(MemberIds(FaceIdSeq(faces), root, owners[k], |faces|))
  {
    hide IsGrouping, Represents, Connected, EdgesAre, UsesFit, KindCount, SortIds, FaceTouches, MemberIds, ComponentOf;
    var all := Elements(faces);
    var ids, uses, isolated := FaceIdSeq(faces), UsesOf(all), IsolatedOf(all);
    var i :| 0 <= i < |root| && root[i] == owners[k];
    MembersAreComponent(faces, root, owners[k], i);
    OwnEdgesAreEdges(ids, uses, root, groupOf, owners, edges, k);
    var own := OwnEdges(root, groupOf, edges, edges.Keys, k);
    assert TallyIs(uses, own, p.tallies[k]) && ListsBoundary(uses, own, p.boundaries[k]);
    var c := Sorted(Grouped(base[k], p.tallies[k], groups));
    var members := MemberIds(ids, root, owners[k], |ids|);
    assert base[k] == FacePart(uses, isolated, members);
    FaceIdsOf(faces);
    ComponentHas(all, faces[i].face);
    FirstMember(all, members, c.faces, faces[i].face);
  }

  lemma ComponentHas(faces: set<Face>, id: nat)
    ensures id in FaceIds(faces) ==> id in ComponentOf(faces, id)
  {
    ConnectedReflexive(FaceEdgeTouches(UsesOf(faces)), id);
  }

  // Any member names the same component, in particular the smallest.
  lemma FirstMember(faces: set<Face>, members: seq<nat>, sorted: seq<nat>, id: nat)
    requires Elements(members) == ComponentOf(faces, id) && Elements(sorted) == Elements(members)
    requires id in ComponentOf(faces, id)
    ensures sorted != [] && sorted[0] in FaceIds(faces) && ComponentOf(faces, sorted[0]) == ComponentOf(faces, id)
  {
    hide Connected;
    assert id in Elements(sorted);
    assert sorted[0] in Elements(sorted);
    ComponentShared(faces, id, sorted[0]);
  }

  // Endpoints are paired in the whole shell exactly when they are in every
  // component.
  lemma PairedEverywhere(faces: seq<Face>, root: seq<nat>, groupOf: seq<nat>, owners: seq<nat>,
                         edges: map<nat, EdgeState>, base: seq<Component>, p: EdgePass)
    requires Passed(faces, root, groupOf, owners, edges, base, p)
    ensures |p.boundaries| == |base| && forall k :: 0 <= k < |base| ==> IdsDistinct(p.boundaries[k])
    ensures BoundaryPaired(Elements(faces)) <==>
      forall k :: 0 <= k < |base| ==> EndpointsPaired(Elements(p.boundaries[k]))
  {
    hide Represents, Connected, FaceTouches, MemberIds, FacePart, EdgeIs;
    var uses := UsesOf(Elements(faces));
    var whole := BoundarySet(uses, EdgesOf(uses));
    forall k | 0 <= k < |base|
      ensures Elements(p.boundaries[k]) <= whole && IdsDistinct(p.boundaries[k])
    {
      var own := OwnEdges(root, groupOf, edges, edges.Keys, k);
      assert ListsBoundary(uses, own, p.boundaries[k]);
      BoundaryPart(uses, own, EdgesOf(uses));
    }
    forall b | b in whole
      ensures exists k :: 0 <= k < |base| && b in Elements(p.boundaries[k])
    {
      var u :| u in uses && Valence(uses, u.fin.edge) == 1 && BoundaryEdgeOf(u.fin) == b;
      var e := u.fin.edge;
      assert e in EdgesOf(uses);
      FirstFaceBelow(FaceIdSeq(faces), uses, edges, e);
      var k := GroupOfEdge(root, groupOf, edges, e);
      var own := OwnEdges(root, groupOf, edges, edges.Keys, k);
      assert ListsBoundary(uses, own, p.boundaries[k]);
      assert e in own;
      assert b in BoundarySet(uses, own);
    }
  }

  // Kind counters of one component, one group at a time.
  method CountKinds(groups: seq<BoundaryGroup>) returns (cycles: nat, chains: nat, branched: nat)
    ensures cycles == KindCount(groups, Cycle)
    ensures chains == KindCount(groups, Chain)
    ensures branched == KindCount(groups, Branched)
  {
    cycles, chains, branched := 0, 0, 0;
    for i := 0 to |groups|
      invariant cycles == KindCount(groups[..i], Cycle)
      invariant chains == KindCount(groups[..i], Chain)
      invariant branched == KindCount(groups[..i], Branched)
    {
      assert groups[..i + 1][..i] == groups[..i];
      if groups[i].kind == Cycle {
        cycles := cycles + 1;
      } else if groups[i].kind == Chain {
        chains := chains + 1;
      } else {
        branched := branched + 1;
      }
    }
    assert groups[..|groups|] == groups;
  }

  ghost predicate GroupedUpTo(base: seq<Component>, p: EdgePass, result: seq<Component>, n: nat) {
    && |p.tallies| == |p.boundaries| == |base| && n == |result| <= |base|
    && forall k :: 0 <= k < n ==>
         && result[k] == Grouped(base[k], p.tallies[k], result[k].boundaryGroups)
         && IsGrouping(Elements(p.boundaries[k]), result[k].boundaryGroups)
  }

  lemma TotalStep(components: seq<Component>, c: Component, f: Component -> nat)
    ensures Total(components + [c], f) == Total(components, f) + f(c)
  {
    assert (components + [c])[..|components|] == components;
  }

  // Boundary groups of every component; fails on the first half-missing edge.
  method GroupComponents(base: seq<Component>, p: EdgePass)
    returns (r: Result<seq<Component>>, cycles: nat, chains: nat, branched: nat)
    requires |p.tallies| == |p.boundaries| == |base| && forall k :: 0 <= k < |base| ==> IdsDistinct(p.boundaries[k])
    ensures r.Ok? <==> forall k :: 0 <= k < |base| ==> EndpointsPaired(Elements(p.boundaries[k]))
    ensures r.Ok? ==> GroupedUpTo(base, p, r.value, |base|)
    ensures r.Err? ==> r.error == InvalidRecord
    ensures r.Ok? ==>
      && cycles == Total(r.value, (c: Component) => c.boundaryCycles)
      && chains == Total(r.value, (c: Component) => c.boundaryChains)
      && branched == Total(r.value, (c: Component) => c.branchedBoundaries)
  {
    hide EndpointsPaired, IsGrouping, KindCount, IdsDistinct, Total;
    var result: seq<Component> := [];
    cycles, chains, branched := 0, 0, 0;
    NoTotals();
    for k := 0 to |base|
      invariant GroupedUpTo(base, p, result, k)
      invariant forall j :: 0 <= j < k ==> EndpointsPaired(Elements(p.boundaries[j]))
      invariant cycles == Total(result, (c: Component) => c.boundaryCycles)
      invariant chains == Total(result, (c: Component) => c.boundaryChains)
      invariant branched == Total(result, (c: Component) => c.branchedBoundaries)
    {
      var groups := GroupBoundaryEdges(p.boundaries[k]);
      if groups.Err? {
        return Err(groups.error), cycles, chains, branched;
      }
      var y, h, b := CountKinds(groups.value);
      var c := Component(base[k].faces, p.tallies[k].edges, base[k].faceFins, base[k].isolatedLoops,
                         p.tallies[k].boundaryEdges, p.tallies[k].pairedEdges, p.tallies[k].higherValenceEdges,
                         groups.value, y, h, b);
      TotalStep(result, c, (c: Component) => c.boundaryCycles);
      TotalStep(result, c, (c: Component) => c.boundaryChains);
      TotalStep(result, c, (c: Component) => c.branchedBoundaries);
      result := result + [c];
      cycles, chains, branched := cycles + y, chains + h, branched + b;
    }
    return Ok(result), cycles, chains, branched;
  }

  lemma NoTotals()
    ensures forall f: Component -> nat :: Total([], f) == 0
  {
  }

  // Sorting the members of each component.
  method SortMembers(components: seq<Component>) returns (result: seq<Component>)
    ensures |result| == |components| && forall k :: 0 <= k < |result| ==> result[k] == Sorted(components[k])
  {
    hide Sorted;
    result := components;
    for k := 0 to |components|
      invariant |result| == |components|
      invariant forall j :: 0 <= j < k ==> result[j] == Sorted(components[j])
      invariant forall j :: k <= j < |result| ==> result[j] == components[j]
    {
      result := result[k := Sorted(result[k])];
    }
  }

  lemma {:induction false} SortedTotal(a: seq<Component>, b: seq<Component>, f: Component -> nat)
    requires |a| == |b| && forall k :: 0 <= k < |a| ==> f(a[k]) == f(b[k])
    ensures Total(a, f) == Total(b, f)
  {
    if a != [] {
      SortedTotal(a[..|a| - 1], b[..|b| - 1], f);
    }
  }

  // Distinct components have distinct first faces, and every face is in one.
  lemma ComponentsReady(faces: seq<Face>, root: seq<nat>, groupOf: seq<nat>, owners: seq<nat>,
                        edges: map<nat, EdgeState>, base: seq<Component>, p: EdgePass, sorted: seq<Component>)
    requires Passed(faces, root, groupOf, owners, edges, base, p) && |sorted| == |base|
    requires forall k :: 0 <= k < |base| ==>
      && IsComponent(Elements(faces), sorted[k])
      && Elements(sorted[k].faces) == Elements(MemberIds(FaceIdSeq(faces), root, owners[k], |faces|))
    ensures AreComponents(Elements(faces), SortBy(sorted, FrontFace))
  {
    hide IsComponent, MemberIds, Represents, FaceTouches, EdgesAre, UsesFit, PassIs, FacePart, SortBy;
    var ids := FaceIdSeq(faces);
    forall i: nat, j: nat | i < j < |sorted|
      ensures FrontFace(sorted[i]) != FrontFace(sorted[j])
    {
      var f := FrontFace(sorted[i]);
      ComponentFront(Elements(faces), sorted[i]);
      ComponentFront(Elements(faces), sorted[j]);
      var x := MemberIndex(ids, root, owners[i], sorted[i].faces, f);
      if f == FrontFace(sorted[j]) {
        var y := MemberIndex(ids, root, owners[j], sorted[j].faces, f);
      }
    }
    FaceIdsOf(faces);
    forall f | f in FaceIds(Elements(faces))
      ensures exists k :: 0 <= k < |sorted| && f in sorted[k].faces
    {
      assert f in Elements(ids);
      var i: nat :| i < |ids| && ids[i] == f;
      var k := groupOf[root[i]];
      MemberIdsElements(ids, root, root[i], |ids|);
      assert f in Elements(MemberIds(ids, root, owners[k], |ids|));
      assert f in Elements(sorted[k].faces);
    }
    ByFrontFace(Elements(faces), sorted);
  }

  lemma MemberIndex(ids: seq<nat>, root: seq<nat>, owner: nat, members: seq<nat>, f: nat) returns (x: nat)
    requires |root| == |ids| && Distinct(ids) && Elements(members) == Elements(MemberIds(ids, root, owner, |ids|))
    requires f in members
    ensures x < |ids| && ids[x] == f && root[x] == owner
  {
    MemberIdsElements(ids, root, owner, |ids|);
    assert f in Elements(members);
    x :| 0 <= x < |ids| && root[x] == owner && ids[x] == f;
  }

  lemma ByFrontFace(faces: set<Face>, components: seq<Component>)
    requires KeysDistinct(components, FrontFace)
    requires forall k :: 0 <= k < |components| ==> IsComponent(faces, components[k])
    requires forall f :: f in FaceIds(faces) ==> exists k :: 0 <= k < |components| && f in components[k].faces
    ensures AreComponents(faces, SortBy(components, FrontFace))
  {
    hide IsComponent, SortBy, FrontFace, FaceIds;
    var r := SortBy(components, FrontFace);
    SortKeepsKeys(components, FrontFace);
    forall k | 0 <= k < |r|
      ensures IsComponent(faces, r[k])
    {
      assert r[k] in components;
    }
    forall f | f in FaceIds(faces)
      ensures exists k :: 0 <= k < |r| && f in r[k].faces
    {
      var k :| 0 <= k < |components| && f in components[k].faces;
      assert components[k] in r;
    }
  }

  lemma ScannedFacts(options: Options, faces: seq<Face>, root: seq<nat>, s: ScanState)
    requires PrefixScanned(options, faces, |faces|, root, s)
    ensures var uses, isolated := UsesOf(Elements(faces)), IsolatedOf(Elements(faces));
      && EdgeScan(FaceIdSeq(faces), uses, root, s.edges, s.fins) && FaceCounts(FaceIdSeq(faces), uses, isolated, s)
      && |s.faceFins| == |root| && s.isolatedLoops == |isolated| && s.fins == |uses|
  {
    assert faces[..|faces|] == faces;
  }

  // The edge counts in ID order.
  lemma CountsReady(uses: set<Use>, edges: seq<nat>, counts: seq<EdgeUseCount>)
    requires Distinct(edges) && Elements(edges) == EdgesOf(uses)
    requires counts == seq(|edges|, i requires 0 <= i < |edges| => UseCount(uses, edges[i]))
    ensures var sorted := SortBy(counts, CountedEdge);
      && (forall i, j :: 0 <= i < j < |sorted| ==> sorted[i].edge < sorted[j].edge)
      && Elements(sorted) == UseCounts(uses)
  {
    hide SortBy;
    var sorted := SortBy(counts, CountedEdge);
    assert KeysDistinct(counts, CountedEdge);
    SortKeepsKeys(counts, CountedEdge);
    forall i, j | 0 <= i < j < |sorted|
      ensures sorted[i].edge < sorted[j].edge
    {
      assert CountedEdge(sorted[i]) < CountedEdge(sorted[j]);
    }
    forall c
      ensures c in counts <==> c in UseCounts(uses)
    {
      if c in counts {
        var i :| 0 <= i < |counts| && counts[i] == c;
        assert edges[i] in Elements(edges);
      }
      if c in UseCounts(uses) {
        var e :| e in EdgesOf(uses) && c == UseCount(uses, e);
        assert e in Elements(edges);
        var i :| 0 <= i < |edges| && edges[i] == e;
        assert counts[i] == c;
      }
    }
  }

  // Everything the result needs once the passes are done.
  lemma {:induction false} IncidenceReady(shell: ShellBoundary, root: seq<nat>, groupOf: seq<nat>, owners: seq<nat>,
                       edges: map<nat, EdgeState>, base: seq<Component>, p: EdgePass, grouped: seq<Component>,
                       sorted: seq<Component>, r: Incidence)
    requires Passed(shell.faces, root, groupOf, owners, edges, base, p) && GroupedUpTo(base, p, grouped, |base|)
    requires |sorted| == |grouped| && forall k :: 0 <= k < |sorted| ==> sorted[k] == Sorted(grouped[k])
    requires var uses, isolated := UsesOf(Elements(shell.faces)), IsolatedOf(Elements(shell.faces));
      r == Incidence(shell.shell, SortBy(p.counts, CountedEdge), SortBy(sorted, FrontFace), |base|, |uses|, |isolated|,
                     p.shell.boundaryEdges, p.shell.pairedEdges, p.shell.higherValenceEdges,
                     Total(grouped, (c: Component) => c.boundaryCycles),
                     Total(grouped, (c: Component) => c.boundaryChains),
                     Total(grouped, (c: Component) => c.branchedBoundaries))
    ensures IsIncidence(shell.shell, Elements(shell.faces), r)
  {
    hide IsComponent, SortBy, Total, IsGrouping, Represents, FaceTouches, EdgeIs, UsesFit, FaceParts, ListsBoundary,
         MemberIds, AreComponents, KindCount, SortIds;
    var faces := Elements(shell.faces);
    PartsClassified(FaceIdSeq(shell.faces), UsesOf(faces), IsolatedOf(faces), root, groupOf, owners, base, |root|);
    forall k | 0 <= k < |base|
      ensures IsComponent(faces, sorted[k])
      ensures Elements(sorted[k].faces) == Elements(MemberIds(FaceIdSeq(shell.faces), root, owners[k], |shell.faces|))
    {
      ComponentReady(shell.faces, root, groupOf, owners, edges, base, p, k, grouped[k].boundaryGroups);
    }
    ComponentsReady(shell.faces, root, groupOf, owners, edges, base, p, sorted);
    CountsReady(UsesOf(faces), p.shell.edges, p.counts);
    TotalKept(sorted, grouped, (c: Component) => c.boundaryCycles);
    TotalKept(sorted, grouped, (c: Component) => c.boundaryChains);
    TotalKept(sorted, grouped, (c: Component) => c.branchedBoundaries);
  }

  lemma TotalKept(sorted: seq<Component>, grouped: seq<Component>, f: Component -> nat)
    requires |sorted| == |grouped| && forall k :: 0 <= k < |sorted| ==> f(sorted[k]) == f(grouped[k])
    ensures Total(SortBy(sorted, FrontFace), f) == Total(grouped, f)
  {
    TotalSorted(sorted, FrontFace, f);
    SortedTotal(sorted, grouped, f);
  }

  // Succeeds exactly on valid options, well-formed shells within the limits,
  // and boundary edges with both endpoints or none.
  ghost predicate Analyzable(shell: ShellBoundary, options: Options) {
    && options.Valid() && |shell.faces| <= options.maxFaces
    && WellFormed(shell.faces) && WithinLimits(options, Elements(shell.faces))
    && BoundaryPaired(Elements(shell.faces))
  }

  method AnalyzeShellEdgeIncidence(shell: ShellBoundary, options: Options) returns (r: Result<Incidence>)
    ensures r.Ok? <==> Analyzable(shell, options)
    ensures r.Ok? ==> IsIncidence(shell.shell, Elements(shell.faces), r.value)
    ensures r.Err? ==>
      || (r.error == InvalidOptions && !options.Valid())
      || (r.error == ResourceLimit && (|shell.faces| > options.maxFaces || !WithinLimits(options, Elements(shell.faces))))
      || (r.error == InvalidRecord && (!WellFormed(shell.faces) || !BoundaryPaired(Elements(shell.faces))))
  {
    hide DisjointSets.Valid, PrefixScanned, WellFormed, WithinLimits, BoundaryPaired, Passed, GroupedUpTo, FaceParts,
         PassIs, EdgeScan, FaceCounts, IsIncidence, EndpointsPaired, IdsDistinct, Total, SortBy, Sorted,
         UsesOf, IsolatedOf;
    if !options.Valid() {
      return Err(InvalidOptions);
    }
    if |shell.faces| > options.maxFaces {
      return Err(ResourceLimit);
    }
    var faces := shell.faces;
    var sets := new DisjointSets(|faces|);
    var scanned := ScanFaces(sets, faces, options);
    if scanned.Err? {
      return Err(scanned.error);
    }
    var s := scanned.value;
    ghost var uses, isolated := UsesOf(Elements(faces)), IsolatedOf(Elements(faces));
    ScannedFacts(options, faces, sets.root, s);
    EdgeScanParts(FaceIdSeq(faces), uses, sets.root, s.edges, s.fins);
    var base, groupOf;
    ghost var owners;
    base, groupOf, owners := CollectFaces(faces, sets, s, uses, isolated);
    PartsClassified(FaceIdSeq(faces), uses, isolated, sets.root, groupOf, owners, base, |faces|);
    var p := PassEdges(sets, s.edges, |base|, groupOf, FaceIdSeq(faces), uses, owners);
    ghost var root := sets.root;
    PassedReady(faces, root, groupOf, owners, s.edges, base, p, s.fins);
    PairedEverywhere(faces, root, groupOf, owners, s.edges, base, p);
    PassSizes(root, groupOf, uses, s.edges, s.edges.Keys, |base|, p);
    var grouped, cycles, chains, branched := GroupComponents(base, p);
    if grouped.Err? {
      return Err(InvalidRecord);
    }
    var sorted := SortMembers(grouped.value);
    var result := Incidence(shell.shell, SortBy(p.counts, CountedEdge), SortBy(sorted, FrontFace), |base|,
                            s.fins, s.isolatedLoops, p.shell.boundaryEdges, p.shell.pairedEdges,
                            p.shell.higherValenceEdges, cycles, chains, branched);
    GroupedSize(base, p, grouped.value);
    IncidenceReady(shell, root, groupOf, owners, s.edges, base, p, grouped.value, sorted, result);
    return Ok(result);
  }

  lemma GroupedSize(base: seq<Component>, p: EdgePass, grouped: seq<Component>)
    requires GroupedUpTo(base, p, grouped, |base|)
    ensures |grouped| == |base|
  {
  }

  lemma EdgeScanParts(ids: seq<nat>, uses: set<Use>, root: seq<nat>, edges: map<nat, EdgeState>, fins: nat)
    requires EdgeScan(ids, uses, root, edges, fins)
    ensures Distinct(ids) && EdgesAre(ids, uses, edges) && UsesFit(ids, uses)
  {
  }

  lemma PartsClassified(ids: seq<nat>, uses: set<Use>, isolated: set<LoopUse>, root: seq<nat>, groupOf: seq<nat>,
                        owners: seq<nat>, base: seq<Component>, count: nat)
    requires FaceParts(ids, uses, isolated, root, groupOf, owners, base, count)
    ensures Classified(root, groupOf, owners, count) && |owners| == |base|
  {
  }

  lemma PassedReady(faces: seq<Face>, root: seq<nat>, groupOf: seq<nat>, owners: seq<nat>,
                    edges: map<nat, EdgeState>, base: seq<Component>, p: EdgePass, fins: nat)
    requires EdgeScan(FaceIdSeq(faces), UsesOf(Elements(faces)), root, edges, fins) && |root| == |faces|
    requires FaceParts(FaceIdSeq(faces), UsesOf(Elements(faces)), IsolatedOf(Elements(faces)), root, groupOf, owners,
                       base, |faces|)
    requires PassIs(root, groupOf, UsesOf(Elements(faces)), edges, edges.Keys, |base|, p)
    ensures Passed(faces, root, groupOf, owners, edges, base, p)
  {
    hide FaceParts, PassIs, Represents, EdgesAre, FaceTouches;
  }

  // ---------------------------------------------------------------- face order

  // Whether the analysis succeeds, and what it returns, does not depend on the
  // order of the faces.
  lemma FaceOrderIrrelevant(shell: ShellBoundary, faces: seq<Face>, options: Options, a: Incidence, b: Incidence)
    requires multiset(shell.faces) == multiset(faces)
    ensures Analyzable(shell, options) <==> Analyzable(shell.(faces := faces), options)
    ensures Analyzable(shell, options) && IsIncidence(shell.shell, Elements(shell.faces), a)
      && IsIncidence(shell.shell, Elements(faces), b)
      ==> a == b
  {
    hide BoundaryPaired, IsIncidence, WithinLimits;
    SameElements(shell.faces, faces);
    assert |multiset(shell.faces)| == |shell.faces| && |multiset(faces)| == |faces|;
    if WellFormed(shell.faces) {
      WellFormedEither(shell.faces, faces);
    }
    if WellFormed(faces) {
      WellFormedEither(faces, shell.faces);
    }
    if Analyzable(shell, options) && IsIncidence(shell.shell, Elements(shell.faces), a)
       && IsIncidence(shell.shell, Elements(faces), b) {
      IncidenceUnique(shell.shell, Elements(faces), a, b);
    }
  }

  lemma SameElements(a: seq<Face>, b: seq<Face>)
    requires multiset(a) == multiset(b)
    ensures Elements(a) == Elements(b)
  {
    forall f
      ensures f in Elements(a) <==> f in Elements(b)
    {
      assert f in a <==> f in multiset(a);
      assert f in b <==> f in multiset(b);
    }
  }

  lemma WellFormedEither(a: seq<Face>, b: seq<Face>)
    requires Elements(a) == Elements(b) && |a| == |b| && WellFormed(a)
    ensures WellFormed(b)
  {
    FaceIdsOf(a);
    FaceIdsOf(b);
    var x, y := FaceIdSeq(a), FaceIdSeq(b);
    forall id
      ensures id in x <==> id in y
    {
      assert id in x <==> id in Elements(x);
      assert id in y <==> id in Elements(y);
    }
    SameSizeDistinct(x, y);
    forall i | 0 <= i < |b|
      ensures UsableFace(b[i])
    {
      assert b[i] in Elements(a);
    }
  }
}
