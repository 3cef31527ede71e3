// The first pass of the incidence analysis: every fin of every face, once.
module ShellScan {
  import opened Results
  import opened DisjointSetForest
  import opened Components
  import opened BoundaryGraph
  import opened ShellUses

  datatype Options = Options(maxFaces: nat, maxLoops: nat, maxFins: nat, maxEdges: nat) {
    predicate Valid() {
      maxFaces != 0 && maxLoops != 0 && maxFins != 0 && maxEdges != 0
    }
  }

  // Oriented along the edge; taken from the first fin seen.
  datatype EdgeState = EdgeState(forward: nat, reverse: nat, firstFace: nat, start: nat, end: nat, fin: nat)

  datatype ScanState = ScanState(
    edges: map<nat, EdgeState>,
    fins: nat,
    isolatedLoops: nat,
    faceFins: seq<nat>,
    faceIsolated: seq<nat>,
    remainingLoops: nat,
    remainingFins: nat)

  function FirstState(firstFace: nat, fin: Fin): EdgeState {
    if fin.sense == Forward then EdgeState(0, 0, firstFace, fin.start, fin.end, fin.fin)
    else EdgeState(0, 0, firstFace, fin.end, fin.start, fin.fin)
  }

  // (face index, edge ID) incidences.
  function FaceTouches(ids: seq<nat>, uses: set<Use>): Touches {
    set i: nat, u | 0 <= i < |ids| && u in uses && ids[i] == u.face :: (i, u.fin.edge)
  }

  ghost predicate EdgeIs(ids: seq<nat>, uses: set<Use>, e: nat, s: EdgeState) {
    && s.forward == |SenseUses(uses, e, Forward)|
    && s.reverse == |SenseUses(uses, e, Reverse)|
    && s.firstFace < |ids|
    && exists u :: u in EdgeUses(uses, e) && u.face == ids[s.firstFace]
                   && s.(forward := 0, reverse := 0) == FirstState(s.firstFace, u.fin)
  }

  ghost predicate EdgesAre(ids: seq<nat>, uses: set<Use>, edges: map<nat, EdgeState>) {
    && edges.Keys == EdgesOf(uses)
    && forall e :: e in edges ==> EdgeIs(ids, uses, e, edges[e])
  }

  ghost predicate UsesFit(ids: seq<nat>, uses: set<Use>) {
    forall u :: u in uses ==> u.face in ids && UsableFin(u.fin)
  }

  // The edge table and the face classes describe the uses seen so far.
  ghost predicate EdgeScan(ids: seq<nat>, uses: set<Use>, root: seq<nat>, edges: map<nat, EdgeState>, fins: nat) {
    && Distinct(ids) && |ids| <= |root| && UsesFit(ids, uses)
    && EdgesAre(ids, uses, edges) && fins == |uses|
    && Represents(root, FaceTouches(ids, uses))
  }

  // ---------------------------------------------------------------- one fin

  function Counted(s: EdgeState, sense: Sense): EdgeState {
    if sense == Forward then s.(forward := s.forward + 1) else s.(reverse := s.reverse + 1)
  }

  lemma SenseStep(uses: set<Use>, u: Use, e: nat, sense: Sense)
    requires u !in uses
    ensures |SenseUses(uses + {u}, e, sense)|
         == |SenseUses(uses, e, sense)| + Count(u.fin.edge == e && u.fin.sense == sense)
  {
    if u.fin.edge == e && u.fin.sense == sense {
      assert SenseUses(uses + {u}, e, sense) == SenseUses(uses, e, sense) + {u};
    } else {
      assert SenseUses(uses + {u}, e, sense) == SenseUses(uses, e, sense);
    }
  }

  lemma NoSenseUses(uses: set<Use>, e: nat, sense: Sense)
    requires e !in EdgesOf(uses)
    ensures SenseUses(uses, e, sense) == {}
  {
    forall u | u in uses
      ensures u.fin.edge != e
    {
      assert u.fin.edge in EdgesOf(uses);
    }
  }

  lemma CountStep(ids: seq<nat>, uses: set<Use>, edges: map<nat, EdgeState>, index: nat, u: Use)
    requires EdgesAre(ids, uses, edges) && u !in uses && index < |ids| && u.face == ids[index] && UsableFin(u.fin)
    ensures var e := u.fin.edge;
      var known := if e in edges then edges[e] else FirstState(index, u.fin);
      EdgesAre(ids, uses + {u}, edges[e := Counted(known, u.fin.sense)])
  {
    var e, more := u.fin.edge, uses + {u};
    var known := if e in edges then edges[e] else FirstState(index, u.fin);
    var after := edges[e := Counted(known, u.fin.sense)];
    UsedEdges(uses, u);
    forall x | x in after
      ensures EdgeIs(ids, more, x, after[x])
    {
      SenseStep(uses, u, x, Forward);
      SenseStep(uses, u, x, Reverse);
      if x in edges {
        assert EdgeIs(ids, uses, x, edges[x]);
        var w :| w in EdgeUses(uses, x) && w.face == ids[edges[x].firstFace]
                 && edges[x].(forward := 0, reverse := 0) == FirstState(edges[x].firstFace, w.fin);
        assert w in EdgeUses(more, x);
      } else {
        NoSenseUses(uses, e, Forward);
        NoSenseUses(uses, e, Reverse);
        assert u in EdgeUses(more, x);
      }
    }
  }

  lemma FaceTouchesStep(ids: seq<nat>, uses: set<Use>, index: nat, u: Use)
    requires Distinct(ids) && index < |ids| && u.face == ids[index]
    ensures FaceTouches(ids, uses + {u}) == FaceTouches(ids, uses) + {(index, u.fin.edge)}
  {
    var more := FaceTouches(ids, uses + {u});
    forall touch | touch in more
      ensures touch in FaceTouches(ids, uses) + {(index, u.fin.edge)}
    {
      var i: nat, w :| i < |ids| && w in uses + {u} && ids[i] == w.face && touch == (i, w.fin.edge);
    }
    assert u in uses + {u} && (index, u.fin.edge) in more;
    forall touch | touch in FaceTouches(ids, uses)
      ensures touch in more
    {
      var i: nat, w :| i < |ids| && w in uses && ids[i] == w.face && touch == (i, w.fin.edge);
      assert w in uses + {u};
    }
  }

  lemma FaceTouchesBelow(ids: seq<nat>, uses: set<Use>, n: nat)
    requires |ids| <= n
    ensures ElementsBelow(FaceTouches(ids, uses), n)
  {
  }

  lemma FirstFaceTouches(ids: seq<nat>, uses: set<Use>, edges: map<nat, EdgeState>, e: nat)
    requires EdgesAre(ids, uses, edges) && e in edges
    ensures edges[e].firstFace < |ids| && (edges[e].firstFace, e) in FaceTouches(ids, uses)
  {
    assert EdgeIs(ids, uses, e, edges[e]);
  }

  lemma UnknownEdgeUntouched(ids: seq<nat>, uses: set<Use>, edges: map<nat, EdgeState>, e: nat)
    requires EdgesAre(ids, uses, edges) && e !in edges
    ensures forall i :: (i, e) !in FaceTouches(ids, uses)
  {
    forall u | u in uses
      ensures u.fin.edge != e
    {
      assert u.fin.edge in EdgesOf(uses);
    }
  }

  // One fin: a new entry if the edge is unknown, a join with the edge's first
  // face, and one more use in its direction.
  method ScanFin(sets: DisjointSets, edges: map<nat, EdgeState>, options: Options, index: nat, fin: Fin,
                 ghost ids: seq<nat>, ghost fins: nat, ghost u: Use, ghost uses: set<Use>)
    returns (r: Result<map<nat, EdgeState>>)
    requires sets.Valid() && EdgeScan(ids, uses, sets.root, edges, fins)
    requires index < |ids| && u.face == ids[index] && u.fin == fin && u !in uses && |edges| <= options.maxEdges
    modifies sets, sets.parents, sets.sizes
    ensures sets.Valid() && sets.parents == old(sets.parents) && sets.sizes == old(sets.sizes)
    ensures |sets.root| == |old(sets.root)|
    ensures r.Ok? ==>
      && UsableFin(u.fin) && |r.value| <= options.maxEdges
      && EdgeScan(ids, uses + {u}, sets.root, r.value, fins + 1)
    ensures r.Err? ==>
      || (r.error == InvalidRecord && !UsableFin(u.fin))
      || (r.error == ResourceLimit && |EdgesOf(uses + {u})| > options.maxEdges)
  {
    hide EdgeScan, Merges, EdgesOf, FirstState, Counted, DisjointSets.Valid;
    var e := fin.edge;
    if e == 0 {
      return Err(InvalidRecord);
    }
    UsedEdges(uses, u);
    EdgeKeys(ids, uses, sets.root, edges, fins);
    ghost var before := sets.root;
    var state;
    if e in edges {
      state := edges[e];
      sets.Join(index, state.firstFace);
    } else {
      if |edges| == options.maxEdges {
        return Err(ResourceLimit);
      }
      state := FirstState(index, fin);
      StartsAt(index, fin);
      sets.Join(index, state.firstFace);
    }
    if fin.sense == Unknown {
      return Err(InvalidRecord);
    }
    ScanFinStep(ids, uses, before, sets.root, edges, fins, index, u);
    EdgeCount(edges, e, Counted(state, fin.sense));
    return Ok(edges[e := Counted(state, fin.sense)]);
  }

  lemma StartsAt(index: nat, fin: Fin)
    ensures FirstState(index, fin).firstFace == index
  {
  }

  lemma ScanFinStep(ids: seq<nat>, uses: set<Use>, before: seq<nat>, after: seq<nat>, edges: map<nat, EdgeState>,
                    fins: nat, index: nat, u: Use)
    requires EdgeScan(ids, uses, before, edges, fins) && UsableFin(u.fin)
    requires index < |ids| && u.face == ids[index] && u !in uses && |after| == |before|
    requires var e := u.fin.edge;
      var first := if e in edges then edges[e].firstFace else index;
      first < |before| && Merges(before, after, index, first)
    ensures var e := u.fin.edge;
      var known := if e in edges then edges[e] else FirstState(index, u.fin);
      EdgeScan(ids, uses + {u}, after, edges[e := Counted(known, u.fin.sense)], fins + 1)
  {
    hide EdgesAre, Represents, FaceTouches, Merges, UsesFit, FirstState, Counted;
    var e := u.fin.edge;
    CountStep(ids, uses, edges, index, u);
    FitStep(ids, uses, index, u);
    FaceTouchesStep(ids, uses, index, u);
    FaceTouchesBelow(ids, uses, |before|);
    if e in edges {
      FirstFaceTouches(ids, uses, edges, e);
      TouchKnownKey(before, after, FaceTouches(ids, uses), index, edges[e].firstFace, e);
    } else {
      UnknownEdgeUntouched(ids, uses, edges, e);
      TouchNewKey(before, FaceTouches(ids, uses), index, e);
      SelfJoin(before, after, FaceTouches(ids, uses + {u}), index);
    }
  }

  lemma FitStep(ids: seq<nat>, uses: set<Use>, index: nat, u: Use)
    requires UsesFit(ids, uses) && index < |ids| && u.face == ids[index] && UsableFin(u.fin) && u !in uses
    ensures UsesFit(ids, uses + {u}) && |uses + {u}| == |uses| + 1
  {
  }

  lemma EdgeKeys(ids: seq<nat>, uses: set<Use>, root: seq<nat>, edges: map<nat, EdgeState>, fins: nat)
    requires EdgeScan(ids, uses, root, edges, fins)
    ensures edges.Keys == EdgesOf(uses) && |edges| == |EdgesOf(uses)| && |ids| <= |root|
    ensures forall e :: e in edges ==> edges[e].firstFace < |ids|
  {
    forall e | e in edges
      ensures edges[e].firstFace < |ids|
    {
      assert EdgeIs(ids, uses, e, edges[e]);
    }
  }

  lemma EdgeCount(edges: map<nat, EdgeState>, e: nat, s: EdgeState)
    ensures |edges[e := s]| == |edges| + Count(e !in edges)
  {
    assert edges[e := s].Keys == edges.Keys + {e};
  }

  // Joining an index with itself keeps every class.
  lemma SelfJoin(before: seq<nat>, after: seq<nat>, t: Touches, index: nat)
    requires |before| == |after| && index < |before| && Represents(before, t) && Merges(before, after, index, index)
    ensures Represents(after, t)
  {
    forall x, y | 0 <= x < |after| && 0 <= y < |after|
      ensures after[x] == after[y] <==> Connected(t, x, y)
    {
      assert MergedPair(before, index, index, x, y) <==> before[x] == before[y];
    }
  }

  // ---------------------------------------------------------------- loops and faces

  predicate Within(options: Options, uses: set<Use>, isolated: set<LoopUse>, loops: set<LoopUse>) {
    |loops| <= options.maxLoops && |uses| + |isolated| <= options.maxFins && |EdgesOf(uses)| <= options.maxEdges
  }

  lemma WithinMonotone(options: Options, uses: set<Use>, isolated: set<LoopUse>, loops: set<LoopUse>,
                       moreUses: set<Use>, moreIsolated: set<LoopUse>, moreLoops: set<LoopUse>)
    requires uses <= moreUses && isolated <= moreIsolated && loops <= moreLoops
    ensures Within(options, moreUses, moreIsolated, moreLoops) ==> Within(options, uses, isolated, loops)
  {
    SubsetSize(uses, moreUses);
    SubsetSize(isolated, moreIsolated);
    SubsetSize(loops, moreLoops);
    SubsetSize(EdgesOf(uses), EdgesOf(moreUses));
  }

  // Counters per face: only the faces listed in ids have any.
  ghost predicate FaceCounts(ids: seq<nat>, uses: set<Use>, isolated: set<LoopUse>, s: ScanState) {
    && |ids| <= |s.faceFins| == |s.faceIsolated|
    && (forall i :: 0 <= i < |ids| ==>
          && s.faceFins[i] == |UsesIn(uses, {ids[i]})|
          && s.faceIsolated[i] == |LoopsIn(isolated, {ids[i]})|)
    && (forall i :: |ids| <= i < |s.faceFins| ==> s.faceFins[i] == 0 && s.faceIsolated[i] == 0)
  }

  ghost predicate ScanIs(options: Options, ids: seq<nat>, uses: set<Use>, isolated: set<LoopUse>, loops: set<LoopUse>,
                         root: seq<nat>, s: ScanState) {
    && EdgeScan(ids, uses, root, s.edges, s.fins) && |s.edges| <= options.maxEdges
    && |root| == |s.faceFins| && FaceCounts(ids, uses, isolated, s)
    && (forall l :: l in isolated ==> l.face in ids) && (forall l :: l in loops ==> l.face in ids)
    && s.isolatedLoops == |isolated|
    && s.remainingFins + |uses| + |isolated| == options.maxFins
    && s.remainingLoops + |loops| == options.maxLoops
  }

  method ScanFins(sets: DisjointSets, s: ScanState, options: Options, index: nat, fins: seq<Fin>,
                  ghost ids: seq<nat>, ghost loop: nat, ghost uses: set<Use>)
    returns (r: Result<map<nat, EdgeState>>)
    requires sets.Valid() && EdgeScan(ids, uses, sets.root, s.edges, s.fins) && |s.edges| <= options.maxEdges
    requires index < |ids| && forall u :: u in uses ==> u.face != ids[index] || u.loop != loop
    modifies sets, sets.parents, sets.sizes
    ensures sets.Valid() && sets.parents == old(sets.parents) && sets.sizes == old(sets.sizes)
    ensures |sets.root| == |old(sets.root)|
    ensures r.Ok? ==>
      && (forall j :: 0 <= j < |fins| ==> UsableFin(fins[j])) && |r.value| <= options.maxEdges
      && EdgeScan(ids, uses + LoopUses(ids[index], loop, fins), sets.root, r.value, s.fins + |fins|)
    ensures r.Err? ==>
      || (r.error == InvalidRecord && exists j :: 0 <= j < |fins| && !UsableFin(fins[j]))
      || (r.error == ResourceLimit && |EdgesOf(uses + LoopUses(ids[index], loop, fins))| > options.maxEdges)
  {
    hide EdgeScan, SoFar, EdgesOf, UsableFin, DisjointSets.Valid;
    var edges := s.edges;
    ghost var face := ids[index];
    SoFarEnds(uses, face, loop, fins);
    for j := 0 to |fins|
      invariant sets.Valid() && sets.parents == old(sets.parents) && sets.sizes == old(sets.sizes)
      invariant |sets.root| == |old(sets.root)|
      invariant forall k :: 0 <= k < j ==> UsableFin(fins[k])
      invariant |edges| <= options.maxEdges
      invariant EdgeScan(ids, SoFar(uses, face, loop, fins, j), sets.root, edges, s.fins + j)
    {
      SoFarStep(uses, face, loop, fins, j);
      ghost var u := Use(face, loop, j, fins[j]);
      var scanned := ScanFin(sets, edges, options, index, fins[j], ids, s.fins + j, u,
                             SoFar(uses, face, loop, fins, j));
      if scanned.Err? {
        return Err(scanned.error);
      }
      edges := scanned.value;
    }
    return Ok(edges);
  }

  function SoFar(uses: set<Use>, face: nat, loop: nat, fins: seq<Fin>, j: nat): set<Use>
    requires j <= |fins|
  {
    uses + LoopUses(face, loop, fins[..j])
  }

  lemma SoFarEnds(uses: set<Use>, face: nat, loop: nat, fins: seq<Fin>)
    ensures SoFar(uses, face, loop, fins, 0) == uses
    ensures SoFar(uses, face, loop, fins, |fins|) == uses + LoopUses(face, loop, fins)
  {
    assert LoopUses(face, loop, fins[..0]) == {};
    assert fins[..|fins|] == fins;
  }

  lemma SoFarStep(uses: set<Use>, face: nat, loop: nat, fins: seq<Fin>, j: nat)
    requires j < |fins| && forall u :: u in uses ==> u.face != face || u.loop != loop
    ensures SoFar(uses, face, loop, fins, j + 1) == SoFar(uses, face, loop, fins, j) + {Use(face, loop, j, fins[j])}
    ensures Use(face, loop, j, fins[j]) !in SoFar(uses, face, loop, fins, j)
    ensures |EdgesOf(SoFar(uses, face, loop, fins, j + 1))| <= |EdgesOf(uses + LoopUses(face, loop, fins))|
  {
    hide LoopUses;
    LoopUsesStep(face, loop, fins, j);
    PrefixUses(face, loop, fins, j + 1);
    SubsetSize(EdgesOf(SoFar(uses, face, loop, fins, j + 1)), EdgesOf(uses + LoopUses(face, loop, fins)));
  }

  lemma PrefixUses(face: nat, loop: nat, fins: seq<Fin>, j: nat)
    requires j <= |fins|
    ensures LoopUses(face, loop, fins[..j]) <= LoopUses(face, loop, fins)
  {
  }

  // The counters after a loop of face `index`.
  function LoopCharged(s: ScanState, index: nat, loop: Loop): ScanState
    requires index < |s.faceFins| == |s.faceIsolated|
    requires |loop.fins| + (if loop.isolated then 1 else 0) <= s.remainingFins
  {
    var charged := s.(remainingFins := s.remainingFins - |loop.fins|,
                      faceFins := s.faceFins[index := s.faceFins[index] + |loop.fins|]);
    if loop.isolated then
      charged.(remainingFins := charged.remainingFins - 1, isolatedLoops := s.isolatedLoops + 1,
               faceIsolated := s.faceIsolated[index := s.faceIsolated[index] + 1])
    else charged
  }

  function IsolatedLoop(face: nat, loop: nat, isolated: bool): set<LoopUse> {
    if isolated then {LoopUse(face, loop)} else {}
  }

  lemma UnionSize<T>(a: set<T>, b: set<T>)
    requires a !! b
    ensures |a + b| == |a| + |b|
  {
  }

  lemma LoopSizes(ids: seq<nat>, uses: set<Use>, isolated: set<LoopUse>, index: nat, li: nat, loop: Loop)
    requires index < |ids|
    requires forall u :: u in uses ==> u.face != ids[index] || u.loop < li
    requires forall l :: l in isolated ==> l.face != ids[index] || l.loop < li
    ensures |uses + LoopUses(ids[index], li, loop.fins)| == |uses| + |loop.fins|
    ensures |isolated + IsolatedLoop(ids[index], li, loop.isolated)| == |isolated| + Count(loop.isolated)
  {
    LoopUsesSize(ids[index], li, loop.fins);
    UnionSize(uses, LoopUses(ids[index], li, loop.fins));
    UnionSize(isolated, IsolatedLoop(ids[index], li, loop.isolated));
  }

  lemma ChargedCounts(ids: seq<nat>, uses: set<Use>, isolated: set<LoopUse>, s: ScanState, index: nat, li: nat, loop: Loop)
    requires Distinct(ids) && index < |ids| && FaceCounts(ids, uses, isolated, s)
    requires |loop.fins| + (if loop.isolated then 1 else 0) <= s.remainingFins
    requires forall u :: u in uses ==> u.face != ids[index] || u.loop < li
    requires forall l :: l in isolated ==> l.face != ids[index] || l.loop < li
    ensures FaceCounts(ids, uses + LoopUses(ids[index], li, loop.fins),
                       isolated + IsolatedLoop(ids[index], li, loop.isolated), LoopCharged(s, index, loop))
    ensures |uses + LoopUses(ids[index], li, loop.fins)| == |uses| + |loop.fins|
    ensures |isolated + IsolatedLoop(ids[index], li, loop.isolated)| == |isolated| + Count(loop.isolated)
  {
    LoopSizes(ids, uses, isolated, index, li, loop);
    var added, alone := LoopUses(ids[index], li, loop.fins), IsolatedLoop(ids[index], li, loop.isolated);
    var after := LoopCharged(s, index, loop);
    forall i: nat | i < |ids|
      ensures after.faceFins[i] == |UsesIn(uses + added, {ids[i]})|
      ensures after.faceIsolated[i] == |LoopsIn(isolated + alone, {ids[i]})|
    {
      FaceShare(ids, uses, isolated, index, li, loop, i);
    }
  }

  lemma FaceShare(ids: seq<nat>, uses: set<Use>, isolated: set<LoopUse>, index: nat, li: nat, loop: Loop, i: nat)
    requires Distinct(ids) && index < |ids| && i < |ids|
    requires forall u :: u in uses ==> u.face != ids[index] || u.loop < li
    requires forall l :: l in isolated ==> l.face != ids[index] || l.loop < li
    ensures |UsesIn(uses + LoopUses(ids[index], li, loop.fins), {ids[i]})|
         == |UsesIn(uses, {ids[i]})| + (if i == index then |loop.fins| else 0)
    ensures |LoopsIn(isolated + IsolatedLoop(ids[index], li, loop.isolated), {ids[i]})|
         == |LoopsIn(isolated, {ids[i]})| + (if i == index then Count(loop.isolated) else 0)
  {
    UseShare(uses, ids[index], li, loop.fins, ids[i]);
    LoopShare(isolated, ids[index], li, loop.isolated, ids[i]);
  }

  lemma UseShare(uses: set<Use>, face: nat, li: nat, fins: seq<Fin>, other: nat)
    requires forall u :: u in uses ==> u.face != face || u.loop < li
    ensures |UsesIn(uses + LoopUses(face, li, fins), {other})|
         == |UsesIn(uses, {other})| + (if other == face then |fins| else 0)
  {
    var added := LoopUses(face, li, fins);
    LoopUsesSize(face, li, fins);
    assert UsesIn(uses + added, {other}) == UsesIn(uses, {other}) + if other == face then added else {};
  }

  lemma LoopShare(isolated: set<LoopUse>, face: nat, li: nat, alone: bool, other: nat)
    requires forall l :: l in isolated ==> l.face != face || l.loop < li
    ensures |LoopsIn(isolated + IsolatedLoop(face, li, alone), {other})|
         == |LoopsIn(isolated, {other})| + (if other == face then Count(alone) else 0)
  {
    var added := IsolatedLoop(face, li, alone);
    assert LoopsIn(isolated + added, {other}) == LoopsIn(isolated, {other}) + if other == face then added else {};
  }

  // One loop: its fins and, for an isolated vertex, one more are charged.
  method ScanLoop(sets: DisjointSets, s: ScanState, options: Options, index: nat, loop: Loop,
                  ghost ids: seq<nat>, ghost li: nat, ghost uses: set<Use>, ghost isolated: set<LoopUse>, ghost loops: set<LoopUse>)
    returns (r: Result<ScanState>)
    requires sets.Valid() && ScanIs(options, ids, uses, isolated, loops, sets.root, s) && index < |ids|
    requires forall u :: u in uses ==> u.face != ids[index] || u.loop < li
    requires forall l :: l in isolated ==> l.face != ids[index] || l.loop < li
    modifies sets, sets.parents, sets.sizes
    ensures sets.Valid() && sets.parents == old(sets.parents) && sets.sizes == old(sets.sizes)
    ensures |sets.root| == |old(sets.root)|
    ensures r.Ok? ==>
      && UsableLoop(loop)
      && ScanIs(options, ids, uses + LoopUses(ids[index], li, loop.fins),
                isolated + IsolatedLoop(ids[index], li, loop.isolated), loops, sets.root, r.value)
    ensures r.Err? ==>
      || (r.error == InvalidRecord && !UsableLoop(loop))
      || (r.error == ResourceLimit
          && !Within(options, uses + LoopUses(ids[index], li, loop.fins),
                     isolated + IsolatedLoop(ids[index], li, loop.isolated), loops))
  {
    hide ScanIs, LoopUses, IsolatedLoop, Within, EdgeScan, DisjointSets.Valid, LoopCharged, UsableFin, EdgesOf;
    LoopFacts(options, ids, uses, isolated, loops, sets.root, s, index, li, loop);
    if |loop.fins| > s.remainingFins {
      return Err(ResourceLimit);
    }
    if loop.isolated {
      if loop.fins != [] {
        return Err(InvalidRecord);
      }
      if s.remainingFins == 0 {
        return Err(ResourceLimit);
      }
    }
    ghost var before := sets.root;
    var edges := ScanFins(sets, s, options, index, loop.fins, ids, li, uses);
    if edges.Err? {
      return Err(edges.error);
    }
    LoopScanned(options, ids, uses, isolated, loops, before, sets.root, s, index, li, loop, edges.value);
    return Ok(LoopCharged(s, index, loop).(edges := edges.value, fins := s.fins + |loop.fins|));
  }

  lemma LoopFacts(options: Options, ids: seq<nat>, uses: set<Use>, isolated: set<LoopUse>, loops: set<LoopUse>,
                  root: seq<nat>, s: ScanState, index: nat, li: nat, loop: Loop)
    requires ScanIs(options, ids, uses, isolated, loops, root, s) && index < |ids|
    requires forall u :: u in uses ==> u.face != ids[index] || u.loop < li
    requires forall l :: l in isolated ==> l.face != ids[index] || l.loop < li
    ensures EdgeScan(ids, uses, root, s.edges, s.fins) && |s.edges| <= options.maxEdges
    ensures |ids| <= |s.faceFins| == |s.faceIsolated|
    ensures var all, alone := uses + LoopUses(ids[index], li, loop.fins),
                              isolated + IsolatedLoop(ids[index], li, loop.isolated);
      && (|loop.fins| + Count(loop.isolated) > s.remainingFins ==> !Within(options, all, alone, loops))
      && (|EdgesOf(all)| > options.maxEdges ==> !Within(options, all, alone, loops))
  {
    hide LoopUses, IsolatedLoop, EdgesOf, EdgeScan;
    LoopSizes(ids, uses, isolated, index, li, loop);
    CountLengths(ids, uses, isolated, s);
  }

  lemma LoopScanned(options: Options, ids: seq<nat>, uses: set<Use>, isolated: set<LoopUse>, loops: set<LoopUse>,
                    root: seq<nat>, after: seq<nat>, s: ScanState, index: nat, li: nat, loop: Loop,
                    edges: map<nat, EdgeState>)
    requires ScanIs(options, ids, uses, isolated, loops, root, s) && index < |ids| && |after| == |root|
    requires forall u :: u in uses ==> u.face != ids[index] || u.loop < li
    requires forall l :: l in isolated ==> l.face != ids[index] || l.loop < li
    requires |loop.fins| + (if loop.isolated then 1 else 0) <= s.remainingFins && |edges| <= options.maxEdges
    requires EdgeScan(ids, uses + LoopUses(ids[index], li, loop.fins), after, edges, s.fins + |loop.fins|)
    ensures index < |s.faceFins| == |s.faceIsolated|
    ensures ScanIs(options, ids, uses + LoopUses(ids[index], li, loop.fins),
                   isolated + IsolatedLoop(ids[index], li, loop.isolated), loops, after,
                   LoopCharged(s, index, loop).(edges := edges, fins := s.fins + |loop.fins|))
  {
    hide EdgeScan, FaceCounts, LoopUses, LoopCharged, Distinct;
    EdgeScanDistinct(ids, uses, root, s.edges, s.fins);
    CountLengths(ids, uses, isolated, s);
    ChargedCounts(ids, uses, isolated, s, index, li, loop);
    ChargedBudget(s, index, loop);
    var charged := LoopCharged(s, index, loop);
    var added, alone := LoopUses(ids[index], li, loop.fins), IsolatedLoop(ids[index], li, loop.isolated);
    SameCounts(ids, uses + added, isolated + alone, charged, charged.(edges := edges, fins := s.fins + |loop.fins|));
  }

  lemma ChargedBudget(s: ScanState, index: nat, loop: Loop)
    requires index < |s.faceFins| == |s.faceIsolated|
    requires |loop.fins| + (if loop.isolated then 1 else 0) <= s.remainingFins
    ensures var t := LoopCharged(s, index, loop);
      && t.remainingFins + |loop.fins| + Count(loop.isolated) == s.remainingFins
      && t.isolatedLoops == s.isolatedLoops + Count(loop.isolated) && t.remainingLoops == s.remainingLoops
      && |t.faceFins| == |s.faceFins|
  {
  }

  lemma EdgeScanDistinct(ids: seq<nat>, uses: set<Use>, root: seq<nat>, edges: map<nat, EdgeState>, fins: nat)
    requires EdgeScan(ids, uses, root, edges, fins)
    ensures Distinct(ids) && |ids| <= |root|
  {
  }

  lemma CountLengths(ids: seq<nat>, uses: set<Use>, isolated: set<LoopUse>, s: ScanState)
    requires FaceCounts(ids, uses, isolated, s)
    ensures |ids| <= |s.faceFins| == |s.faceIsolated|
  {
  }

  lemma SameCounts(ids: seq<nat>, uses: set<Use>, isolated: set<LoopUse>, s: ScanState, t: ScanState)
    requires FaceCounts(ids, uses, isolated, s) && t.faceFins == s.faceFins && t.faceIsolated == s.faceIsolated
    ensures FaceCounts(ids, uses, isolated, t)
  {
  }

  // ---------------------------------------------------------------- faces

  // A face without uses so far changes no incidence.
  lemma OpenFace(options: Options, ids: seq<nat>, uses: set<Use>, isolated: set<LoopUse>, loops: set<LoopUse>,
                 root: seq<nat>, s: ScanState, f: Face)
    requires ScanIs(options, ids, uses, isolated, loops, root, s)
    requires f.face !in ids && |ids| < |root| && |f.loops| <= s.remainingLoops
    ensures ScanIs(options, ids + [f.face], uses, isolated, loops + FaceLoops(f), root,
                   s.(remainingLoops := s.remainingLoops - |f.loops|))
  {
    var more := ids + [f.face];
    FaceLoopsSize(f);
    UnionSize(loops, FaceLoops(f));
    OpenTouches(ids, uses, f.face);
    OpenEdges(ids, uses, s.edges, f.face);
    OpenCounts(ids, uses, isolated, s, f.face);
    SameCounts(more, uses, isolated, s, s.(remainingLoops := s.remainingLoops - |f.loops|));
  }

  lemma OpenTouches(ids: seq<nat>, uses: set<Use>, face: nat)
    requires UsesFit(ids, uses) && face !in ids && Distinct(ids)
    ensures FaceTouches(ids + [face], uses) == FaceTouches(ids, uses)
    ensures UsesFit(ids + [face], uses) && Distinct(ids + [face])
  {
    var more := ids + [face];
    forall touch
      ensures touch in FaceTouches(more, uses) <==> touch in FaceTouches(ids, uses)
    {
      if touch in FaceTouches(more, uses) {
        var i: nat, u :| i < |more| && u in uses && more[i] == u.face && touch == (i, u.fin.edge);
      }
      if touch in FaceTouches(ids, uses) {
        var i: nat, u :| i < |ids| && u in uses && ids[i] == u.face && touch == (i, u.fin.edge);
        assert more[i] == u.face;
      }
    }
  }

  lemma OpenEdges(ids: seq<nat>, uses: set<Use>, edges: map<nat, EdgeState>, face: nat)
    requires EdgesAre(ids, uses, edges)
    ensures EdgesAre(ids + [face], uses, edges)
  {
    forall e | e in edges
      ensures EdgeIs(ids + [face], uses, e, edges[e])
    {
      assert EdgeIs(ids, uses, e, edges[e]);
    }
  }

  lemma OpenCounts(ids: seq<nat>, uses: set<Use>, isolated: set<LoopUse>, s: ScanState, face: nat)
    requires FaceCounts(ids, uses, isolated, s) && |ids| < |s.faceFins|
    requires UsesFit(ids, uses) && (forall l :: l in isolated ==> l.face in ids) && face !in ids
    ensures FaceCounts(ids + [face], uses, isolated, s)
  {
    assert UsesIn(uses, {face}) == {};
    assert LoopsIn(isolated, {face}) == {};
    assert forall i :: 0 <= i < |ids| ==> (ids + [face])[i] == ids[i];
  }

  ghost predicate FreshFace(ids: seq<nat>, uses: set<Use>, isolated: set<LoopUse>, f: Face) {
    f.face !in ids && (forall u :: u in uses ==> u.face in ids) && (forall l :: l in isolated ==> l.face in ids)
  }

  function UsesTo(uses: set<Use>, f: Face, m: nat): set<Use>
    requires m <= |f.loops|
  {
    uses + FaceUses(f, m)
  }

  function IsolatedTo(isolated: set<LoopUse>, f: Face, m: nat): set<LoopUse>
    requires m <= |f.loops|
  {
    isolated + FaceIsolated(f, m)
  }

  lemma FreshBelow(options: Options, ids: seq<nat>, uses: set<Use>, isolated: set<LoopUse>, loops: set<LoopUse>,
                   f: Face, m: nat)
    requires FreshFace(ids, uses, isolated, f) && m < |f.loops|
    ensures forall u :: u in UsesTo(uses, f, m) ==> u.face != f.face || u.loop < m
    ensures forall l :: l in IsolatedTo(isolated, f, m) ==> l.face != f.face || l.loop < m
    ensures UsesTo(uses, f, m + 1) == UsesTo(uses, f, m) + LoopUses(f.face, m, f.loops[m].fins)
    ensures IsolatedTo(isolated, f, m + 1)
         == IsolatedTo(isolated, f, m) + IsolatedLoop(f.face, m, f.loops[m].isolated)
    ensures Within(options, UsesTo(uses, f, |f.loops|), IsolatedTo(isolated, f, |f.loops|), loops)
        ==> Within(options, UsesTo(uses, f, m + 1), IsolatedTo(isolated, f, m + 1), loops)
  {
    hide Within;
    FaceUsesStep(f, m);
    assert FaceUses(f, m + 1) <= FaceUses(f, |f.loops|) && FaceIsolated(f, m + 1) <= FaceIsolated(f, |f.loops|);
    WithinMonotone(options, UsesTo(uses, f, m + 1), IsolatedTo(isolated, f, m + 1), loops,
                   UsesTo(uses, f, |f.loops|), IsolatedTo(isolated, f, |f.loops|), loops);
  }

  lemma TooManyLoops(options: Options, ids: seq<nat>, uses: set<Use>, isolated: set<LoopUse>, loops: set<LoopUse>,
                     root: seq<nat>, s: ScanState, f: Face, uses': set<Use>, isolated': set<LoopUse>)
    requires ScanIs(options, ids, uses, isolated, loops, root, s) && f.face !in ids && |f.loops| > s.remainingLoops
    ensures !Within(options, uses', isolated', loops + FaceLoops(f))
  {
    FaceLoopsSize(f);
    UnionSize(loops, FaceLoops(f));
  }

  lemma ScanFits(options: Options, ids: seq<nat>, uses: set<Use>, isolated: set<LoopUse>, loops: set<LoopUse>,
                 root: seq<nat>, s: ScanState, f: Face)
    requires ScanIs(options, ids, uses, isolated, loops, root, s) && f.face !in ids
    ensures FreshFace(ids, uses, isolated, f)
  {
  }

  // The loops of one face. Its ID is already appended to ids.
  method ScanFace(sets: DisjointSets, start: ScanState, options: Options, index: nat, f: Face,
                  ghost ids: seq<nat>, ghost uses: set<Use>, ghost isolated: set<LoopUse>, ghost loops: set<LoopUse>)
    returns (r: Result<ScanState>)
    requires sets.Valid() && ScanIs(options, ids, uses, isolated, loops, sets.root, start)
    requires f.face != 0 && f.face !in ids && index == |ids| < |sets.root|
    modifies sets, sets.parents, sets.sizes
    ensures sets.Valid() && sets.parents == old(sets.parents) && sets.sizes == old(sets.sizes)
    ensures |sets.root| == |old(sets.root)|
    ensures r.Ok? ==>
      && UsableFace(f)
      && ScanIs(options, ids + [f.face], UsesTo(uses, f, |f.loops|), IsolatedTo(isolated, f, |f.loops|),
                loops + FaceLoops(f), sets.root, r.value)
    ensures r.Err? ==>
      || (r.error == InvalidRecord && !UsableFace(f))
      || (r.error == ResourceLimit
          && !Within(options, UsesTo(uses, f, |f.loops|), IsolatedTo(isolated, f, |f.loops|),
                     loops + FaceLoops(f)))
  {
    hide ScanIs, UsesTo, IsolatedTo, FaceLoops, FreshFace, UsableLoop, DisjointSets.Valid, LoopUses, IsolatedLoop,
         Within;
    ghost var allLoops := loops + FaceLoops(f);
    ScanFits(options, ids, uses, isolated, loops, sets.root, start, f);
    if |f.loops| > start.remainingLoops {
      TooManyLoops(options, ids, uses, isolated, loops, sets.root, start, f,
                   UsesTo(uses, f, |f.loops|), IsolatedTo(isolated, f, |f.loops|));
      return Err(ResourceLimit);
    }
    OpenFace(options, ids, uses, isolated, loops, sets.root, start, f);
    var s := start.(remainingLoops := start.remainingLoops - |f.loops|);
    NoLoops(f, uses, isolated);
    for m := 0 to |f.loops|
      invariant sets.Valid() && sets.parents == old(sets.parents) && sets.sizes == old(sets.sizes)
      invariant |sets.root| == |old(sets.root)|
      invariant forall k :: 0 <= k < m ==> UsableLoop(f.loops[k])
      invariant ScanIs(options, ids + [f.face], UsesTo(uses, f, m), IsolatedTo(isolated, f, m), allLoops,
                       sets.root, s)
    {
      FreshBelow(options, ids, uses, isolated, allLoops, f, m);
      var scanned := ScanLoop(sets, s, options, index, f.loops[m], ids + [f.face], m,
                              UsesTo(uses, f, m), IsolatedTo(isolated, f, m), allLoops);
      if scanned.Err? {
        return Err(scanned.error);
      }
      s := scanned.value;
    }
    return Ok(s);
  }

  lemma NoLoops(f: Face, uses: set<Use>, isolated: set<LoopUse>)
    ensures UsesTo(uses, f, 0) == uses && IsolatedTo(isolated, f, 0) == isolated
  {
  }

  function FaceIdSeq(faces: seq<Face>): (ids: seq<nat>)
    ensures |ids| == |faces| && forall i :: 0 <= i < |ids| ==> ids[i] == faces[i].face
  {
    seq(|faces|, i requires 0 <= i < |faces| => faces[i].face)
  }

  ghost predicate WellFormed(faces: seq<Face>) {
    Distinct(FaceIdSeq(faces)) && forall i :: 0 <= i < |faces| ==> UsableFace(faces[i])
  }

  ghost predicate WithinLimits(options: Options, faces: set<Face>) {
    Within(options, UsesOf(faces), IsolatedOf(faces), LoopsOf(faces))
  }

  ghost predicate PrefixScanned(options: Options, faces: seq<Face>, n: nat, root: seq<nat>, s: ScanState)
    requires n <= |faces|
  {
    var prefix := Elements(faces[..n]);
    ScanIs(options, FaceIdSeq(faces[..n]), UsesOf(prefix), IsolatedOf(prefix), LoopsOf(prefix), root, s)
  }

  function StartState(options: Options, count: nat): ScanState {
    ScanState(map[], 0, 0, seq(count, _ => 0), seq(count, _ => 0), options.maxLoops, options.maxFins)
  }

  lemma ScanStart(options: Options, faces: seq<Face>, root: seq<nat>)
    requires root == seq(|faces|, i => i)
    ensures PrefixScanned(options, faces, 0, root, StartState(options, |faces|))
  {
    assert Elements(faces[..0]) == {};
    assert UsesOf({}) == {} && IsolatedOf({}) == {} && LoopsOf({}) == {};
    assert FaceIdSeq(faces[..0]) == [];
    assert FaceTouches([], {}) == {};
    EmptyRepresents(root);
  }

  lemma PrefixStep(options: Options, faces: seq<Face>, n: nat)
    requires n < |faces|
    ensures FaceIdSeq(faces[..n + 1]) == FaceIdSeq(faces[..n]) + [faces[n].face]
    ensures var prefix, more := Elements(faces[..n]), Elements(faces[..n + 1]);
      && UsesOf(more) == UsesTo(UsesOf(prefix), faces[n], |faces[n].loops|)
      && IsolatedOf(more) == IsolatedTo(IsolatedOf(prefix), faces[n], |faces[n].loops|)
      && LoopsOf(more) == LoopsOf(prefix) + FaceLoops(faces[n])
    ensures WithinLimits(options, Elements(faces)) ==> WithinLimits(options, Elements(faces[..n + 1]))
  {
    hide UsesOf, IsolatedOf, LoopsOf, Within;
    assert faces[..n + 1] == faces[..n] + [faces[n]];
    assert Elements(faces[..n + 1]) == Elements(faces[..n]) + {faces[n]};
    FacesStep(Elements(faces[..n]), faces[n]);
    var prefix, all := Elements(faces[..n + 1]), Elements(faces);
    assert prefix <= all;
    FacesMonotone(prefix, all);
    WithinMonotone(options, UsesOf(prefix), IsolatedOf(prefix), LoopsOf(prefix), UsesOf(all), IsolatedOf(all), LoopsOf(all));
  }

  lemma NotFresh(faces: seq<Face>, n: nat)
    requires n < |faces| && faces[n].face in FaceIdSeq(faces[..n])
    ensures !WellFormed(faces)
  {
    var i :| 0 <= i < n && FaceIdSeq(faces[..n])[i] == faces[n].face;
    assert FaceIdSeq(faces)[i] == FaceIdSeq(faces)[n];
  }

  lemma ScannedDistinct(options: Options, faces: seq<Face>, root: seq<nat>, s: ScanState)
    requires PrefixScanned(options, faces, |faces|, root, s)
    requires forall i :: 0 <= i < |faces| ==> UsableFace(faces[i])
    ensures WellFormed(faces) && WithinLimits(options, Elements(faces))
  {
    hide UsesOf, IsolatedOf, LoopsOf, Represents, FaceTouches, EdgeIs;
    assert faces[..|faces|] == faces;
  }

  // All faces: succeeds exactly on well-formed shells within the limits.
  method ScanFaces(sets: DisjointSets, faces: seq<Face>, options: Options) returns (r: Result<ScanState>)
    requires sets.Valid() && sets.root == seq(|faces|, i => i)
    modifies sets, sets.parents, sets.sizes
    ensures sets.Valid() && sets.parents == old(sets.parents) && sets.sizes == old(sets.sizes)
    ensures |sets.root| == |faces|
    ensures r.Ok? ==> WellFormed(faces) && WithinLimits(options, Elements(faces))
    ensures r.Ok? ==> PrefixScanned(options, faces, |faces|, sets.root, r.value)
    ensures r.Err? ==>
      || (r.error == InvalidRecord && !WellFormed(faces))
      || (r.error == ResourceLimit && !WithinLimits(options, Elements(faces)))
  {
    hide ScanIs, UsesTo, IsolatedTo, FaceLoops, UsableLoop, DisjointSets.Valid, UsesOf, IsolatedOf, LoopsOf, Within,
         StartState, Distinct;
    var s := StartState(options, |faces|);
    var faceIds: set<int> := {};
    ScanStart(options, faces, sets.root);
    for n := 0 to |faces|
      invariant sets.Valid() && sets.parents == old(sets.parents) && sets.sizes == old(sets.sizes)
      invariant |sets.root| == |faces|
      invariant forall k :: 0 <= k < n ==> UsableFace(faces[k])
      invariant forall id :: id in faceIds <==> id in FaceIdSeq(faces[..n])
      invariant PrefixScanned(options, faces, n, sets.root, s)
    {
      var f := faces[n];
      ghost var prefix := Elements(faces[..n]);
      if f.face == 0 || f.face in faceIds {
        if f.face != 0 {
          NotFresh(faces, n);
        }
        return Err(InvalidRecord);
      }
      PrefixStep(options, faces, n);
      var scanned := ScanFace(sets, s, options, n, f, FaceIdSeq(faces[..n]), UsesOf(prefix), IsolatedOf(prefix),
                              LoopsOf(prefix));
      if scanned.Err? {
        return Err(scanned.error);
      }
      s := scanned.value;
      faceIds := faceIds + {f.face};
    }
    ScannedDistinct(options, faces, sets.root, s);
    return Ok(s);
  }
}
