// GroupBoundaryEdges: one pass with a union-find, then canonical groups.
module BoundaryGrouping {
  import opened Results
  import opened DisjointSetForest
  import opened Components
  import opened BoundaryGraph
  import opened Sorting
  import opened Classes
  import opened BoundaryGroups
  import opened BoundaryTracing

  // ---------------------------------------------------------------- scanned halves

  function AllHalves(g: Edges): set<Half> {
    set e, b | e in g && b in {false, true} :: Half(e, b)
  }

  function HalvesIn(hs: set<Half>, v: nat): set<Half> {
    set h | h in hs && h.At() == v
  }

  lemma AllHalvesAt(g: Edges, v: nat)
    ensures HalvesIn(AllHalves(g), v) == HalvesAt(g, v)
  {
  }

  // (edge index, vertex) incidences of the scanned halves.
  function IndexTouches(edges: seq<BoundaryEdge>, hs: set<Half>): Touches {
    set i: nat, b | 0 <= i < |edges| && b in {false, true} && Half(edges[i], b) in hs && Half(edges[i], b).At() != 0
      :: (i, Half(edges[i], b).At())
  }

  ghost predicate EntryIs(hs: set<Half>, edges: seq<BoundaryEdge>, v: nat, info: BoundaryVertex) {
    && info.first < |edges| && info.second < |edges|
    && info.degree == |HalvesIn(hs, v)|
    && (exists a :: Half(edges[info.first], a) in HalvesIn(hs, v))
    && (info.degree == 2 ==>
          exists a, b :: HalvesIn(hs, v) == {Half(edges[info.first], a), Half(edges[info.second], b)})
  }

  ghost predicate MapIs(hs: set<Half>, edges: seq<BoundaryEdge>, vertices: VertexMap) {
    && (forall v :: v in vertices ==> v != 0 && EntryIs(hs, edges, v, vertices[v]))
    && (forall h :: h in hs && h.At() != 0 ==> h.At() in vertices)
  }

  // One more endpoint: a new entry, or a higher degree.
  function Record(vertices: VertexMap, v: nat, index: nat): VertexMap {
    if v !in vertices then vertices[v := BoundaryVertex(index, 1, 0)]
    else
      var entry := vertices[v];
      vertices[v := BoundaryVertex(entry.first, entry.degree + 1, if entry.degree == 1 then index else entry.second)]
  }

  lemma RecordStep(hs: set<Half>, edges: seq<BoundaryEdge>, vertices: VertexMap, index: nat, atEnd: bool)
    requires MapIs(hs, edges, vertices) && index < |edges| && Half(edges[index], atEnd) !in hs
    requires Half(edges[index], atEnd).At() != 0
    ensures MapIs(hs + {Half(edges[index], atEnd)}, edges, Record(vertices, Half(edges[index], atEnd).At(), index))
  {
    var h, more := Half(edges[index], atEnd), hs + {Half(edges[index], atEnd)};
    var v, after := h.At(), Record(vertices, h.At(), index);
    assert HalvesIn(more, v) == HalvesIn(hs, v) + {h};
    forall u | u in after
      ensures u != 0 && EntryIs(more, edges, u, after[u])
    {
      if u != v {
        assert HalvesIn(more, u) == HalvesIn(hs, u);
        assert EntryIs(hs, edges, u, vertices[u]);
      } else if v in vertices {
        RecordKnown(hs, edges, v, vertices[v], index, atEnd);
      } else {
        assert HalvesIn(hs, v) == {};
        assert h in HalvesIn(more, v);
      }
    }
  }

  lemma RecordKnown(hs: set<Half>, edges: seq<BoundaryEdge>, v: nat, info: BoundaryVertex, index: nat, atEnd: bool)
    requires index < |edges| && EntryIs(hs, edges, v, info)
    requires Half(edges[index], atEnd) !in hs && Half(edges[index], atEnd).At() == v
    ensures EntryIs(hs + {Half(edges[index], atEnd)}, edges, v,
                    BoundaryVertex(info.first, info.degree + 1, if info.degree == 1 then index else info.second))
  {
    var h := Half(edges[index], atEnd);
    var a :| Half(edges[info.first], a) in HalvesIn(hs, v);
    assert HalvesIn(hs + {h}, v) == HalvesIn(hs, v) + {h};
    if info.degree == 1 {
      SubsetSize({Half(edges[info.first], a)}, HalvesIn(hs, v));
      assert HalvesIn(hs + {h}, v) == {Half(edges[info.first], a), Half(edges[index], atEnd)};
    }
    assert Half(edges[info.first], a) in HalvesIn(hs + {h}, v);
  }

  lemma TouchesStep(edges: seq<BoundaryEdge>, hs: set<Half>, index: nat, atEnd: bool)
    requires Distinct(edges) && index < |edges|
    ensures var h := Half(edges[index], atEnd);
      IndexTouches(edges, hs + {h})
      == if h.At() == 0 then IndexTouches(edges, hs) else IndexTouches(edges, hs) + {(index, h.At())}
  {
    var h := Half(edges[index], atEnd);
    var t, more := IndexTouches(edges, hs), IndexTouches(edges, hs + {h});
    forall touch | touch in more && touch !in t
      ensures h.At() != 0 && touch == (index, h.At())
    {
      var i: nat, b :| 0 <= i < |edges| && b in {false, true} && Half(edges[i], b) in hs + {h}
                       && Half(edges[i], b).At() != 0 && touch == (i, Half(edges[i], b).At());
    }
    if h.At() != 0 {
      assert h in hs + {h};
      assert (index, h.At()) in more;
    }
    forall touch | touch in t
      ensures touch in more
    {
    }
  }

  // The union-find and the vertex table describe the scanned halves.
  ghost predicate Scanned(edges: seq<BoundaryEdge>, hs: set<Half>, root: seq<nat>, vertices: VertexMap) {
    && |root| == |edges| && Distinct(edges)
    && Represents(root, IndexTouches(edges, hs))
    && MapIs(hs, edges, vertices)
  }

  lemma IndexTouchesBelow(edges: seq<BoundaryEdge>, hs: set<Half>)
    ensures ElementsBelow(IndexTouches(edges, hs), |edges|)
  {
  }

  lemma FirstTouches(edges: seq<BoundaryEdge>, hs: set<Half>, vertices: VertexMap, v: nat)
    requires MapIs(hs, edges, vertices) && v in vertices
    ensures vertices[v].first < |edges| && (vertices[v].first, v) in IndexTouches(edges, hs)
  {
    assert EntryIs(hs, edges, v, vertices[v]);
    var a :| Half(edges[vertices[v].first], a) in HalvesIn(hs, v);
  }

  lemma NewVertexUntouched(edges: seq<BoundaryEdge>, hs: set<Half>, vertices: VertexMap, v: nat)
    requires MapIs(hs, edges, vertices) && v !in vertices
    ensures forall i :: (i, v) !in IndexTouches(edges, hs)
  {
  }

  // One endpoint of one edge: record it, and join with the first edge there.
  method ScanEndpoint(sets: DisjointSets, vertices: VertexMap, edges: seq<BoundaryEdge>, index: nat, atEnd: bool,
                      ghost hs: set<Half>)
    returns (updated: VertexMap)
    requires sets.Valid() && Scanned(edges, hs, sets.root, vertices)
    requires index < |edges| && Half(edges[index], atEnd) !in hs && Half(edges[index], atEnd).At() != 0
    modifies sets, sets.parents, sets.sizes
    ensures sets.Valid() && sets.parents == old(sets.parents) && sets.sizes == old(sets.sizes)
    ensures Scanned(edges, hs + {Half(edges[index], atEnd)}, sets.root, updated)
  {
    hide Represents, MapIs, IndexTouches, Record, Merges;
    var v := Half(edges[index], atEnd).At();
    RecordStep(hs, edges, vertices, index, atEnd);
    TouchesStep(edges, hs, index, atEnd);
    IndexTouchesBelow(edges, hs);
    ghost var before := sets.root;
    if v in vertices {
      FirstTouches(edges, hs, vertices, v);
      var first := vertices[v].first;
      sets.Join(index, first);
      TouchKnownKey(before, sets.root, IndexTouches(edges, hs), index, first, v);
    } else {
      NewVertexUntouched(edges, hs, vertices, v);
      TouchNewKey(before, IndexTouches(edges, hs), index, v);
    }
    updated := Record(vertices, v, index);
  }

  // Endpoints without a vertex leave everything as it is.
  lemma ScanNothing(edges: seq<BoundaryEdge>, hs: set<Half>, root: seq<nat>, vertices: VertexMap, index: nat)
    requires Scanned(edges, hs, root, vertices) && index < |edges|
    requires edges[index].start == 0 && edges[index].end == 0
    ensures Scanned(edges, hs + {Half(edges[index], false)} + {Half(edges[index], true)}, root, vertices)
  {
    var one := hs + {Half(edges[index], false)};
    TouchesStep(edges, hs, index, false);
    TouchesStep(edges, one, index, true);
    forall v | v in vertices
      ensures EntryIs(one + {Half(edges[index], true)}, edges, v, vertices[v])
    {
      assert EntryIs(hs, edges, v, vertices[v]);
      assert HalvesIn(one + {Half(edges[index], true)}, v) == HalvesIn(hs, v);
    }
  }

  lemma HalvesOfPrefix(edges: seq<BoundaryEdge>, i: nat)
    requires Distinct(edges) && i < |edges|
    ensures Half(edges[i], false) !in AllHalves(Elements(edges[..i]))
    ensures Half(edges[i], true) !in AllHalves(Elements(edges[..i])) + {Half(edges[i], false)}
    ensures AllHalves(Elements(edges[..i + 1]))
         == AllHalves(Elements(edges[..i])) + {Half(edges[i], false)} + {Half(edges[i], true)}
  {
    assert edges[..i + 1] == edges[..i] + [edges[i]];
    assert Elements(edges[..i + 1]) == Elements(edges[..i]) + {edges[i]};
  }

  lemma ScanStart(edges: seq<BoundaryEdge>, root: seq<nat>)
    requires Distinct(edges) && root == seq(|edges|, i => i)
    ensures Scanned(edges, AllHalves(Elements(edges[..0])), root, map[])
  {
    assert AllHalves(Elements(edges[..0])) == {};
    assert IndexTouches(edges, {}) == {};
    EmptyRepresents(root);
  }

  ghost predicate IndexMap(edges: seq<BoundaryEdge>, indices: map<nat, nat>, count: nat) {
    && count <= |edges|
    && (forall i :: 0 <= i < count ==> edges[i].edge in indices && indices[edges[i].edge] == i)
    && (forall id :: id in indices ==> indices[id] < count && edges[indices[id]].edge == id)
  }

  ghost predicate IdsDistinct(edges: seq<BoundaryEdge>) {
    forall i, j :: 0 <= i < j < |edges| ==> edges[i].edge != edges[j].edge
  }

  // The first loop: None when an edge misses exactly one endpoint.
  method ScanEdges(edges: seq<BoundaryEdge>, sets: DisjointSets)
    returns (tables: Option<(VertexMap, map<nat, nat>)>)
    requires sets.Valid() && sets.root == seq(|edges|, i => i) && IdsDistinct(edges)
    modifies sets, sets.parents, sets.sizes
    ensures sets.Valid() && sets.parents == old(sets.parents) && sets.sizes == old(sets.sizes)
    ensures tables.Some? <==> EndpointsPaired(Elements(edges))
    ensures tables.Some? ==>
      && Scanned(edges, AllHalves(Elements(edges)), sets.root, tables.value.0)
      && IndexMap(edges, tables.value.1, |edges|)
  {
    hide Scanned;
    var vertices: VertexMap := map[];
    var indices: map<nat, nat> := map[];
    ScanStart(edges, sets.root);
    for i := 0 to |edges|
      invariant sets.Valid() && sets.parents == old(sets.parents) && sets.sizes == old(sets.sizes)
      invariant Scanned(edges, AllHalves(Elements(edges[..i])), sets.root, vertices)
      invariant IndexMap(edges, indices, i)
      invariant forall k :: 0 <= k < i ==> (edges[k].start == 0 <==> edges[k].end == 0)
    {
      var edge := edges[i];
      ghost var hs := AllHalves(Elements(edges[..i]));
      indices := if edge.edge in indices then indices else indices[edge.edge := i];
      if (edge.start == 0) != (edge.end == 0) {
        assert edge in Elements(edges);
        return None;
      }
      HalvesOfPrefix(edges, i);
      if edge.start == 0 {
        ScanNothing(edges, hs, sets.root, vertices, i);
      } else {
        vertices := ScanEndpoint(sets, vertices, edges, i, false, hs);
        vertices := ScanEndpoint(sets, vertices, edges, i, true, hs + {Half(edge, false)});
      }
    }
    assert edges[..|edges|] == edges;
    return Some((vertices, indices));
  }

  // ---------------------------------------------------------------- classes and groups

  lemma TouchingIndex(edges: seq<BoundaryEdge>, id: nat, key: nat) returns (i: nat)
    requires (id, key) in IdTouches(Elements(edges))
    ensures i < |edges| && edges[i].edge == id && (i, key) in IndexTouches(edges, AllHalves(Elements(edges)))
  {
    var e, v :| e in Elements(edges) && v in {e.start, e.end} && v != 0 && (e.edge, v) == (id, key);
    i :| 0 <= i < |edges| && edges[i] == e;
    var h := Half(e, e.start != v);
    assert h in AllHalves(Elements(edges)) && h.At() == key;
  }

  // Edge i and edge j share a root exactly when they are in one group.
  lemma SameRoot(edges: seq<BoundaryEdge>, root: seq<nat>, vertices: VertexMap, i: nat, j: nat)
    requires IdsDistinct(edges) && Scanned(edges, AllHalves(Elements(edges)), root, vertices)
    requires i < |edges| && j < |edges|
    ensures root[i] == root[j] <==> edges[j] in GroupOf(Elements(edges), edges[i].edge)
  {
    var t, ids := IndexTouches(edges, AllHalves(Elements(edges))), IdTouches(Elements(edges));
    forall x: nat, key | x < |edges|
      ensures (x, key) in t <==> (edges[x].edge, key) in ids
    {
      if (x, key) in t {
        assert edges[x] in Elements(edges);
      }
      if (edges[x].edge, key) in ids {
        var y := TouchingIndex(edges, edges[x].edge, key);
      }
    }
    forall touch | touch in ids
      ensures touch.0 in EdgeIds(edges)
    {
      var y := TouchingIndex(edges, touch.0, touch.1);
      assert EdgeIds(edges)[y] == touch.0;
    }
    RenamedConnected(t, EdgeIds(edges), ids, j, i);
  }

  const EMPTY := BoundaryGroup(Cycle, [], [], [], [], [])

  function EdgeIds(edges: seq<BoundaryEdge>): (ids: seq<nat>)
    ensures |ids| == |edges| && forall i :: 0 <= i < |ids| ==> ids[i] == edges[i].edge
  {
    seq(|edges|, i requires 0 <= i < |edges| => edges[i].edge)
  }

  // The groups hold the IDs of the first `count` edges.
  ghost predicate Collected(edges: seq<BoundaryEdge>, root: seq<nat>, groupOf: seq<nat>, owners: seq<nat>,
                            groups: seq<BoundaryGroup>, count: nat) {
    && |edges| == |root| && |owners| == |groups| && Classified(root, groupOf, owners, count)
    && forall k :: 0 <= k < |groups| ==>
         groups[k] == EMPTY.(edges := MemberIds(EdgeIds(edges), root, owners[k], count))
  }

  lemma CollectStart(edges: seq<BoundaryEdge>, root: seq<nat>, groupOf: seq<nat>)
    requires |root| == |edges| && groupOf == seq(|edges|, _ => |edges|)
    ensures Collected(edges, root, groupOf, [], [], 0)
  {
  }

  lemma CollectedSizes(edges: seq<BoundaryEdge>, root: seq<nat>, groupOf: seq<nat>, owners: seq<nat>,
                       groups: seq<BoundaryGroup>, i: nat)
    requires Collected(edges, root, groupOf, owners, groups, i)
    ensures |groupOf| == |edges| == |root|
  {
  }

  lemma CollectNew(edges: seq<BoundaryEdge>, root: seq<nat>, groupOf: seq<nat>, owners: seq<nat>,
                   groups: seq<BoundaryGroup>, i: nat)
    requires Collected(edges, root, groupOf, owners, groups, i) && i < |edges|
    requires root[i] < |edges| && groupOf[root[i]] == |edges|
    ensures Collected(edges, root, groupOf[root[i] := |groups|], owners + [root[i]],
                      (groups + [EMPTY])[|groups| := EMPTY.(edges := EMPTY.edges + [edges[i].edge])], i + 1)
  {
    ClassifyNew(EdgeIds(edges), root, groupOf, owners, i);
  }

  lemma CollectKnown(edges: seq<BoundaryEdge>, root: seq<nat>, groupOf: seq<nat>, owners: seq<nat>,
                     groups: seq<BoundaryGroup>, i: nat)
    requires Collected(edges, root, groupOf, owners, groups, i) && i < |edges|
    requires root[i] < |edges| && groupOf[root[i]] != |edges|
    ensures groupOf[root[i]] < |groups|
    ensures var k := groupOf[root[i]];
      Collected(edges, root, groupOf, owners,
                groups[k := groups[k].(edges := groups[k].edges + [edges[i].edge])], i + 1)
  {
    ClassifyKnown(EdgeIds(edges), root, groupOf, owners, i);
  }

  // The second loop: groups in order of their first edge.
  method CollectEdges(edges: seq<BoundaryEdge>, sets: DisjointSets)
    returns (groups: seq<BoundaryGroup>, groupOf: seq<nat>, ghost owners: seq<nat>)
    requires sets.Valid() && |sets.root| == |edges|
    modifies sets.parents
    ensures sets.Valid() && sets.root == old(sets.root) && sets.parents == old(sets.parents)
      && sets.sizes == old(sets.sizes)
    ensures Collected(edges, sets.root, groupOf, owners, groups, |edges|)
  {
    hide Collected, Forest, MemberIds, DisjointSets.Valid;
    groups, owners := [], [];
    groupOf := seq(|edges|, _ => |edges|);
    CollectStart(edges, sets.root, groupOf);
    for i := 0 to |edges|
      invariant sets.Valid() && sets.root == old(sets.root) && sets.parents == old(sets.parents)
        && sets.sizes == old(sets.sizes)
      invariant Collected(edges, sets.root, groupOf, owners, groups, i)
    {
      var r;
      ghost var steps;
      r, steps := sets.Find(i);
      CollectedSizes(edges, sets.root, groupOf, owners, groups, i);
      if groupOf[r] == |edges| {
        CollectNew(edges, sets.root, groupOf, owners, groups, i);
        groupOf := groupOf[r := |groups|];
        groups := groups + [EMPTY];
        owners := owners + [r];
      } else {
        CollectKnown(edges, sets.root, groupOf, owners, groups, i);
      }
      var k := groupOf[r];
      groups := groups[k := groups[k].(edges := groups[k].edges + [edges[i].edge])];
    }
  }

  // ---------------------------------------------------------------- vertices of groups

  function GroupOfVertex(root: seq<nat>, groupOf: seq<nat>, vertices: VertexMap, v: nat): nat {
    if v in vertices && vertices[v].first < |root| && root[vertices[v].first] < |groupOf|
    then groupOf[root[vertices[v].first]] else |root|
  }

  // The vertices of group k among `done`, of every degree or one kind of it.
  ghost function OwnVertices(root: seq<nat>, groupOf: seq<nat>, vertices: VertexMap, done: set<nat>, k: nat): set<nat> {
    set v | v in done && GroupOfVertex(root, groupOf, vertices, v) == k
  }

  ghost function OwnEnds(root: seq<nat>, groupOf: seq<nat>, vertices: VertexMap, done: set<nat>, k: nat): set<nat> {
    set v | v in done && GroupOfVertex(root, groupOf, vertices, v) == k && v in vertices && vertices[v].degree == 1
  }

  ghost function OwnBranches(root: seq<nat>, groupOf: seq<nat>, vertices: VertexMap, done: set<nat>, k: nat): set<nat> {
    set v | v in done && GroupOfVertex(root, groupOf, vertices, v) == k && v in vertices && vertices[v].degree > 2
  }

  predicate Lists(s: seq<nat>, elements: set<nat>) {
    Distinct(s) && Elements(s) == elements
  }

  ghost predicate GroupLists(root: seq<nat>, groupOf: seq<nat>, vertices: VertexMap, done: set<nat>,
                             edges: seq<nat>, group: BoundaryGroup, k: nat) {
    && group.edges == edges && group.kind == Cycle && group.path == []
    && Lists(group.vertices, OwnVertices(root, groupOf, vertices, done, k))
    && Lists(group.endVertices, OwnEnds(root, groupOf, vertices, done, k))
    && Lists(group.branchVertices, OwnBranches(root, groupOf, vertices, done, k))
  }

  ghost predicate AllLists(root: seq<nat>, groupOf: seq<nat>, vertices: VertexMap, done: set<nat>,
                           base: seq<BoundaryGroup>, groups: seq<BoundaryGroup>) {
    && |groups| == |base|
    && forall k :: 0 <= k < |groups| ==> GroupLists(root, groupOf, vertices, done, base[k].edges, groups[k], k)
  }

  lemma ListAppend(s: seq<nat>, elements: set<nat>, x: nat)
    requires Lists(s, elements) && x !in elements
    ensures Lists(s + [x], elements + {x})
  {
    assert x !in Elements(s);
    assert Elements(s + [x]) == Elements(s) + {x};
  }

  function AddVertex(group: BoundaryGroup, v: nat, degree: nat): BoundaryGroup {
    var grown := group.(vertices := group.vertices + [v]);
    if degree == 1 then grown.(endVertices := grown.endVertices + [v])
    else if degree > 2 then grown.(branchVertices := grown.branchVertices + [v])
    else grown
  }

  lemma VertexStep(root: seq<nat>, groupOf: seq<nat>, vertices: VertexMap, done: set<nat>, v: nat,
                   base: seq<BoundaryGroup>, groups: seq<BoundaryGroup>)
    requires AllLists(root, groupOf, vertices, done, base, groups) && v !in done && v in vertices
    requires GroupOfVertex(root, groupOf, vertices, v) < |groups|
    ensures var k := GroupOfVertex(root, groupOf, vertices, v);
      AllLists(root, groupOf, vertices, done + {v}, base, groups[k := AddVertex(groups[k], v, vertices[v].degree)])
  {
    hide Lists;
    var k := GroupOfVertex(root, groupOf, vertices, v);
    var after := groups[k := AddVertex(groups[k], v, vertices[v].degree)];
    forall j | 0 <= j < |after|
      ensures GroupLists(root, groupOf, vertices, done + {v}, base[j].edges, after[j], j)
    {
      assert GroupLists(root, groupOf, vertices, done, base[j].edges, groups[j], j);
      var all, ends := OwnVertices(root, groupOf, vertices, done, j), OwnEnds(root, groupOf, vertices, done, j);
      var branches := OwnBranches(root, groupOf, vertices, done, j);
      assert OwnVertices(root, groupOf, vertices, done + {v}, j) == if j == k then all + {v} else all;
      assert OwnEnds(root, groupOf, vertices, done + {v}, j)
          == if j == k && vertices[v].degree == 1 then ends + {v} else ends;
      assert OwnBranches(root, groupOf, vertices, done + {v}, j)
          == if j == k && vertices[v].degree > 2 then branches + {v} else branches;
      if j == k {
        ListAppend(groups[j].vertices, all, v);
        ListAppend(groups[j].endVertices, ends, v);
        ListAppend(groups[j].branchVertices, branches, v);
      }
    }
  }

  lemma NoVerticesYet(root: seq<nat>, groupOf: seq<nat>, vertices: VertexMap, groups: seq<BoundaryGroup>)
    requires forall k :: 0 <= k < |groups| ==> groups[k] == EMPTY.(edges := groups[k].edges)
    ensures AllLists(root, groupOf, vertices, {}, groups, groups)
  {
    forall k | 0 <= k < |groups|
      ensures GroupLists(root, groupOf, vertices, {}, groups[k].edges, groups[k], k)
    {
      assert groups[k] == EMPTY.(edges := groups[k].edges);
      assert Elements<nat>([]) == {};
    }
  }

  lemma BaseEmpty(edges: seq<BoundaryEdge>, root: seq<nat>, groupOf: seq<nat>, owners: seq<nat>, base: seq<BoundaryGroup>)
    requires Collected(edges, root, groupOf, owners, base, |edges|)
    ensures forall k :: 0 <= k < |base| ==> base[k] == EMPTY.(edges := base[k].edges)
  {
  }

  // The third loop visits the vertex table in no particular order.
  method CollectVertices(edges: seq<BoundaryEdge>, sets: DisjointSets, vertices: VertexMap, base: seq<BoundaryGroup>,
                         groupOf: seq<nat>, ghost owners: seq<nat>)
    returns (groups: seq<BoundaryGroup>)
    requires sets.Valid() && Collected(edges, sets.root, groupOf, owners, base, |edges|)
    requires forall v :: v in vertices ==> vertices[v].first < |edges|
    modifies sets.parents
    ensures sets.Valid() && sets.root == old(sets.root) && sets.parents == old(sets.parents)
      && sets.sizes == old(sets.sizes)
    ensures AllLists(sets.root, groupOf, vertices, vertices.Keys, base, groups)
  {
    hide AllLists, Forest, DisjointSets.Valid, MemberIds;
    groups := base;
    var remaining := vertices.Keys;
    assert vertices.Keys - remaining == {};
    BaseEmpty(edges, sets.root, groupOf, owners, base);
    NoVerticesYet(sets.root, groupOf, vertices, base);
    while remaining != {}
      invariant sets.Valid() && sets.root == old(sets.root) && sets.parents == old(sets.parents)
        && sets.sizes == old(sets.sizes)
      invariant remaining <= vertices.Keys && |groups| == |base|
      invariant AllLists(sets.root, groupOf, vertices, vertices.Keys - remaining, base, groups)
      decreases remaining
    {
      var v :| v in remaining;
      var r;
      ghost var steps;
      r, steps := sets.Find(vertices[v].first);
      var k := groupOf[r];
      VertexStep(sets.root, groupOf, vertices, vertices.Keys - remaining, v, base, groups);
      groups := groups[k := AddVertex(groups[k], v, vertices[v].degree)];
      assert vertices.Keys - remaining + {v} == vertices.Keys - (remaining - {v});
      remaining := remaining - {v};
    }
    assert vertices.Keys - {} == vertices.Keys;
  }

  // ---------------------------------------------------------------- finished groups

  // Kind and sorted lists; the default kind is a cycle.
  function Finish(group: BoundaryGroup): BoundaryGroup {
    BoundaryGroup(
      if group.branchVertices != [] then Branched else if group.endVertices != [] then Chain else group.kind,
      SortIds(group.edges), SortIds(group.vertices), SortIds(group.endVertices), SortIds(group.branchVertices),
      group.path)
  }

  lemma FirstHalf(hs: set<Half>, edges: seq<BoundaryEdge>, vertices: VertexMap, v: nat)
    requires MapIs(hs, edges, vertices) && v in vertices
    ensures vertices[v].first < |edges| && Meets(edges[vertices[v].first], v)
  {
    assert EntryIs(hs, edges, v, vertices[v]);
    var a :| Half(edges[vertices[v].first], a) in HalvesIn(hs, v);
  }

  lemma HalfMeets(e: BoundaryEdge, v: nat)
    requires Meets(e, v)
    ensures Half(e, e.start != v).At() == v
  {
  }

  // The vertices listed for a root are the vertices of its group.
  lemma VertexBelongs(edges: seq<BoundaryEdge>, root: seq<nat>, vertices: VertexMap, i: nat, v: nat)
    requires IdsDistinct(edges) && Scanned(edges, AllHalves(Elements(edges)), root, vertices) && i < |edges|
    ensures v in VerticesOf(GroupOf(Elements(edges), edges[i].edge)) <==>
      v in vertices && vertices[v].first < |edges| && root[vertices[v].first] == root[i]
    ensures v in VerticesOf(GroupOf(Elements(edges), edges[i].edge)) ==>
      vertices[v].degree == Degree(GroupOf(Elements(edges), edges[i].edge), v)
      && VertexInfo(GroupOf(Elements(edges), edges[i].edge), edges, v, vertices[v])
  {
    hide Represents, Connected;
    var g, hs := Elements(edges), AllHalves(Elements(edges));
    var group := GroupOf(g, edges[i].edge);
    if v in VerticesOf(group) {
      var e :| e in group && Meets(e, v);
      var h := Half(e, e.start != v);
      HalfMeets(e, v);
      assert e in g && h in hs;
      FirstHalf(hs, edges, vertices, v);
      assert EntryIs(hs, edges, v, vertices[v]);
      var f := edges[vertices[v].first];
      var j :| 0 <= j < |edges| && edges[j] == e;
      SameRoot(edges, root, vertices, i, j);
      SharedVertexAdjacent(g, f, e, v);
      AdjacentInGroup(g, f, e, edges[i].edge);
      SameRoot(edges, root, vertices, i, vertices[v].first);
      GroupDegrees(g, edges[i].edge, v);
      AllHalvesAt(g, v);
      DegreeMonotone(group, g, v);
    }
    if v in vertices && vertices[v].first < |edges| && root[vertices[v].first] == root[i] {
      FirstHalf(hs, edges, vertices, v);
      SameRoot(edges, root, vertices, i, vertices[v].first);
      assert edges[vertices[v].first] in group;
    }
  }

  lemma AdjacentInGroup(g: Edges, f: BoundaryEdge, e: BoundaryEdge, id: nat)
    requires f in g && e in GroupOf(g, id) && Adjacent(IdTouches(g), f.edge, e.edge)
    ensures f in GroupOf(g, id)
  {
    AdjacentConnected(IdTouches(g), f.edge, e.edge);
    ConnectedTransitive(IdTouches(g), f.edge, e.edge, id);
  }

  // Group k after sorting has exactly the members of its component.
  lemma FinishedMembers(edges: seq<BoundaryEdge>, root: seq<nat>, vertices: VertexMap, groupOf: seq<nat>,
                        owners: seq<nat>, base: seq<BoundaryGroup>, groups: seq<BoundaryGroup>, k: nat)
    returns (i: nat)
    requires IdsDistinct(edges) && Scanned(edges, AllHalves(Elements(edges)), root, vertices)
    requires Collected(edges, root, groupOf, owners, base, |edges|) && k < |base|
    requires AllLists(root, groupOf, vertices, vertices.Keys, base, groups)
    ensures i < |edges| && root[i] == owners[k]
    ensures Members(GroupOf(Elements(edges), edges[i].edge), Finish(groups[k]))
    ensures Finish(groups[k]).path == [] && Finish(groups[k]).edges != []
    ensures Tables(GroupOf(Elements(edges), edges[i].edge), edges, vertices)
  {
    hide Represents, Connected, Lists, SortIds;
    i :| 0 <= i < |edges| && root[i] == owners[k];
    var g := Elements(edges);
    var group := GroupOf(g, edges[i].edge);
    assert GroupLists(root, groupOf, vertices, vertices.Keys, base[k].edges, groups[k], k);
    GroupIds(edges, root, vertices, i);
    OwnSets(edges, root, vertices, groupOf, owners, base, k, i);
    ListsSorted(groups[k].edges, Ids(group));
    ListsSorted(groups[k].vertices, VerticesOf(group));
    ListsSorted(groups[k].endVertices, EndsOf(group));
    ListsSorted(groups[k].branchVertices, BranchesOf(group));
    GroupContains(g, edges[i]);
    assert edges[i].edge in Ids(group);
    forall v | v in VerticesOf(group)
      ensures v in vertices && VertexInfo(group, edges, v, vertices[v])
    {
      VertexBelongs(edges, root, vertices, i, v);
    }
    TableRanges(edges, AllHalves(g), vertices);
  }

  lemma TableRanges(edges: seq<BoundaryEdge>, hs: set<Half>, vertices: VertexMap)
    requires MapIs(hs, edges, vertices)
    ensures IndicesInRange(vertices, |edges|)
  {
    forall v | v in vertices
      ensures vertices[v].first < |edges| && vertices[v].second < |edges|
    {
      assert EntryIs(hs, edges, v, vertices[v]);
    }
  }

  lemma ListsSorted(s: seq<nat>, elements: set<nat>)
    requires Lists(s, elements)
    ensures Ascending(SortIds(s)) && Elements(SortIds(s)) == elements
    ensures (s == [] <==> elements == {}) && (s == [] <==> SortIds(s) == [])
  {
    if s != [] {
      assert s[0] in Elements(s);
    }
  }

  lemma GroupIds(edges: seq<BoundaryEdge>, root: seq<nat>, vertices: VertexMap, i: nat)
    requires IdsDistinct(edges) && Scanned(edges, AllHalves(Elements(edges)), root, vertices) && i < |edges|
    ensures Lists(MemberIds(EdgeIds(edges), root, root[i], |edges|), Ids(GroupOf(Elements(edges), edges[i].edge)))
  {
    hide Represents, Connected;
    var group := GroupOf(Elements(edges), edges[i].edge);
    MemberIdsElements(EdgeIds(edges), root, root[i], |edges|);
    forall id
      ensures id in MemberIds(EdgeIds(edges), root, root[i], |edges|) <==> id in Ids(group)
    {
      if id in MemberIds(EdgeIds(edges), root, root[i], |edges|) {
        var j :| 0 <= j < |edges| && root[j] == root[i] && edges[j].edge == id;
        SameRoot(edges, root, vertices, i, j);
      }
      if id in Ids(group) {
        var e :| e in group && e.edge == id;
        var j :| 0 <= j < |edges| && edges[j] == e;
        SameRoot(edges, root, vertices, i, j);
      }
    }
  }

  lemma OwnSets(edges: seq<BoundaryEdge>, root: seq<nat>, vertices: VertexMap, groupOf: seq<nat>,
                owners: seq<nat>, base: seq<BoundaryGroup>, k: nat, i: nat)
    requires IdsDistinct(edges) && Scanned(edges, AllHalves(Elements(edges)), root, vertices) && i < |edges|
    requires Collected(edges, root, groupOf, owners, base, |edges|) && k < |base| && root[i] == owners[k]
    ensures var group := GroupOf(Elements(edges), edges[i].edge);
      && OwnVertices(root, groupOf, vertices, vertices.Keys, k) == VerticesOf(group)
      && OwnEnds(root, groupOf, vertices, vertices.Keys, k) == EndsOf(group)
      && OwnBranches(root, groupOf, vertices, vertices.Keys, k) == BranchesOf(group)
  {
    hide Represents, Connected, VertexInfo, MemberIds;
    var group := GroupOf(Elements(edges), edges[i].edge);
    forall v
      ensures v in VerticesOf(group) <==> v in vertices && GroupOfVertex(root, groupOf, vertices, v) == k
      ensures v in VerticesOf(group) ==> vertices[v].degree == Degree(group, v)
    {
      VertexBelongs(edges, root, vertices, i, v);
      if v in vertices {
        FirstHalf(AllHalves(Elements(edges)), edges, vertices, v);
      }
    }
  }

  // Everything the trace of group k needs.
  lemma GroupReady(edges: seq<BoundaryEdge>, root: seq<nat>, vertices: VertexMap, indices: map<nat, nat>,
                   groupOf: seq<nat>, owners: seq<nat>, base: seq<BoundaryGroup>, groups: seq<BoundaryGroup>, k: nat)
    returns (id: nat)
    requires IdsDistinct(edges) && EndpointsPaired(Elements(edges)) && IndexMap(edges, indices, |edges|)
    requires Scanned(edges, AllHalves(Elements(edges)), root, vertices)
    requires Collected(edges, root, groupOf, owners, base, |edges|) && k < |base|
    requires AllLists(root, groupOf, vertices, vertices.Keys, base, groups)
    ensures var g := GroupOf(Elements(edges), id);
      && SoundGroup(g) && DistinctIds(g) && Members(g, Finish(groups[k]))
      && Tables(g, edges, vertices) && FirstEdge(g, edges, Finish(groups[k]), indices)
  {
    hide Represents, Connected, Lists, SortIds, Collected, AllLists, Scanned, SoundGroup, EndpointsPaired, Tables;
    var i := FinishedMembers(edges, root, vertices, groupOf, owners, base, groups, k);
    var all := Elements(edges);
    ListsLength(root, groupOf, vertices, base, groups);
    IdsMatchEdges(edges);
    id := edges[i].edge;
    GroupSound(all, edges[i]);
    var g, group := GroupOf(all, id), Finish(groups[k]);
    assert group.edges[0] in Elements(group.edges);
    var e :| e in g && e.edge == group.edges[0];
    var j :| 0 <= j < |edges| && edges[j] == e;
    assert edges[j].edge in indices;
  }

  lemma IdsMatchEdges(edges: seq<BoundaryEdge>)
    requires IdsDistinct(edges)
    ensures DistinctIds(Elements(edges)) && Distinct(edges)
  {
  }

  lemma TracedGroup(g: Edges, id: nat, group: BoundaryGroup)
    requires DistinctIds(g) && group.edges != [] && IsGroup(GroupOf(g, id), group)
    ensures GroupAt(g, group)
  {
    hide CanonicalPath, Connected;
    assert group.edges[0] in Elements(group.edges);
    var e :| e in GroupOf(g, id) && e.edge == group.edges[0];
    SameGroup(g, e.edge, id);
  }

  // Different groups have different smallest edges, and every edge is in one.
  lemma FrontsDiffer(edges: seq<BoundaryEdge>, root: seq<nat>, groupOf: seq<nat>, owners: seq<nat>,
                     base: seq<BoundaryGroup>, result: seq<BoundaryGroup>)
    requires IdsDistinct(edges) && Collected(edges, root, groupOf, owners, base, |edges|)
    requires |result| == |base|
    requires forall k :: 0 <= k < |base| ==> result[k].edges == SortIds(base[k].edges) && result[k].edges != []
    ensures KeysDistinct(result, Front)
    ensures forall e :: e in Elements(edges) ==> exists k :: 0 <= k < |result| && e.edge in result[k].edges
  {
    hide SortIds, MemberIds;
    forall j: nat, k: nat | j < k < |result|
      ensures Front(result[j]) != Front(result[k])
    {
      var id := result[j].edges[0];
      assert id in result[j].edges;
      if id == result[k].edges[0] {
        assert id in result[k].edges;
        var x := OwnedIndex(edges, root, groupOf, owners, base, result[j].edges, j, id);
        var y := OwnedIndex(edges, root, groupOf, owners, base, result[k].edges, k, id);
      }
    }
    forall e | e in Elements(edges)
      ensures exists k :: 0 <= k < |result| && e.edge in result[k].edges
    {
      var i: nat :| i < |edges| && edges[i] == e;
      var k := groupOf[root[i]];
      MemberIdsElements(EdgeIds(edges), root, root[i], |edges|);
      SortedMembers(base[k].edges, e.edge);
    }
  }

  lemma SortedMembers(s: seq<nat>, id: nat)
    ensures id in SortIds(s) <==> id in s
  {
    assert id in SortIds(s) <==> id in Elements(SortIds(s));
    assert id in s <==> id in Elements(s);
  }

  lemma OwnedIndex(edges: seq<BoundaryEdge>, root: seq<nat>, groupOf: seq<nat>, owners: seq<nat>,
                   base: seq<BoundaryGroup>, ids: seq<nat>, k: nat, id: nat) returns (i: nat)
    requires IdsDistinct(edges) && Collected(edges, root, groupOf, owners, base, |edges|)
    requires k < |base| && ids == SortIds(base[k].edges) && id in ids
    ensures i < |edges| && edges[i].edge == id && root[i] == owners[k]
  {
    hide SortIds, MemberIds;
    SortedMembers(base[k].edges, id);
    MemberIdsElements(EdgeIds(edges), root, owners[k], |edges|);
    i :| 0 <= i < |edges| && root[i] == owners[k] && edges[i].edge == id;
  }

  lemma SortedByFront(g: Edges, groups: seq<BoundaryGroup>)
    requires KeysDistinct(groups, Front) && forall k :: 0 <= k < |groups| ==> GroupAt(g, groups[k])
    requires forall e :: e in g ==> exists k :: 0 <= k < |groups| && e.edge in groups[k].edges
    ensures IsGrouping(g, SortBy(groups, Front))
  {
    hide GroupAt, SortBy, Front;
    var r := SortBy(groups, Front);
    SortKeepsKeys(groups, Front);
    forall k | 0 <= k < |r|
      ensures GroupAt(g, r[k])
    {
      assert r[k] in groups;
    }
    forall e | e in g
      ensures exists k :: 0 <= k < |r| && e.edge in r[k].edges
    {
      var k :| 0 <= k < |groups| && e.edge in groups[k].edges;
      assert groups[k] in r;
    }
  }

  // The whole of GroupBoundaryEdges. It fails exactly when an edge misses one
  // endpoint; the failure exits of the trace are never taken.
  method GroupBoundaryEdges(edges: seq<BoundaryEdge>) returns (r: Result<seq<BoundaryGroup>>)
    requires IdsDistinct(edges)
    ensures r.Ok? <==> EndpointsPaired(Elements(edges))
    ensures r.Err? ==> r.error == InvalidRecord
    ensures r.Ok? ==> IsGrouping(Elements(edges), r.value)
  {
    hide Scanned, Collected, AllLists, Finish, IndexMap, DisjointSets.Valid, GroupAt, Tables, FirstEdge,
         EndpointsPaired, Members, SoundGroup, IsGrouping, CanonicalPath, DistinctIds;
    var sets := new DisjointSets(|edges|);
    var tables := ScanEdges(edges, sets);
    if tables.None? {
      return Err(InvalidRecord);
    }
    var vertices, indices := tables.value.0, tables.value.1;
    FirstsInRange(edges, sets.root, vertices);
    var base, groupOf;
    ghost var owners;
    base, groupOf, owners := CollectEdges(edges, sets);
    TablesInRange(edges, indices);
    var groups := CollectVertices(edges, sets, vertices, base, groupOf, owners);
    ListsLength(sets.root, groupOf, vertices, base, groups);
    ghost var root := sets.root;
    var result := groups;
    for k := 0 to |result|
      invariant |result| == |groups|
      invariant forall j :: 0 <= j < k ==> result[j] == Finish(groups[j])
      invariant forall j :: k <= j < |groups| ==> result[j] == groups[j]
    {
      result := result[k := Finish(result[k])];
    }
    for k := 0 to |result|
      invariant |result| == |groups|
      invariant forall j :: k <= j < |groups| ==> result[j] == Finish(groups[j])
      invariant forall j :: 0 <= j < k ==>
        result[j] == Finish(groups[j]).(path := result[j].path) && GroupAt(Elements(edges), result[j])
    {
      ghost var id := GroupReady(edges, root, vertices, indices, groupOf, owners, base, groups, k);
      var path := TraceBoundaryPath(result[k], edges, indices, vertices);
      TraceSucceeds(GroupOf(Elements(edges), id), edges, indices, vertices, result[k]);
      if path.Err? {
        return Err(InvalidRecord);
      }
      WithPath(Elements(edges), id, edges, indices, result[k], path.value);
      result := result[k := result[k].(path := path.value)];
    }
    FinishedEdges(root, groupOf, vertices, base, groups, result);
    forall k | 0 <= k < |result|
      ensures result[k].edges != []
    {
      assert GroupAt(Elements(edges), result[k]);
      GroupNonempty(Elements(edges), result[k]);
    }
    FrontsDiffer(edges, root, groupOf, owners, base, result);
    SortedByFront(Elements(edges), result);
    return Ok(SortBy(result, Front));
  }

  lemma GroupNonempty(g: Edges, group: BoundaryGroup)
    requires GroupAt(g, group)
    ensures group.edges != []
  {
  }

  lemma FinishedEdges(root: seq<nat>, groupOf: seq<nat>, vertices: VertexMap, base: seq<BoundaryGroup>,
                      groups: seq<BoundaryGroup>, result: seq<BoundaryGroup>)
    requires AllLists(root, groupOf, vertices, vertices.Keys, base, groups) && |result| == |groups|
    requires forall k :: 0 <= k < |groups| ==> result[k] == Finish(groups[k]).(path := result[k].path)
    ensures forall k :: 0 <= k < |base| ==> result[k].edges == SortIds(base[k].edges)
  {
    hide SortIds, Lists;
    forall k | 0 <= k < |base|
      ensures result[k].edges == SortIds(base[k].edges)
    {
      assert GroupLists(root, groupOf, vertices, vertices.Keys, base[k].edges, groups[k], k);
    }
  }

  lemma WithPath(g: Edges, id: nat, edges: seq<BoundaryEdge>, indices: map<nat, nat>, group: BoundaryGroup,
                 path: seq<PathEdge>)
    requires g == Elements(edges) && IdsDistinct(edges)
    requires Members(GroupOf(g, id), group) && FirstEdge(GroupOf(g, id), edges, group, indices)
    requires CanonicalPath(GroupOf(g, id), path)
    ensures GroupAt(g, group.(path := path))
  {
    hide CanonicalPath, Connected, KindOf;
    IdsMatchEdges(edges);
    TracedGroup(g, id, group.(path := path));
  }

  lemma ListsLength(root: seq<nat>, groupOf: seq<nat>, vertices: VertexMap, base: seq<BoundaryGroup>,
                    groups: seq<BoundaryGroup>)
    requires AllLists(root, groupOf, vertices, vertices.Keys, base, groups)
    ensures |groups| == |base|
  {
  }

  lemma FirstsInRange(edges: seq<BoundaryEdge>, root: seq<nat>, vertices: VertexMap)
    requires Scanned(edges, AllHalves(Elements(edges)), root, vertices)
    ensures IndicesInRange(vertices, |edges|) && |root| == |edges|
  {
    TableRanges(edges, AllHalves(Elements(edges)), vertices);
  }

  lemma TablesInRange(edges: seq<BoundaryEdge>, indices: map<nat, nat>)
    requires IndexMap(edges, indices, |edges|)
    ensures forall id :: id in indices ==> indices[id] < |edges|
  {
  }

  // Permuting the edges changes nothing.
  lemma EdgeOrderIrrelevant(edges: seq<BoundaryEdge>, other: seq<BoundaryEdge>,
                            a: seq<BoundaryGroup>, b: seq<BoundaryGroup>)
    requires IdsDistinct(edges) && multiset(edges) == multiset(other) && EndpointsPaired(Elements(edges))
    requires IsGrouping(Elements(edges), a) && IsGrouping(Elements(other), b)
    ensures a == b
  {
    forall e
      ensures e in Elements(edges) <==> e in Elements(other)
    {
      assert e in edges <==> e in multiset(edges);
      assert e in other <==> e in multiset(other);
    }
    assert Elements(edges) == Elements(other);
    IdsMatchEdges(edges);
    GroupingUnique(Elements(edges), a, b);
  }
}
