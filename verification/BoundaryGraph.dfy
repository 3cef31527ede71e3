// Boundary edges as a multigraph: walks, degrees and the parity argument that
// makes every unbranched connected group a single chain or cycle.
module BoundaryGraph {

  datatype BoundaryEdge = BoundaryEdge(edge: nat, fin: nat, start: nat, end: nat)

  // An enumeration value outside the two directions is Unknown.
  datatype Sense = Forward | Reverse | Unknown

  datatype PathEdge = PathEdge(edge: nat, fin: nat, start: nat, end: nat, sense: Sense)

  // One end of an edge; a self-loop has two halves at its vertex.
  datatype Half = Half(edge: BoundaryEdge, atEnd: bool) {
    function At(): nat {
      if atEnd then edge.end else edge.start
    }
  }

  type Edges = set<BoundaryEdge>

  function HalvesAt(g: Edges, v: nat): set<Half> {
    set e, b | e in g && b in {false, true} && Half(e, b).At() == v :: Half(e, b)
  }

  function Degree(g: Edges, v: nat): nat {
    |HalvesAt(g, v)|
  }

  function Count(b: bool): nat {
    if b then 1 else 0
  }

  lemma SubsetSize<T>(a: set<T>, b: set<T>)
    requires a <= b
    ensures |a| <= |b|
    ensures |a| == |b| ==> a == b
  {
    assert b == a + (b - a);
  }

  lemma DegreeMonotone(g: Edges, more: Edges, v: nat)
    requires g <= more
    ensures Degree(g, v) <= Degree(more, v)
    ensures Degree(g, v) == Degree(more, v) ==> HalvesAt(g, v) == HalvesAt(more, v)
  {
    SubsetSize(HalvesAt(g, v), HalvesAt(more, v));
  }

  lemma DegreeAdded(g: Edges, e: BoundaryEdge, v: nat)
    requires e !in g
    ensures Degree(g + {e}, v) == Degree(g, v) + Count(e.start == v) + Count(e.end == v)
  {
    var low := if e.start == v then {Half(e, false)} else {};
    var high := if e.end == v then {Half(e, true)} else {};
    assert HalvesAt(g + {e}, v) == HalvesAt(g, v) + low + high;
    assert HalvesAt(g, v) !! low && HalvesAt(g, v) + low !! high;
  }

  predicate Meets(e: BoundaryEdge, v: nat) {
    e.start == v || e.end == v
  }

  lemma TouchedHasDegree(g: Edges, e: BoundaryEdge, v: nat)
    requires e in g && Meets(e, v)
    ensures Degree(g, v) >= 1
  {
    var h := Half(e, e.start != v);
    assert h in HalvesAt(g, v);
  }

  // ---------------------------------------------------------------- walks

  function Other(e: BoundaryEdge, v: nat): nat {
    if v == e.start then e.end else e.start
  }

  // The vertex reached from v along the edges of w.
  function WalkEnd(w: seq<BoundaryEdge>, v: nat): nat {
    if w == [] then v else Other(w[|w| - 1], WalkEnd(w[..|w| - 1], v))
  }

  predicate IsWalk(w: seq<BoundaryEdge>, v: nat) {
    w == [] || (IsWalk(w[..|w| - 1], v) && Meets(w[|w| - 1], WalkEnd(w[..|w| - 1], v)))
  }

  predicate Distinct<T(==)>(s: seq<T>) {
    forall i, j :: 0 <= i < j < |s| ==> s[i] != s[j]
  }

  function Elements<T>(s: seq<T>): set<T> {
    set x | x in s
  }

  // A walk that uses no edge of g twice.
  predicate Trail(w: seq<BoundaryEdge>, v: nat, g: Edges) {
    IsWalk(w, v) && Distinct(w) && Elements(w) <= g
  }

  function StepFrom(e: BoundaryEdge, v: nat): PathEdge {
    if v == e.start then PathEdge(e.edge, e.fin, v, e.end, Forward) else PathEdge(e.edge, e.fin, v, e.start, Reverse)
  }

  function PathOf(w: seq<BoundaryEdge>, v: nat): (path: seq<PathEdge>)
    ensures |path| == |w|
  {
    if w == [] then []
    else PathOf(w[..|w| - 1], v) + [StepFrom(w[|w| - 1], WalkEnd(w[..|w| - 1], v))]
  }

  lemma Extended(w: seq<BoundaryEdge>, e: BoundaryEdge, v: nat)
    ensures (w + [e])[..|w|] == w
    ensures WalkEnd(w + [e], v) == Other(e, WalkEnd(w, v))
    ensures IsWalk(w + [e], v) <==> IsWalk(w, v) && Meets(e, WalkEnd(w, v))
    ensures Elements(w + [e]) == Elements(w) + {e}
    ensures PathOf(w + [e], v) == PathOf(w, v) + [StepFrom(e, WalkEnd(w, v))]
  {
    assert (w + [e])[..|w|] == w;
    assert forall x :: x in w + [e] <==> x in w || x == e;
  }

  lemma TrailExtended(w: seq<BoundaryEdge>, e: BoundaryEdge, v: nat, g: Edges)
    requires Trail(w, v, g) && e in g && e !in Elements(w) && Meets(e, WalkEnd(w, v))
    ensures Trail(w + [e], v, g)
  {
    Extended(w, e, v);
  }

  lemma TrailPrefix(w: seq<BoundaryEdge>, v: nat, g: Edges)
    requires w != [] && Trail(w, v, g)
    ensures Trail(w[..|w| - 1], v, g) && w[|w| - 1] !in Elements(w[..|w| - 1])
    ensures Elements(w) == Elements(w[..|w| - 1]) + {w[|w| - 1]}
    ensures Meets(w[|w| - 1], WalkEnd(w[..|w| - 1], v)) && Meets(w[|w| - 1], WalkEnd(w, v))
  {
    var shorter, e := w[..|w| - 1], w[|w| - 1];
    assert w == shorter + [e];
    Extended(shorter, e, v);
  }

  // Every passage through a vertex uses two halves; only the two ends of the
  // walk can leave an odd number.
  lemma {:induction false} Parity(w: seq<BoundaryEdge>, start: nat, g: Edges, v: nat)
    requires Trail(w, start, g)
    ensures (Degree(Elements(w), v) + Count(v == start) + Count(v == WalkEnd(w, start))) % 2 == 0
  {
    if w == [] {
      assert HalvesAt({}, v) == {};
    } else {
      TrailPrefix(w, start, g);
      Parity(w[..|w| - 1], start, g, v);
      DegreeAdded(Elements(w[..|w| - 1]), w[|w| - 1], v);
    }
  }

  lemma {:induction false} StartTouched(w: seq<BoundaryEdge>, v: nat, g: Edges)
    requires w != [] && Trail(w, v, g)
    ensures exists e :: e in Elements(w) && Meets(e, v)
    ensures exists e :: e in Elements(w) && Meets(e, WalkEnd(w, v))
  {
    TrailPrefix(w, v, g);
    if |w| == 1 {
      assert Meets(w[0], v);
    } else {
      StartTouched(w[..|w| - 1], v, g);
      var e :| e in Elements(w[..|w| - 1]) && Meets(e, v);
      assert e in Elements(w);
    }
    assert w[|w| - 1] in Elements(w);
  }

  lemma EndsHaveDegree(w: seq<BoundaryEdge>, v: nat, g: Edges)
    requires w != [] && Trail(w, v, g)
    ensures Degree(Elements(w), v) >= 1 && Degree(Elements(w), WalkEnd(w, v)) >= 1
  {
    StartTouched(w, v, g);
    var e :| e in Elements(w) && Meets(e, v);
    TouchedHasDegree(Elements(w), e, v);
    var f :| f in Elements(w) && Meets(f, WalkEnd(w, v));
    TouchedHasDegree(Elements(w), f, WalkEnd(w, v));
  }

  // ---------------------------------------------------------------- groups

  predicate HasVertices(g: Edges) {
    forall e :: e in g ==> e.start != 0 && e.end != 0
  }

  // No vertex of s is shared with an edge of g outside s.
  ghost predicate Closed(g: Edges, s: Edges) {
    forall e, f, v :: e in s && f in g && Meets(e, v) && Meets(f, v) ==> f in s
  }

  // g cannot be split into two parts without common vertices.
  ghost predicate ConnectedGroup(g: Edges) {
    HasVertices(g) && forall s :: s != {} && s <= g && Closed(g, s) ==> s == g
  }

  ghost predicate Unbranched(g: Edges) {
    forall e, v :: e in g && Meets(e, v) ==> Degree(g, v) <= 2
  }

  ghost predicate NoEnds(g: Edges) {
    forall e, v :: e in g && Meets(e, v) ==> Degree(g, v) != 1
  }

  // A walk that has used up every vertex it touches has used up the group.
  lemma UsedUp(g: Edges, w: seq<BoundaryEdge>, v: nat)
    requires ConnectedGroup(g) && w != [] && Trail(w, v, g)
    requires forall e, x :: e in Elements(w) && Meets(e, x) ==> Degree(Elements(w), x) == Degree(g, x)
    ensures Elements(w) == g
  {
    var s := Elements(w);
    assert w[0] in s;
    forall e, f, x | e in s && f in g && Meets(e, x) && Meets(f, x)
      ensures f in s
    {
      DegreeMonotone(s, g, x);
      assert Half(f, f.start != x) in HalvesAt(g, x);
    }
  }

  // What is known after a nonempty trail from an end of a chain, or from any
  // vertex of a group without ends.
  ghost predicate GoodStart(g: Edges, v: nat) {
    Degree(g, v) == 1 || NoEnds(g)
  }

  lemma TouchedDegrees(g: Edges, w: seq<BoundaryEdge>, v: nat, x: nat)
    requires Unbranched(g) && w != [] && Trail(w, v, g)
    requires exists e :: e in Elements(w) && Meets(e, x)
    ensures 1 <= Degree(Elements(w), x) <= Degree(g, x) <= 2
  {
    var e :| e in Elements(w) && Meets(e, x);
    TouchedHasDegree(Elements(w), e, x);
    DegreeMonotone(Elements(w), g, x);
  }

  // An unfinished trail stops at a vertex of degree two, entered once.
  lemma Progress(g: Edges, w: seq<BoundaryEdge>, v: nat)
    requires ConnectedGroup(g) && Unbranched(g) && GoodStart(g, v)
    requires w != [] && Trail(w, v, g) && Elements(w) != g
    ensures Degree(g, WalkEnd(w, v)) == 2 && Degree(Elements(w), WalkEnd(w, v)) == 1
  {
    var s, c := Elements(w), WalkEnd(w, v);
    StartTouched(w, v, g);
    TouchedDegrees(g, w, v, v);
    TouchedDegrees(g, w, v, c);
    Parity(w, v, g, v);
    Parity(w, v, g, c);
    if Degree(s, c) == Degree(g, c) {
      forall e, x | e in s && Meets(e, x)
        ensures Degree(s, x) == Degree(g, x)
      {
        TouchedDegrees(g, w, v, x);
        Parity(w, v, g, x);
        assert e in g;
      }
      UsedUp(g, w, v);
    }
  }

  // A finished trail ends at the other end of a chain, or where it started.
  lemma Finished(g: Edges, w: seq<BoundaryEdge>, v: nat)
    requires Unbranched(g) && GoodStart(g, v)
    requires w != [] && Trail(w, v, g) && Elements(w) == g
    ensures NoEnds(g) ==> WalkEnd(w, v) == v
    ensures Degree(g, v) == 1 ==> WalkEnd(w, v) != v && Degree(g, WalkEnd(w, v)) == 1
    ensures Degree(g, v) == 1 ==> forall x :: Degree(g, x) == 1 ==> x == v || x == WalkEnd(w, v)
  {
    var c := WalkEnd(w, v);
    StartTouched(w, v, g);
    TouchedDegrees(g, w, v, v);
    TouchedDegrees(g, w, v, c);
    Parity(w, v, g, v);
    Parity(w, v, g, c);
    forall x | Degree(g, v) == 1 && Degree(g, x) == 1
      ensures x == v || x == c
    {
      Parity(w, v, g, x);
    }
  }

  // An unfinished trail can be extended.
  lemma NextEdge(g: Edges, w: seq<BoundaryEdge>, v: nat) returns (e: BoundaryEdge)
    requires ConnectedGroup(g) && Unbranched(g) && GoodStart(g, v)
    requires w != [] && Trail(w, v, g) && Elements(w) != g
    ensures e in g && e !in Elements(w) && Meets(e, WalkEnd(w, v))
  {
    Progress(g, w, v);
    var c := WalkEnd(w, v);
    if HalvesAt(g, c) <= HalvesAt(Elements(w), c) {
      SubsetSize(HalvesAt(g, c), HalvesAt(Elements(w), c));
    }
    var h :| h in HalvesAt(g, c) && h !in HalvesAt(Elements(w), c);
    e := h.edge;
  }

  lemma TrailLength(w: seq<BoundaryEdge>, v: nat, g: Edges)
    requires Trail(w, v, g)
    ensures |Elements(w)| == |w| <= |g|
  {
    DistinctSize(w);
    SubsetSize(Elements(w), g);
  }

  lemma {:induction false} DistinctSize<T>(s: seq<T>)
    requires Distinct(s)
    ensures |Elements(s)| == |s|
  {
    if s != [] {
      var shorter, x := s[..|s| - 1], s[|s| - 1];
      DistinctSize(shorter);
      assert Elements(s) == Elements(shorter) + {x};
    }
  }

  lemma {:induction false} FullTrail(g: Edges, w: seq<BoundaryEdge>, v: nat) returns (full: seq<BoundaryEdge>)
    requires ConnectedGroup(g) && Unbranched(g) && GoodStart(g, v)
    requires w != [] && Trail(w, v, g)
    ensures full != [] && Trail(full, v, g) && Elements(full) == g
    decreases |g| - |w|
  {
    TrailLength(w, v, g);
    if Elements(w) == g {
      full := w;
    } else {
      var e := NextEdge(g, w, v);
      TrailExtended(w, e, v, g);
      TrailLength(w + [e], v, g);
      full := FullTrail(g, w + [e], v);
    }
  }

  // A connected group with degrees at most two has no end, or exactly two.
  lemma TwoEnds(g: Edges, v: nat) returns (other: nat)
    requires ConnectedGroup(g) && Unbranched(g) && Degree(g, v) == 1
    ensures other != v && Degree(g, other) == 1
    ensures forall x :: Degree(g, x) == 1 <==> x == v || x == other
  {
    var h :| h in HalvesAt(g, v);
    var w := [] + [h.edge];
    Extended([], h.edge, v);
    assert Trail(w, v, g);
    var full := FullTrail(g, w, v);
    Finished(g, full, v);
    other := WalkEnd(full, v);
  }
}
