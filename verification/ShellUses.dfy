// The fins of a shell's faces, as sets that do not depend on the face order.
module ShellUses {
  import opened BoundaryGraph

  datatype Fin = Fin(fin: nat, edge: nat, start: nat, end: nat, sense: Sense)

  datatype Loop = Loop(fins: seq<Fin>, isolated: bool)

  datatype Face = Face(face: nat, loops: seq<Loop>)

  datatype ShellBoundary = ShellBoundary(shell: nat, faces: seq<Face>)

  // Occurrence `index` in loop `loop` of face `face`.
  datatype Use = Use(face: nat, loop: nat, index: nat, fin: Fin)

  datatype LoopUse = LoopUse(face: nat, loop: nat)

  function LoopUses(face: nat, loop: nat, fins: seq<Fin>): set<Use> {
    set j | 0 <= j < |fins| :: Use(face, loop, j, fins[j])
  }

  // The uses in the first m loops of one face.
  function FaceUses(f: Face, m: nat): set<Use>
    requires m <= |f.loops|
  {
    set i, j | 0 <= i < m && 0 <= j < |f.loops[i].fins| :: Use(f.face, i, j, f.loops[i].fins[j])
  }

  function FaceIsolated(f: Face, m: nat): set<LoopUse>
    requires m <= |f.loops|
  {
    set i | 0 <= i < m && f.loops[i].isolated :: LoopUse(f.face, i)
  }

  function FaceLoops(f: Face): set<LoopUse> {
    set i | 0 <= i < |f.loops| :: LoopUse(f.face, i)
  }

  function UsesOf(faces: set<Face>): set<Use> {
    set f, i, j | f in faces && 0 <= i < |f.loops| && 0 <= j < |f.loops[i].fins|
      :: Use(f.face, i, j, f.loops[i].fins[j])
  }

  function IsolatedOf(faces: set<Face>): set<LoopUse> {
    set f, i | f in faces && 0 <= i < |f.loops| && f.loops[i].isolated :: LoopUse(f.face, i)
  }

  function LoopsOf(faces: set<Face>): set<LoopUse> {
    set f, i | f in faces && 0 <= i < |f.loops| :: LoopUse(f.face, i)
  }

  function FaceIds(faces: set<Face>): set<nat> {
    set f | f in faces :: f.face
  }

  function EdgesOf(uses: set<Use>): set<nat> {
    set u | u in uses :: u.fin.edge
  }

  function EdgeUses(uses: set<Use>, e: nat): set<Use> {
    set u | u in uses && u.fin.edge == e
  }

  function SenseUses(uses: set<Use>, e: nat, sense: Sense): set<Use> {
    set u | u in uses && u.fin.edge == e && u.fin.sense == sense
  }

  function UsesIn(uses: set<Use>, faces: set<nat>): set<Use> {
    set u | u in uses && u.face in faces
  }

  function LoopsIn(loops: set<LoopUse>, faces: set<nat>): set<LoopUse> {
    set l | l in loops && l.face in faces
  }

  predicate UsableFin(fin: Fin) {
    fin.edge != 0 && fin.sense != Unknown
  }

  predicate UsableLoop(loop: Loop) {
    (loop.isolated ==> loop.fins == []) && forall j :: 0 <= j < |loop.fins| ==> UsableFin(loop.fins[j])
  }

  predicate UsableFace(f: Face) {
    f.face != 0 && forall i :: 0 <= i < |f.loops| ==> UsableLoop(f.loops[i])
  }

  // ---------------------------------------------------------------- growth

  lemma {:induction false} LoopUsesSize(face: nat, loop: nat, fins: seq<Fin>)
    ensures |LoopUses(face, loop, fins)| == |fins|
  {
    if fins == [] {
      assert LoopUses(face, loop, fins) == {};
    } else {
      var n := |fins| - 1;
      LoopUsesSize(face, loop, fins[..n]);
      LoopUsesStep(face, loop, fins, n);
      assert fins[..|fins|] == fins;
    }
  }

  lemma LoopUsesStep(face: nat, loop: nat, fins: seq<Fin>, j: nat)
    requires j < |fins|
    ensures LoopUses(face, loop, fins[..j + 1]) == LoopUses(face, loop, fins[..j]) + {Use(face, loop, j, fins[j])}
    ensures Use(face, loop, j, fins[j]) !in LoopUses(face, loop, fins[..j])
  {
    var all, before := LoopUses(face, loop, fins[..j + 1]), LoopUses(face, loop, fins[..j]);
    forall u | u in before + {Use(face, loop, j, fins[j])}
      ensures u in all
    {
      assert fins[..j + 1][u.index] == u.fin;
    }
  }

  lemma FaceUsesStep(f: Face, m: nat)
    requires m < |f.loops|
    ensures FaceUses(f, m + 1) == FaceUses(f, m) + LoopUses(f.face, m, f.loops[m].fins)
    ensures FaceIsolated(f, m + 1) == FaceIsolated(f, m) + (if f.loops[m].isolated then {LoopUse(f.face, m)} else {})
    ensures forall u :: u in FaceUses(f, m) ==> u.face == f.face && u.loop < m
    ensures forall l :: l in FaceIsolated(f, m) ==> l.face == f.face && l.loop < m
  {
  }

  lemma {:induction false} FaceLoopsSize(f: Face)
    ensures |FaceLoops(f)| == |f.loops|
    decreases |f.loops|
  {
    if f.loops == [] {
      assert FaceLoops(f) == {};
    } else {
      var n := |f.loops| - 1;
      var shorter := Face(f.face, f.loops[..n]);
      FaceLoopsSize(shorter);
      assert FaceLoops(f) == FaceLoops(shorter) + {LoopUse(f.face, n)};
    }
  }

  lemma FacesStep(faces: set<Face>, f: Face)
    ensures UsesOf(faces + {f}) == UsesOf(faces) + FaceUses(f, |f.loops|)
    ensures IsolatedOf(faces + {f}) == IsolatedOf(faces) + FaceIsolated(f, |f.loops|)
    ensures LoopsOf(faces + {f}) == LoopsOf(faces) + FaceLoops(f)
  {
    UsesStep(faces, f);
    forall l
      ensures l in IsolatedOf(faces + {f}) <==> l in IsolatedOf(faces) + FaceIsolated(f, |f.loops|)
      ensures l in LoopsOf(faces + {f}) <==> l in LoopsOf(faces) + FaceLoops(f)
    {
    }
  }

  lemma UsesStep(faces: set<Face>, f: Face)
    ensures UsesOf(faces + {f}) == UsesOf(faces) + FaceUses(f, |f.loops|)
  {
    forall u
      ensures u in UsesOf(faces + {f}) <==> u in UsesOf(faces) + FaceUses(f, |f.loops|)
    {
    }
  }

  lemma FacesMonotone(faces: set<Face>, more: set<Face>)
    requires faces <= more
    ensures UsesOf(faces) <= UsesOf(more) && IsolatedOf(faces) <= IsolatedOf(more) && LoopsOf(faces) <= LoopsOf(more)
  {
  }

  // Only the faces' own IDs occur.
  lemma UsesHaveFaces(faces: set<Face>)
    ensures forall u :: u in UsesOf(faces) ==> u.face in FaceIds(faces)
    ensures forall l :: l in IsolatedOf(faces) ==> l.face in FaceIds(faces)
    ensures forall l :: l in LoopsOf(faces) ==> l.face in FaceIds(faces)
  {
  }

  lemma UsedEdges(uses: set<Use>, u: Use)
    ensures EdgesOf(uses + {u}) == EdgesOf(uses) + {u.fin.edge}
  {
  }
}
