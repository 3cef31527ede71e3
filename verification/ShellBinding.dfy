// Binding all paths of a shell: one table of source fins, then every group.
module ShellBinding {
  import opened Results
  import opened BoundaryGraph
  import opened BoundaryGroups
  import opened PathBinding
  import opened ShellUses
  import opened ShellSummary

  datatype TrimLoop = TrimLoop(fins: seq<BoundFin>, isolated: bool)

  datatype FaceTrimming = FaceTrimming(face: nat, surface: nat, loops: seq<TrimLoop>)

  datatype BindingOptions = BindingOptions(maxFaces: nat, maxLoops: nat, maxFins: nat, maxPaths: nat, maxEdges: nat)

  function LoopFins(loops: seq<TrimLoop>): seq<BoundFin> {
    if loops == [] then [] else LoopFins(loops[..|loops| - 1]) + loops[|loops| - 1].fins
  }

  function FinCharge(loops: seq<TrimLoop>): nat {
    if loops == [] then 0
    else FinCharge(loops[..|loops| - 1]) + |loops[|loops| - 1].fins| + Count(loops[|loops| - 1].isolated)
  }

  function AllFins(faces: seq<FaceTrimming>): seq<BoundFin> {
    if faces == [] then [] else AllFins(faces[..|faces| - 1]) + LoopFins(faces[|faces| - 1].loops)
  }

  function LoopTotal(faces: seq<FaceTrimming>): nat {
    if faces == [] then 0 else LoopTotal(faces[..|faces| - 1]) + |faces[|faces| - 1].loops|
  }

  function ChargeTotal(faces: seq<FaceTrimming>): nat {
    if faces == [] then 0 else ChargeTotal(faces[..|faces| - 1]) + FinCharge(faces[|faces| - 1].loops)
  }

  predicate FinBelongs(f: FaceTrimming, fin: BoundFin) {
    fin.use.fin != 0 && fin.face == f.face && fin.surface == f.surface
  }

  predicate FinsBelong(f: FaceTrimming) {
    forall i :: 0 <= i < |LoopFins(f.loops)| ==> FinBelongs(f, LoopFins(f.loops)[i])
  }

  predicate FinIdsDistinct(fins: seq<BoundFin>) {
    forall i, j :: 0 <= i < j < |fins| ==> fins[i].use.fin != fins[j].use.fin
  }

  // The table maps every fin ID to its only fin.
  ghost predicate IsIndex(fins: seq<BoundFin>, index: map<nat, BoundFin>) {
    && FinIdsDistinct(fins)
    && (forall i :: 0 <= i < |fins| ==> fins[i].use.fin in index && index[fins[i].use.fin] == fins[i])
    && (forall id :: id in index ==> exists i :: 0 <= i < |fins| && fins[i].use.fin == id)
  }

  // The table of distinct fins.
  function FinTable(fins: seq<BoundFin>): map<nat, BoundFin> {
    if fins == [] then map[]
    else FinTable(fins[..|fins| - 1])[fins[|fins| - 1].use.fin := fins[|fins| - 1]]
  }

  lemma {:induction false} FinTableIs(fins: seq<BoundFin>)
    requires FinIdsDistinct(fins)
    ensures IsIndex(fins, FinTable(fins))
  {
    if fins != [] {
      var shorter, last := fins[..|fins| - 1], fins[|fins| - 1];
      FinTableIs(shorter);
      assert fins == shorter + [last];
      IndexGrows(shorter, FinTable(shorter), last);
    }
  }

  lemma IndexUnique(fins: seq<BoundFin>, a: map<nat, BoundFin>, b: map<nat, BoundFin>)
    requires IsIndex(fins, a) && IsIndex(fins, b)
    ensures a == b
  {
    forall id
      ensures id in a <==> id in b
      ensures id in a ==> a[id] == b[id]
    {
      if id in a {
        var i :| 0 <= i < |fins| && fins[i].use.fin == id;
      }
      if id in b {
        var i :| 0 <= i < |fins| && fins[i].use.fin == id;
      }
    }
  }

  method IndexLoop(f: FaceTrimming, fins: seq<BoundFin>, index: map<nat, BoundFin>, ghost before: seq<BoundFin>)
    returns (r: Result<map<nat, BoundFin>>)
    requires IsIndex(before, index)
    ensures r.Ok? ==> IsIndex(before + fins, r.value) && forall i :: 0 <= i < |fins| ==> FinBelongs(f, fins[i])
    ensures r.Err? ==> r.error == InvalidOptions
    ensures r.Err? ==> (exists i :: 0 <= i < |fins| && !FinBelongs(f, fins[i])) || !FinIdsDistinct(before + fins)
  {
    hide IsIndex, FinBelongs, FinIdsDistinct;
    var table: map<nat, BoundFin> := index;
    assert before + fins[..0] == before;
    for j := 0 to |fins|
      invariant IsIndex(before + fins[..j], table)
      invariant forall i :: 0 <= i < j ==> FinBelongs(f, fins[i])
    {
      var fin := fins[j];
      ghost var seen := before + fins[..j];
      if !FinBelongs(f, fin) {
        return Err(InvalidOptions);
      }
      if fin.use.fin in table {
        assert before + fins == seen + [fin] + fins[j + 1..];
        KnownFin(seen, table, fin, fins[j + 1..]);
        return Err(InvalidOptions);
      }
      IndexGrows(seen, table, fin);
      assert seen + [fin] == before + fins[..j + 1];
      table := table[fin.use.fin := fin];
    }
    assert fins[..|fins|] == fins;
    return Ok(table);
  }

  lemma KnownFin(fins: seq<BoundFin>, index: map<nat, BoundFin>, fin: BoundFin, rest: seq<BoundFin>)
    requires IsIndex(fins, index) && fin.use.fin in index
    ensures !FinIdsDistinct(fins + [fin] + rest)
  {
    var all := fins + [fin] + rest;
    var i :| 0 <= i < |fins| && fins[i].use.fin == fin.use.fin;
    assert all[i] == fins[i] && all[|fins|] == fin;
  }

  lemma IndexGrows(fins: seq<BoundFin>, index: map<nat, BoundFin>, fin: BoundFin)
    requires IsIndex(fins, index) && fin.use.fin !in index
    ensures IsIndex(fins + [fin], index[fin.use.fin := fin])
  {
    var more, grown := fins + [fin], index[fin.use.fin := fin];
    forall id | id in grown
      ensures exists i :: 0 <= i < |more| && more[i].use.fin == id
    {
      if id in index {
        var i :| 0 <= i < |fins| && fins[i].use.fin == id;
        assert more[i].use.fin == id;
      } else {
        assert more[|fins|].use.fin == id;
      }
    }
  }

  lemma DistinctPrefix(fins: seq<BoundFin>, more: seq<BoundFin>)
    requires FinIdsDistinct(fins + more)
    ensures FinIdsDistinct(fins)
  {
    forall i, j | 0 <= i < j < |fins|
      ensures fins[i].use.fin != fins[j].use.fin
    {
      assert (fins + more)[i] == fins[i] && (fins + more)[j] == fins[j];
    }
  }

  lemma {:induction false} LoopPrefix(loops: seq<TrimLoop>, m: nat) returns (rest: seq<BoundFin>)
    requires m <= |loops|
    ensures LoopFins(loops) == LoopFins(loops[..m]) + rest && FinCharge(loops[..m]) <= FinCharge(loops)
  {
    if m == |loops| {
      assert loops[..m] == loops;
      rest := [];
    } else {
      var shorter := loops[..|loops| - 1];
      var r := LoopPrefix(shorter, m);
      assert shorter[..m] == loops[..m];
      rest := r + loops[|loops| - 1].fins;
    }
  }

  lemma {:induction false} FacePrefix(faces: seq<FaceTrimming>, m: nat) returns (rest: seq<BoundFin>)
    requires m <= |faces|
    ensures AllFins(faces) == AllFins(faces[..m]) + rest
    ensures LoopTotal(faces[..m]) <= LoopTotal(faces) && ChargeTotal(faces[..m]) <= ChargeTotal(faces)
  {
    if m == |faces| {
      assert faces[..m] == faces;
      rest := [];
    } else {
      var shorter := faces[..|faces| - 1];
      var r := FacePrefix(shorter, m);
      assert shorter[..m] == faces[..m];
      rest := r + LoopFins(faces[|faces| - 1].loops);
    }
  }

  // One face: its loops against the remaining fin budget.
  method IndexFace(f: FaceTrimming, index: map<nat, BoundFin>, budget: nat, ghost before: seq<BoundFin>)
    returns (r: Result<(map<nat, BoundFin>, nat)>)
    requires IsIndex(before, index)
    ensures r.Ok? ==>
      && FinsBelong(f) && IsIndex(before + LoopFins(f.loops), r.value.0)
      && r.value.1 + FinCharge(f.loops) == budget
    ensures r.Err? ==>
      || (r.error == ResourceLimit && FinCharge(f.loops) > budget)
      || (r.error == InvalidOptions && (!FinsBelong(f) || !FinIdsDistinct(before + LoopFins(f.loops))))
  {
    hide FinBelongs, IsIndex;
    var table: map<nat, BoundFin>, remaining: nat := index, budget;
    assert before + LoopFins(f.loops[..0]) == before;
    for m := 0 to |f.loops|
      invariant IsIndex(before + LoopFins(f.loops[..m]), table)
      invariant remaining + FinCharge(f.loops[..m]) == budget
      invariant forall i :: 0 <= i < |LoopFins(f.loops[..m])| ==> FinBelongs(f, LoopFins(f.loops[..m])[i])
    {
      var loop := f.loops[m];
      ghost var done := LoopFins(f.loops[..m]);
      assert f.loops[..m + 1][..m] == f.loops[..m];
      ghost var rest := LoopPrefix(f.loops, m + 1);
      if |loop.fins| > remaining {
        return Err(ResourceLimit);
      }
      remaining := remaining - |loop.fins|;
      if loop.isolated {
        if remaining == 0 {
          return Err(ResourceLimit);
        }
        remaining := remaining - 1;
      }
      var indexed := IndexLoop(f, loop.fins, table, before + done);
      assert before + done + loop.fins == before + (done + loop.fins);
      assert before + LoopFins(f.loops) == before + (done + loop.fins) + rest;
      if indexed.Err? {
        if FinIdsDistinct(before + LoopFins(f.loops)) {
          DistinctPrefix(before + (done + loop.fins), rest);
          ghost var i :| 0 <= i < |loop.fins| && !FinBelongs(f, loop.fins[i]);
          assert LoopFins(f.loops)[|done| + i] == loop.fins[i];
        }
        return Err(InvalidOptions);
      }
      table := indexed.value;
    }
    assert f.loops[..|f.loops|] == f.loops;
    return Ok((table, remaining));
  }

  // The fin table exists exactly under the budgets, with consistent and
  // distinct fins.
  ghost predicate Indexable(faces: seq<FaceTrimming>, maxLoops: nat, maxFins: nat) {
    && LoopTotal(faces) <= maxLoops && ChargeTotal(faces) <= maxFins
    && FinIdsDistinct(AllFins(faces)) && forall i :: 0 <= i < |faces| ==> FinsBelong(faces[i])
  }

  method IndexFins(faces: seq<FaceTrimming>, maxLoops: nat, maxFins: nat) returns (r: Result<map<nat, BoundFin>>)
    ensures r.Ok? <==> Indexable(faces, maxLoops, maxFins)
    ensures r.Ok? ==> r.value == FinTable(AllFins(faces)) && IsIndex(AllFins(faces), r.value)
    ensures r.Err? ==> r.error == ResourceLimit || r.error == InvalidOptions
  {
    hide FinsBelong, AllFins, LoopTotal, ChargeTotal, IsIndex, FinIdsDistinct, LoopFins, FinCharge, FinTable;
    var table: map<nat, BoundFin> := map[];
    NoFaces(faces);
    var loops: nat, fins: nat := maxLoops, maxFins;
    for m := 0 to |faces|
      invariant IsIndex(AllFins(faces[..m]), table)
      invariant loops + LoopTotal(faces[..m]) == maxLoops && fins + ChargeTotal(faces[..m]) == maxFins
      invariant forall i :: 0 <= i < m ==> FinsBelong(faces[i])
    {
      var f := faces[m];
      FaceStep(faces, m);
      if |f.loops| > loops {
        return Err(ResourceLimit);
      }
      loops := loops - |f.loops|;
      var indexed := IndexFace(f, table, fins, AllFins(faces[..m]));
      if indexed.Err? {
        return Err(indexed.error);
      }
      table, fins := indexed.value.0, indexed.value.1;
    }
    assert faces[..|faces|] == faces;
    IndexDistinct(AllFins(faces), table);
    FinTableIs(AllFins(faces));
    IndexUnique(AllFins(faces), table, FinTable(AllFins(faces)));
    return Ok(table);
  }

  lemma NoFaces(faces: seq<FaceTrimming>)
    ensures IsIndex(AllFins(faces[..0]), map[]) && LoopTotal(faces[..0]) == 0 && ChargeTotal(faces[..0]) == 0
  {
  }

  lemma IndexDistinct(fins: seq<BoundFin>, index: map<nat, BoundFin>)
    requires IsIndex(fins, index)
    ensures FinIdsDistinct(fins)
  {
  }

  lemma FaceStep(faces: seq<FaceTrimming>, m: nat)
    requires m < |faces|
    ensures AllFins(faces[..m + 1]) == AllFins(faces[..m]) + LoopFins(faces[m].loops)
    ensures LoopTotal(faces[..m + 1]) == LoopTotal(faces[..m]) + |faces[m].loops| <= LoopTotal(faces)
    ensures ChargeTotal(faces[..m + 1]) == ChargeTotal(faces[..m]) + FinCharge(faces[m].loops) <= ChargeTotal(faces)
    ensures FinIdsDistinct(AllFins(faces)) ==> FinIdsDistinct(AllFins(faces[..m + 1]))
  {
    hide FinIdsDistinct;
    assert faces[..m + 1][..m] == faces[..m];
    var rest := FacePrefix(faces, m + 1);
    if FinIdsDistinct(AllFins(faces)) {
      DistinctPrefix(AllFins(faces[..m + 1]), rest);
    }
  }

  function PathSteps(groups: seq<BoundaryGroup>): nat {
    if groups == [] then 0 else PathSteps(groups[..|groups| - 1]) + |groups[|groups| - 1].path|
  }

  // Everything checked before any geometry is evaluated.
  ghost predicate BindingInput(groups: seq<BoundaryGroup>, faces: seq<FaceTrimming>, tolerance: real,
                               options: BindingOptions) {
    && tolerance >= 0.0 && options.maxLoops != 0 && options.maxFins != 0
    && 0 < options.maxFaces && |faces| <= options.maxFaces && 0 < options.maxPaths && |groups| <= options.maxPaths
    && 0 < options.maxEdges && PathSteps(groups) <= options.maxEdges
    && (forall k :: 0 <= k < |groups| ==> groups[k].kind != Branched && |groups[k].edges| == |groups[k].path|)
    && Indexable(faces, options.maxLoops, options.maxFins)
  }

  ghost predicate AllBind(evaluate: Evaluator, groups: seq<BoundaryGroup>, index: map<nat, BoundFin>, tolerance: real) {
    forall k :: 0 <= k < |groups| ==> GroupBinds(evaluate, groups[k], index, tolerance)
  }

  predicate GroupBinds(evaluate: Evaluator, group: BoundaryGroup, index: map<nat, BoundFin>, tolerance: real) {
    PathBinds(group, index) && PathJoins(evaluate, group.kind, Bind(group.path, index), tolerance)
  }

  predicate BoundAs(group: BoundaryGroup, index: map<nat, BoundFin>, path: BoundPath) {
    PathBinds(group, index) && path == BoundPath(group.kind, Bind(group.path, index))
  }

  method BindBoundaryPathsGeometry(evaluate: Evaluator, groups: seq<BoundaryGroup>, faces: seq<FaceTrimming>,
                                   tolerance: real, options: BindingOptions)
    returns (r: Result<seq<BoundPath>>)
    ensures var index := FinTable(AllFins(faces));
      && (r.Ok? <==> BindingInput(groups, faces, tolerance, options) && AllBind(evaluate, groups, index, tolerance))
      && (r.Ok? ==> |r.value| == |groups| && forall k :: 0 <= k < |groups| ==> BoundAs(groups[k], index, r.value[k]))
      && (r.Err? && BindingInput(groups, faces, tolerance, options)
          && (forall k :: 0 <= k < |groups| ==> PathBinds(groups[k], index))
          ==> exists k :: 0 <= k < |groups| && GeometricError(evaluate, Bind(groups[k].path, index), r.error))
  {
    hide Indexable, PathJoins, GeometricError, IsIndex, FinTable, AllFins, StepBinds, EndsBind, EdgesListed;
    ghost var index := FinTable(AllFins(faces));
    if tolerance < 0.0 || options.maxFaces == 0 || options.maxLoops == 0 || options.maxFins == 0
       || options.maxPaths == 0 || options.maxEdges == 0 {
      return Err(InvalidOptions);
    }
    if |faces| > options.maxFaces || |groups| > options.maxPaths {
      return Err(ResourceLimit);
    }
    var remaining: nat := options.maxEdges;
    for k := 0 to |groups|
      invariant remaining + PathSteps(groups[..k]) == options.maxEdges
      invariant forall j :: 0 <= j < k ==> groups[j].kind != Branched && |groups[j].edges| == |groups[j].path|
    {
      assert groups[..k + 1][..k] == groups[..k];
      StepsGrow(groups, k + 1);
      if groups[k].kind == Branched {
        return Err(UnsupportedFormat);
      }
      if |groups[k].path| > remaining || |groups[k].edges| != |groups[k].path| {
        return Err(if |groups[k].edges| != |groups[k].path| then InvalidOptions else ResourceLimit);
      }
      remaining := remaining - |groups[k].path|;
    }
    assert groups[..|groups|] == groups;
    var indexed := IndexFins(faces, options.maxLoops, options.maxFins);
    if indexed.Err? {
      return Err(indexed.error);
    }
    var result: seq<BoundPath> := [];
    for k := 0 to |groups|
      invariant |result| == k
      invariant forall j :: 0 <= j < k ==> GroupBinds(evaluate, groups[j], index, tolerance)
      invariant forall j :: 0 <= j < k ==> BoundAs(groups[j], index, result[j])
    {
      var path := BindPath(evaluate, groups[k], indexed.value, tolerance);
      if path.Err? {
        assert !GroupBinds(evaluate, groups[k], index, tolerance);
        return Err(path.error);
      }
      result := result + [path.value];
    }
    return Ok(result);
  }

  lemma {:induction false} StepsGrow(groups: seq<BoundaryGroup>, k: nat)
    requires k <= |groups|
    ensures PathSteps(groups[..k]) <= PathSteps(groups)
  {
    if k == |groups| {
      assert groups[..k] == groups;
    } else {
      var shorter := groups[..|groups| - 1];
      StepsGrow(shorter, k);
      assert shorter[..k] == groups[..k];
    }
  }

  // When the bound faces hold the analysed fins, every unbranched analysed
  // group binds: the only errors left to BindBoundaryPathsGeometry are
  // geometric.
  lemma AnalysedGroupsBind(faces: set<Face>, trimmings: seq<FaceTrimming>, index: map<nat, BoundFin>,
                           c: Component, group: BoundaryGroup)
    requires IsIndex(AllFins(trimmings), index)
    requires forall u :: u in UsesOf(faces) ==>
      UsableFin(u.fin) && u.fin.fin != 0 && exists i :: 0 <= i < |AllFins(trimmings)| && AllFins(trimmings)[i].use == u.fin
    requires forall u, w :: u in UsesOf(faces) && w in UsesOf(faces) && u.fin.fin == w.fin.fin ==> u == w
    requires IsComponent(faces, c) && group in c.boundaryGroups && group.kind != Branched
    ensures PathBinds(group, index)
  {
    hide IsComponent, PathBinds, UsableFin;
    forall u | u in UsesOf(faces)
      ensures u.fin.fin in index && index[u.fin.fin].use == u.fin
    {
      var i :| 0 <= i < |AllFins(trimmings)| && AllFins(trimmings)[i].use == u.fin;
    }
    AnalysedGroupBinds(faces, c, group, index);
  }

  // Where moreover every curve runs between the vertices of its fin, every
  // unbranched analysed group binds, geometry included.
  lemma AnalysedGroupsJoin(evaluate: Evaluator, curve: (nat, real) -> Vector3, place: nat -> Vector3, faces: set<Face>,
                           trimmings: seq<FaceTrimming>, index: map<nat, BoundFin>, c: Component, group: BoundaryGroup,
                           tolerance: real)
    requires IsIndex(AllFins(trimmings), index)
    requires forall u :: u in UsesOf(faces) ==>
      UsableFin(u.fin) && u.fin.fin != 0 && exists i :: 0 <= i < |AllFins(trimmings)| && AllFins(trimmings)[i].use == u.fin
    requires forall u, w :: u in UsesOf(faces) && w in UsesOf(faces) && u.fin.fin == w.fin.fin ==> u == w
    requires IsComponent(faces, c) && group in c.boundaryGroups && group.kind != Branched
    requires OnCurves(evaluate, curve) && forall f :: f in index ==> JoinsVertices(curve, place, index[f])
    ensures GroupBinds(evaluate, group, index, tolerance)
  {
    hide IsComponent, PathBinds, PathJoins, UsableFin, OnCurves, JoinsVertices;
    AnalysedGroupsBind(faces, trimmings, index, c, group);
    PlacedPathJoins(evaluate, curve, place, group, index, tolerance);
  }
}
