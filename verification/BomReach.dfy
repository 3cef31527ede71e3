// Conditions on every assembly that is reached from a document.
module BomReach {
  import opened BomTree

  // What may be asked of the visible instances of one assembly.
  datatype Condition =
    // Instances with one key are all resolved or all unresolved.
    | Apart
    // No file contains the leaf that stands for an unresolved instance.
    | Fresh
    // Instances with one key contain the same leaves.
    | Harmless
    // Every child, times its quantity, contains what its instances contain.
    | Childwise
    // The assembly contains every leaf as often as its expansion.
    | Conserved

  // ---------------------------------------------------------------- one list of instances

  ghost predicate ListApart(w: World, comps: seq<Component>) {
    forall i, j :: 0 <= i < |comps| && 0 <= j < |comps| && KeyOf(w, comps[i]) == KeyOf(w, comps[j]) ==>
      (Resolved(w, comps[i]) == "" <==> Resolved(w, comps[j]) == "")
  }

  ghost function Leaves(w: World, c: Settings, comp: Component, depth: nat, active: set<string>, aggregate: bool,
                        leaf: Label): nat
    requires Sensible(w)
  {
    Count(BuildComponent(w, c, comp, depth, active, aggregate).item, leaf)
  }

  ghost predicate ListFresh(w: World, c: Settings, comps: seq<Component>, depth: nat, active: set<string>)
    requires Sensible(w)
  {
    forall i, j ::
      0 <= i < |comps| && 0 <= j < |comps| && Resolved(w, comps[i]) != "" && Resolved(w, comps[j]) == "" ==>
      Leaves(w, c, comps[i], depth, active, true, LabelOf(Placeholder(comps[j]).item)) == 0
  }

  ghost predicate Alike(w: World, c: Settings, a: Component, b: Component, depth: nat, active: set<string>)
    requires Sensible(w)
  {
    forall leaf :: Leaves(w, c, a, depth, active, true, leaf) == Leaves(w, c, b, depth, active, true, leaf)
  }

  ghost predicate ListHarmless(w: World, c: Settings, comps: seq<Component>, depth: nat, active: set<string>)
    requires Sensible(w)
  {
    forall i, j :: 0 <= i < |comps| && 0 <= j < |comps| && KeyOf(w, comps[i]) == KeyOf(w, comps[j]) ==>
      Alike(w, c, comps[i], comps[j], depth, active)
  }

  // Leaves in the expanded trees of the instances with a key.
  ghost function MembersCount(w: World, c: Settings, comps: seq<Component>, key: AggregationKey, depth: nat,
                              active: set<string>, leaf: Label): nat
    requires Sensible(w)
  {
    if comps == [] then 0
    else
      var last := comps[|comps| - 1];
      MembersCount(w, c, comps[..|comps| - 1], key, depth, active, leaf)
      + (if KeyOf(w, last) == key then Leaves(w, c, last, depth, active, false, leaf) else 0)
  }

  ghost predicate GroupCounts(w: World, c: Settings, comps: seq<Component>, g: Group, depth: nat, active: set<string>,
                              leaf: Label)
    requires Sensible(w)
  {
    Weighted(g.count, Leaves(w, c, g.first, depth, active, true, leaf))
    == MembersCount(w, c, comps, g.key, depth, active, leaf)
  }

  ghost predicate ListChildwise(w: World, c: Settings, comps: seq<Component>, depth: nat, active: set<string>)
    requires Sensible(w)
  {
    forall g, leaf :: g in Groups(w, comps) ==> GroupCounts(w, c, comps, g, depth, active, leaf)
  }

  ghost predicate Conserves(w: World, c: Settings, path: string, doc: Document, wanted: string, depth: nat,
                            active: set<string>)
    requires Sensible(w)
  {
    forall leaf ::
      Count(BuildAssembly(w, c, path, doc, wanted, depth, active, true).item, leaf)
      == Count(BuildAssembly(w, c, path, doc, wanted, depth, active, false).item, leaf)
  }

  // ---------------------------------------------------------------- everything reached

  // The instances an assembly is built from; none when it stays bare.
  function Instances(c: Settings, doc: Document, wanted: string, depth: nat): seq<Component> {
    match SelectConfig(c, doc, wanted).configuration
    case None => []
    case Some(cfg) =>
      if cfg.components == [] || (c.maxDepth > 0 && depth >= c.maxDepth) then [] else Filtered(c, cfg.components)
  }

  ghost predicate Local(q: Condition, w: World, c: Settings, path: string, doc: Document, wanted: string, depth: nat,
                        active: set<string>)
    requires Sensible(w)
  {
    var comps := Instances(c, doc, wanted, depth);
    match q
    case Apart => ListApart(w, comps)
    case Fresh => ListFresh(w, c, comps, depth + 1, active)
    case Harmless => ListHarmless(w, c, comps, depth + 1, active)
    case Childwise => ListChildwise(w, c, comps, depth + 1, active)
    case Conserved => Conserves(w, c, path, doc, wanted, depth, active)
  }

  ghost predicate AssemblyHolds(q: Condition, w: World, c: Settings, path: string, doc: Document, wanted: string,
                                depth: nat, active: set<string>)
    requires Sensible(w)
    decreases |w.files - active|, 2, 0
  {
    && Local(q, w, c, path, doc, wanted, depth, active)
    && ComponentsHold(q, w, c, Instances(c, doc, wanted, depth), depth + 1, active)
  }

  ghost predicate ComponentsHold(q: Condition, w: World, c: Settings, comps: seq<Component>, depth: nat,
                                 active: set<string>)
    requires Sensible(w)
    decreases |w.files - active|, 1, |comps|
  {
    comps == [] ||
    (ComponentsHold(q, w, c, comps[..|comps| - 1], depth, active)
     && ComponentHolds(q, w, c, comps[|comps| - 1], depth, active))
  }

  ghost predicate ComponentHolds(q: Condition, w: World, c: Settings, comp: Component, depth: nat, active: set<string>)
    requires Sensible(w)
    decreases |w.files - active|, 1, 0
  {
    Resolved(w, comp) == "" || PathHolds(q, w, c, Resolved(w, comp), comp.configuration, depth, active)
  }

  ghost predicate PathHolds(q: Condition, w: World, c: Settings, resolved: string, wanted: string, depth: nat,
                            active: set<string>)
    requires Sensible(w)
    decreases |w.files - active|, 0, 0
  {
    var path := w.canonical(resolved);
    if path in active || w.open(path).None? then true
    else
      FewerFiles(w, path, active);
      DocumentHolds(q, w, c, path, w.open(path).value, wanted, depth, active + {path})
  }

  ghost predicate DocumentHolds(q: Condition, w: World, c: Settings, path: string, doc: Document, wanted: string,
                                depth: nat, active: set<string>)
    requires Sensible(w)
    decreases |w.files - active|, 3, 0
  {
    match doc.kind
    case AssemblyDocument => AssemblyHolds(q, w, c, path, doc, wanted, depth, active)
    case PartDocument => true
    case DrawingDocument => ViewsHold(q, w, c, References(doc.sheets, []), active)
  }

  ghost predicate ViewsHold(q: Condition, w: World, c: Settings, views: seq<View>, active: set<string>)
    requires Sensible(w)
    decreases |w.files - active|, 1, |views|
  {
    views == [] ||
    (ViewsHold(q, w, c, views[..|views| - 1], active) && ViewHolds(q, w, c, views[|views| - 1], active))
  }

  ghost predicate ViewHolds(q: Condition, w: World, c: Settings, v: View, active: set<string>)
    requires Sensible(w)
    decreases |w.files - active|, 1, 0
  {
    w.resolve(v.document).None?
    || PathHolds(q, w, c, w.resolve(v.document).value, v.configuration, 1, active)
  }
}
