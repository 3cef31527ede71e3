// Grouping identical instances conserves every quantity-weighted leaf count,
// when instances with one key contain the same leaves.
module BomConservation {
  import opened BomTree
  import opened BomReach
  import opened BomGroups

  // Leaves contained in the listed groups.
  ghost function CountGroups(w: World, c: Settings, groups: seq<Group>, depth: nat, active: set<string>,
                             aggregate: bool, leaf: Label): nat
    requires Sensible(w)
  {
    if groups == [] then 0
    else
      var g := groups[|groups| - 1];
      CountGroups(w, c, groups[..|groups| - 1], depth, active, aggregate, leaf) +
      Weighted(g.count, Leaves(w, c, g.first, depth, active, aggregate, leaf))
  }

  // ---------------------------------------------------------------- labels

  // A name or recorded path does not show in the count of an item with a file.
  lemma RenamingKeepsCount(item: BomItem, name: string, windowsPath: string, leaf: Label)
    requires item.filePath != "" && item.kind != CutListItem
    ensures Count(item.(name := name, windowsPath := windowsPath), leaf) == Count(item, leaf)
    ensures Count(item.(windowsPath := windowsPath), leaf) == Count(item, leaf)
  {
  }

  lemma QuantityKeepsCount(item: BomItem, quantity: nat, leaf: Label)
    ensures Count(item.(quantity := quantity), leaf) == Count(item, leaf)
  {
  }

  lemma DocumentItem(w: World, c: Settings, path: string, doc: Document, wanted: string, depth: nat,
                     active: set<string>, aggregate: bool)
    requires Sensible(w)
    ensures var item := BuildDocument(w, c, path, doc, wanted, depth, active, aggregate).item;
      item.filePath == path && item.kind != CutListItem && item.quantity == 1
  {
    hide SelectConfig, BuildChildren, BuildViews, CutItems, Groups, Singles, Filtered, References;
  }

  // A file is counted alike under every recorded path and instance name.
  lemma PathAlone(w: World, c: Settings, resolved: string, wpA: string, nameA: string, wpB: string, nameB: string,
                  wanted: string, depth: nat, active: set<string>, aggregate: bool, leaf: Label)
    requires Sensible(w) && resolved != ""
    ensures Count(BuildFromPath(w, c, resolved, wpA, nameA, wanted, depth, active, aggregate).item, leaf) ==
            Count(BuildFromPath(w, c, resolved, wpB, nameB, wanted, depth, active, aggregate).item, leaf)
  {
    hide Count, BuildDocument;
    var path := w.canonical(resolved);
    if path in active || w.open(path).None? {
      var missing := Missing("", path, "");
      RenamingKeepsCount(missing, nameA, wpA, leaf);
      RenamingKeepsCount(missing, nameB, wpB, leaf);
      assert missing.(name := nameA, windowsPath := wpA) == Missing(nameA, path, wpA);
      assert missing.(name := nameB, windowsPath := wpB) == Missing(nameB, path, wpB);
    } else {
      FewerFiles(w, path, active);
      DocumentItem(w, c, path, w.open(path).value, wanted, depth, active + {path}, aggregate);
      var item := BuildDocument(w, c, path, w.open(path).value, wanted, depth, active + {path}, aggregate).item;
      RenamingKeepsCount(item, nameA, wpA, leaf);
      RenamingKeepsCount(item, nameB, wpB, leaf);
      assert item.(name := nameA).(windowsPath := wpA) == item.(name := nameA, windowsPath := wpA);
      assert item.(name := nameB).(windowsPath := wpB) == item.(name := nameB, windowsPath := wpB);
    }
  }

  // Instances with one key that are both resolved, or both unresolved, contain
  // the same leaves.
  lemma SameKeyAlike(w: World, c: Settings, a: Component, b: Component, depth: nat, active: set<string>)
    requires Sensible(w) && KeyOf(w, a) == KeyOf(w, b)
    requires Resolved(w, a) == "" <==> Resolved(w, b) == ""
    ensures Alike(w, c, a, b, depth, active)
  {
    hide BuildFromPath, Resolved, StripInstanceSuffix, Count, Placeholder;
    forall leaf: Label
      ensures Leaves(w, c, a, depth, active, true, leaf) == Leaves(w, c, b, depth, active, true, leaf)
    {
      if Resolved(w, a) == "" {
        OpenLeaf(w, c, a, depth, active, true, leaf);
        OpenLeaf(w, c, b, depth, active, true, leaf);
      } else {
        PathAlone(w, c, Resolved(w, a), a.path, StripInstanceSuffix(a.name), b.path, StripInstanceSuffix(b.name),
                  a.configuration, depth, active, true, leaf);
      }
    }
  }

  // The leaf that stands for instances with a key that do not resolve.
  function OpenLabel(key: AggregationKey): Label {
    Label(Part, key.path, key.configuration, "")
  }

  // An unresolved instance is one leaf, and its label is its key.
  lemma OpenLeaf(w: World, c: Settings, comp: Component, depth: nat, active: set<string>, aggregate: bool, leaf: Label)
    requires Sensible(w) && Resolved(w, comp) == ""
    ensures Leaves(w, c, comp, depth, active, aggregate, leaf) == if leaf == OpenLabel(KeyOf(w, comp)) then 1 else 0
    ensures LabelOf(Placeholder(comp).item) == OpenLabel(KeyOf(w, comp))
  {
    hide StripInstanceSuffix, BuildFromPath;
  }

  // ---------------------------------------------------------------- children

  lemma {:induction false} ChildrenCount(w: World, c: Settings, groups: seq<Group>, depth: nat, active: set<string>,
                                         aggregate: bool, leaf: Label)
    requires Sensible(w)
    ensures CountAll(BuildChildren(w, c, groups, depth, active, aggregate).items, leaf) ==
            CountGroups(w, c, groups, depth, active, aggregate, leaf)
    ensures |BuildChildren(w, c, groups, depth, active, aggregate).items| == |groups|
  {
    hide Count, BuildComponent, Weighted;
    if groups != [] {
      var n := |groups| - 1;
      ChildrenCount(w, c, groups[..n], depth, active, aggregate, leaf);
      var before := BuildChildren(w, c, groups[..n], depth, active, aggregate).items;
      var child := BuildComponent(w, c, groups[n].first, depth, active, aggregate).item.(quantity := groups[n].count);
      assert BuildChildren(w, c, groups, depth, active, aggregate).items == before + [child];
      assert (before + [child])[..n] == before;
      QuantityKeepsCount(BuildComponent(w, c, groups[n].first, depth, active, aggregate).item, groups[n].count, leaf);
    }
  }

  lemma {:induction false} CountGroupsFront(w: World, c: Settings, g: Group, groups: seq<Group>, depth: nat,
                                            active: set<string>, aggregate: bool, leaf: Label)
    requires Sensible(w)
    ensures CountGroups(w, c, [g] + groups, depth, active, aggregate, leaf) ==
            Weighted(g.count, Leaves(w, c, g.first, depth, active, aggregate, leaf)) +
            CountGroups(w, c, groups, depth, active, aggregate, leaf)
  {
    hide Count, BuildComponent, Weighted;
    var n := |groups|;
    assert ([g] + groups)[n] == if n == 0 then g else groups[n - 1];
    if n == 0 {
      assert ([g] + groups)[..0] == [];
      assert CountGroups(w, c, [], depth, active, aggregate, leaf) == 0;
    } else {
      CountGroupsFront(w, c, g, groups[..n - 1], depth, active, aggregate, leaf);
      assert ([g] + groups)[..n] == [g] + groups[..n - 1];
    }
  }

  ghost predicate GroupsAlike(w: World, c: Settings, groups: seq<Group>, comp: Component, depth: nat,
                              active: set<string>)
    requires Sensible(w)
  {
    forall g :: g in groups && g.key == KeyOf(w, comp) ==> Alike(w, c, g.first, comp, depth, active)
  }

  lemma WeightedStep(quantity: nat, count: nat)
    ensures Weighted(quantity + 1, count) == Weighted(quantity, count) + count
    ensures Weighted(1, count) == count && Weighted(0, count) == 0
  {
  }

  lemma {:induction false} AddedCount(w: World, c: Settings, groups: seq<Group>, comp: Component, depth: nat,
                                      active: set<string>, leaf: Label)
    requires Sensible(w)
    requires GroupsAlike(w, c, groups, comp, depth, active)
    ensures CountGroups(w, c, AddToGroups(w, groups, comp), depth, active, true, leaf) ==
            CountGroups(w, c, groups, depth, active, true, leaf) + Leaves(w, c, comp, depth, active, true, leaf)
  {
    hide Leaves, Weighted, KeyOf, CountGroups;
    if groups == [] {
      var g := Group(KeyOf(w, comp), comp, 1);
      CountGroupsFront(w, c, g, [], depth, active, true, leaf);
      NoGroups(w, c, depth, active, true, leaf);
      assert [g] + [] == [g];
      WeightedStep(1, Leaves(w, c, comp, depth, active, true, leaf));
    } else {
      var g := groups[0];
      assert groups == [g] + groups[1..];
      CountGroupsFront(w, c, g, groups[1..], depth, active, true, leaf);
      if g.key == KeyOf(w, comp) {
        CountGroupsFront(w, c, g.(count := g.count + 1), groups[1..], depth, active, true, leaf);
        WeightedStep(g.count, Leaves(w, c, g.first, depth, active, true, leaf));
        assert g in groups;
      } else {
        AddedCount(w, c, groups[1..], comp, depth, active, leaf);
        CountGroupsFront(w, c, g, AddToGroups(w, groups[1..], comp), depth, active, true, leaf);
      }
    }
  }

  lemma NoGroups(w: World, c: Settings, depth: nat, active: set<string>, aggregate: bool, leaf: Label)
    requires Sensible(w)
    ensures CountGroups(w, c, [], depth, active, aggregate, leaf) == 0
  {
  }

  // Quantity times the first instance counts what all instances count.
  lemma {:induction false} GroupedCount(w: World, c: Settings, comps: seq<Component>, depth: nat, active: set<string>,
                                        leaf: Label)
    requires Sensible(w)
    requires ListHarmless(w, c, comps, depth, active)
    ensures CountGroups(w, c, Groups(w, comps), depth, active, true, leaf) ==
            CountGroups(w, c, Singles(w, comps), depth, active, true, leaf)
  {
    hide Leaves, Weighted, KeyOf, AddToGroups, Alike, GroupIs, FirstWith;
    if comps != [] {
      var n := |comps| - 1;
      GroupedCount(w, c, comps[..n], depth, active, leaf);
      FirstsAlike(w, c, comps, depth, active);
      AddedCount(w, c, Groups(w, comps[..n]), comps[n], depth, active, leaf);
      assert Singles(w, comps)[..n] == Singles(w, comps[..n]);
      WeightedStep(1, Leaves(w, c, comps[n], depth, active, true, leaf));
    }
  }

  lemma FirstsAlike(w: World, c: Settings, comps: seq<Component>, depth: nat, active: set<string>)
    requires Sensible(w) && comps != [] && ListHarmless(w, c, comps, depth, active)
    ensures GroupsAlike(w, c, Groups(w, comps[..|comps| - 1]), comps[|comps| - 1], depth, active)
  {
    hide Alike, KeyOf, Groups, CountKey;
    var n := |comps| - 1;
    GroupsAre(w, comps[..n]);
    forall g | g in Groups(w, comps[..n]) && g.key == KeyOf(w, comps[n])
      ensures Alike(w, c, g.first, comps[n], depth, active)
    {
      var k :| 0 <= k < |Groups(w, comps[..n])| && Groups(w, comps[..n])[k] == g;
      assert GroupIs(w, comps[..n], g);
      var i :| 0 <= i < n && comps[i] == g.first;
    }
  }

  // ---------------------------------------------------------------- conservation

  lemma {:induction false} HoldsAt(q: Condition, w: World, c: Settings, comps: seq<Component>, depth: nat,
                                   active: set<string>, i: nat)
    requires Sensible(w) && ComponentsHold(q, w, c, comps, depth, active) && i < |comps|
    ensures ComponentHolds(q, w, c, comps[i], depth, active)
    decreases |comps|
  {
    hide ComponentHolds;
    if i < |comps| - 1 {
      HoldsAt(q, w, c, comps[..|comps| - 1], depth, active, i);
    }
  }

  lemma {:induction false} SinglesConserve(w: World, c: Settings, comps: seq<Component>, depth: nat,
                                           active: set<string>, leaf: Label)
    requires Sensible(w) && ComponentsHold(Harmless, w, c, comps, depth, active)
    ensures CountGroups(w, c, Singles(w, comps), depth, active, true, leaf) ==
            CountGroups(w, c, Singles(w, comps), depth, active, false, leaf)
    decreases |w.files - active|, 1, |comps|
  {
    hide BuildComponent, Count, Weighted, KeyOf, ComponentHolds;
    if comps != [] {
      var n := |comps| - 1;
      SinglesConserve(w, c, comps[..n], depth, active, leaf);
      assert Singles(w, comps)[..n] == Singles(w, comps[..n]);
      ComponentConserves(w, c, comps[n], depth, active, leaf);
    }
  }

  lemma {:induction false} ComponentConserves(w: World, c: Settings, comp: Component, depth: nat, active: set<string>,
                                              leaf: Label)
    requires Sensible(w) && ComponentHolds(Harmless, w, c, comp, depth, active)
    ensures Leaves(w, c, comp, depth, active, true, leaf) == Leaves(w, c, comp, depth, active, false, leaf)
    decreases |w.files - active|, 1, 0
  {
    hide Count, BuildFromPath, Resolved, StripInstanceSuffix, PathHolds;
    if Resolved(w, comp) != "" {
      PathConserves(w, c, Resolved(w, comp), comp.path, StripInstanceSuffix(comp.name), comp.configuration, depth,
                    active, leaf);
    }
  }

  lemma {:induction false} PathConserves(w: World, c: Settings, resolved: string, windowsPath: string, name: string,
                                         wanted: string, depth: nat, active: set<string>, leaf: Label)
    requires Sensible(w) && resolved != "" && PathHolds(Harmless, w, c, resolved, wanted, depth, active)
    ensures Count(BuildFromPath(w, c, resolved, windowsPath, name, wanted, depth, active, true).item, leaf) ==
            Count(BuildFromPath(w, c, resolved, windowsPath, name, wanted, depth, active, false).item, leaf)
    decreases |w.files - active|, 0, 0
  {
    hide Count, BuildDocument, DocumentHolds;
    var path := w.canonical(resolved);
    if path !in active && w.open(path).Some? {
      FewerFiles(w, path, active);
      DocumentConserves(w, c, path, w.open(path).value, wanted, depth, active + {path}, leaf);
      PathCount(w, c, resolved, windowsPath, name, wanted, depth, active, true, leaf);
      PathCount(w, c, resolved, windowsPath, name, wanted, depth, active, false, leaf);
    }
  }

  lemma PathCount(w: World, c: Settings, resolved: string, windowsPath: string, name: string, wanted: string,
                  depth: nat, active: set<string>, aggregate: bool, leaf: Label)
    requires Sensible(w) && resolved != ""
    requires var path := w.canonical(resolved); path !in active && w.open(path).Some?
    ensures var path := w.canonical(resolved);
      Count(BuildFromPath(w, c, resolved, windowsPath, name, wanted, depth, active, aggregate).item, leaf) ==
      Count(BuildDocument(w, c, path, w.open(path).value, wanted, depth, active + {path}, aggregate).item, leaf)
  {
    hide Count, BuildDocument;
    var path := w.canonical(resolved);
    FewerFiles(w, path, active);
    DocumentItem(w, c, path, w.open(path).value, wanted, depth, active + {path}, aggregate);
    var item := BuildDocument(w, c, path, w.open(path).value, wanted, depth, active + {path}, aggregate).item;
    RenamingKeepsCount(item, name, windowsPath, leaf);
    assert item.(name := name).(windowsPath := windowsPath) == item.(name := name, windowsPath := windowsPath);
  }

  // The tree with one child per distinct component contains every leaf as often
  // as the tree with one child per instance.
  lemma {:induction false} DocumentConserves(w: World, c: Settings, path: string, doc: Document, wanted: string,
                                             depth: nat, active: set<string>, leaf: Label)
    requires Sensible(w) && DocumentHolds(Harmless, w, c, path, doc, wanted, depth, active)
    ensures Count(BuildDocument(w, c, path, doc, wanted, depth, active, true).item, leaf) ==
            Count(BuildDocument(w, c, path, doc, wanted, depth, active, false).item, leaf)
    decreases |w.files - active|, 3, 0
  {
    hide Count, BuildAssembly, BuildDrawing, BuildPart, AssemblyHolds, ViewsHold;
    match doc.kind
    case AssemblyDocument => AssemblyConserves(w, c, path, doc, wanted, depth, active, leaf);
    case PartDocument =>
    case DrawingDocument => DrawingConserves(w, c, path, doc, active, leaf);
  }

  lemma ChildrenDecide(a: BomItem, b: seq<BomItem>, leaf: Label)
    requires a.children == [] <==> b == []
    requires CountAll(a.children, leaf) == CountAll(b, leaf)
    ensures Count(a, leaf) == Count(a.(children := b), leaf)
  {
    hide CountAll;
  }

  function GroupsOrSingles(w: World, comps: seq<Component>, aggregate: bool): seq<Group> {
    if aggregate then Groups(w, comps) else Singles(w, comps)
  }

  lemma NoChildren(w: World, c: Settings, depth: nat, active: set<string>, aggregate: bool)
    requires Sensible(w)
    ensures GroupsOrSingles(w, [], aggregate) == []
    ensures BuildChildren(w, c, [], depth, active, aggregate) == BuiltList([], [])
  {
  }

  // Bare assemblies do not depend on grouping; others count their groups.
  lemma AssemblyBare(w: World, c: Settings, path: string, doc: Document, wanted: string, depth: nat,
                     active: set<string>)
    requires Sensible(w) && Instances(c, doc, wanted, depth) == []
    ensures BuildAssembly(w, c, path, doc, wanted, depth, active, true).item ==
            BuildAssembly(w, c, path, doc, wanted, depth, active, false).item
  {
    hide BuildChildren, Groups, Singles, SelectConfig, Filtered;
    NoChildren(w, c, depth + 1, active, true);
    NoChildren(w, c, depth + 1, active, false);
  }

  lemma AssemblyCount(w: World, c: Settings, path: string, doc: Document, wanted: string, depth: nat,
                      active: set<string>, aggregate: bool, leaf: Label)
    requires Sensible(w) && Instances(c, doc, wanted, depth) != []
    ensures var comps := Instances(c, doc, wanted, depth);
      Count(BuildAssembly(w, c, path, doc, wanted, depth, active, aggregate).item, leaf)
      == CountGroups(w, c, GroupsOrSingles(w, comps, aggregate), depth + 1, active, aggregate, leaf)
  {
    hide CountAll, BuildChildren, Groups, Singles, SelectConfig, Filtered, CountGroups, LabelOf;
    var comps := Instances(c, doc, wanted, depth);
    EmptyTogether(w, comps);
    ChildrenCount(w, c, GroupsOrSingles(w, comps, aggregate), depth + 1, active, aggregate, leaf);
  }

  lemma {:induction false} AssemblyConserves(w: World, c: Settings, path: string, doc: Document, wanted: string,
                                             depth: nat, active: set<string>, leaf: Label)
    requires Sensible(w) && AssemblyHolds(Harmless, w, c, path, doc, wanted, depth, active)
    ensures Count(BuildAssembly(w, c, path, doc, wanted, depth, active, true).item, leaf) ==
            Count(BuildAssembly(w, c, path, doc, wanted, depth, active, false).item, leaf)
    decreases |w.files - active|, 2, 0
  {
    hide Count, CountAll, BuildAssembly, Groups, Singles, Instances, ListHarmless, CountGroups;
    var comps := Instances(c, doc, wanted, depth);
    if comps == [] {
      AssemblyBare(w, c, path, doc, wanted, depth, active);
    } else {
      AssemblyCount(w, c, path, doc, wanted, depth, active, true, leaf);
      AssemblyCount(w, c, path, doc, wanted, depth, active, false, leaf);
      GroupedCount(w, c, comps, depth + 1, active, leaf);
      SinglesConserve(w, c, comps, depth + 1, active, leaf);
    }
  }

  lemma {:induction false} DrawingConserves(w: World, c: Settings, path: string, doc: Document, active: set<string>,
                                            leaf: Label)
    requires Sensible(w) && ViewsHold(Harmless, w, c, References(doc.sheets, []), active)
    ensures Count(BuildDrawing(w, c, path, doc, active, true).item, leaf) ==
            Count(BuildDrawing(w, c, path, doc, active, false).item, leaf)
    decreases |w.files - active|, 2, 0
  {
    hide Count, CountAll, BuildViews, References, ViewsHold;
    var views := References(doc.sheets, []);
    ViewsConserve(w, c, views, active, leaf);
    var grouped := BuildDrawing(w, c, path, doc, active, true).item;
    var expanded := BuildDrawing(w, c, path, doc, active, false).item;
    assert expanded == grouped.(children := expanded.children);
    ChildrenDecide(grouped, expanded.children, leaf);
  }

  lemma {:induction false} ViewsConserve(w: World, c: Settings, views: seq<View>, active: set<string>, leaf: Label)
    requires Sensible(w) && ViewsHold(Harmless, w, c, views, active)
    ensures CountAll(BuildViews(w, c, views, active, true).items, leaf) ==
            CountAll(BuildViews(w, c, views, active, false).items, leaf)
    ensures |BuildViews(w, c, views, active, true).items| == |BuildViews(w, c, views, active, false).items| == |views|
    decreases |w.files - active|, 1, |views|
  {
    hide Count, CountAll, BuildView, Weighted, ViewHolds;
    if views != [] {
      var n := |views| - 1;
      ViewsConserve(w, c, views[..n], active, leaf);
      ViewConserves(w, c, views[n], active, leaf);
      ViewsStep(w, c, views, active, true, leaf);
      ViewsStep(w, c, views, active, false, leaf);
    }
  }

  lemma {:induction false} ViewsStep(w: World, c: Settings, views: seq<View>, active: set<string>, aggregate: bool,
                                     leaf: Label)
    requires Sensible(w) && views != []
    ensures var n := |views| - 1;
      var all := BuildViews(w, c, views, active, aggregate).items;
      var before := BuildViews(w, c, views[..n], active, aggregate).items;
      |all| == |before| + 1 &&
      CountAll(all, leaf) ==
      CountAll(before, leaf) + Weighted(1, Count(BuildView(w, c, views[n], active, aggregate).item, leaf))
  {
    hide Count, BuildView, Weighted;
    var n := |views| - 1;
    ViewItem(w, c, views[n], active, aggregate);
    var before := BuildViews(w, c, views[..n], active, aggregate).items;
    var child := BuildView(w, c, views[n], active, aggregate).item;
    assert BuildViews(w, c, views, active, aggregate).items == before + [child];
    assert (before + [child])[..|before|] == before;
  }

  lemma ViewItem(w: World, c: Settings, v: View, active: set<string>, aggregate: bool)
    requires Sensible(w)
    ensures BuildView(w, c, v, active, aggregate).item.quantity == 1
  {
    hide BuildDocument;
    if w.resolve(v.document).Some? {
      var path := w.canonical(w.resolve(v.document).value);
      if path !in active && w.open(path).Some? {
        FewerFiles(w, path, active);
        DocumentItem(w, c, path, w.open(path).value, v.configuration, 1, active + {path}, aggregate);
      }
    }
  }

  lemma {:induction false} ViewConserves(w: World, c: Settings, v: View, active: set<string>, leaf: Label)
    requires Sensible(w) && ViewHolds(Harmless, w, c, v, active)
    ensures Count(BuildView(w, c, v, active, true).item, leaf) == Count(BuildView(w, c, v, active, false).item, leaf)
    decreases |w.files - active|, 1, 0
  {
    hide Count, BuildFromPath, PathHolds;
    if w.resolve(v.document).Some? {
      var resolved := w.resolve(v.document).value;
      PathConserves(w, c, resolved, v.document, w.stem(resolved), v.configuration, 1, active, leaf);
    }
  }
}
