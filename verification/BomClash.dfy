// Projects in which instances with one key are not equally resolved.
module BomClash {
  import opened Results
  import opened BomTree
  import opened BomReach
  import opened BomConservation
  import opened BomExactness

  // Recorded paths under "C:/a" are substituted by files under "/d"; the
  // recorded path "/d/p" has no substitution and nothing is searched.
  function ClashWorld(): World {
    World({"/d/p", "/d/a", "/d/b"},
          p => if p == "/d/p" then Some(Document(PartDocument, map[], [Configuration("main", map[], [], [])], []))
               else if p == "/d/a" then Some(Pair("", false))
               else if p == "/d/b" then Some(Pair("", true)) else None,
          p => if p == "C:/a/p" then Some("/d/p") else if p == "C:/a/a" then Some("/d/a")
               else if p == "C:/a/b" then Some("/d/b") else None,
          p => p,
          p => p)
  }

  function ClashSettings(): Settings {
    Settings("", true, true, true, false, 0)
  }

  function Instance(path: string, configuration: string): Component {
    Component("i", path, configuration, false, false, false)
  }

  // One part twice: once by a path that resolves, once by the resolved path.
  function Parts(configuration: string, swapped: bool): (comps: seq<Component>)
    ensures |comps| == 2
  {
    var a, b := Instance("C:/a/p", configuration), Instance("/d/p", configuration);
    if swapped then [b, a] else [a, b]
  }

  function AssemblyOf(comps: seq<Component>): Document {
    Document(AssemblyDocument, map[], [Configuration("top", map[], comps, [])], [])
  }

  function Pair(configuration: string, swapped: bool): Document {
    AssemblyOf(Parts(configuration, swapped))
  }

  // ---------------------------------------------------------------- what is contained

  lemma WorldSensible()
    ensures Sensible(ClashWorld())
  {
  }

  // The resolved instance is its part in the configuration "main"; the other
  // is a leaf in the configuration it asks for.
  lemma PartLeaves(configuration: string, depth: nat, active: set<string>, aggregate: bool, leaf: Label)
    requires Sensible(ClashWorld()) && (configuration == "" || configuration == "main") && "/d/p" !in active
    ensures var w, c := ClashWorld(), ClashSettings();
      && Leaves(w, c, Instance("C:/a/p", configuration), depth, active, aggregate, leaf)
         == (if leaf == Label(Part, "/d/p", "main", "") then 1 else 0)
      && Leaves(w, c, Instance("/d/p", configuration), depth, active, aggregate, leaf)
         == (if leaf == Label(Part, "/d/p", configuration, "") then 1 else 0)
  {
    hide Sensible;
    PartItem(configuration, depth, active, aggregate);
    OpenLeaf(ClashWorld(), ClashSettings(), Instance("/d/p", configuration), depth, active, aggregate, leaf);
  }

  lemma PartItem(configuration: string, depth: nat, active: set<string>, aggregate: bool)
    requires Sensible(ClashWorld()) && (configuration == "" || configuration == "main") && "/d/p" !in active
    ensures var comp := Instance("C:/a/p", configuration);
      var part := BuildComponent(ClashWorld(), ClashSettings(), comp, depth, active, aggregate).item;
      part.children == [] && LabelOf(part) == Label(Part, "/d/p", "main", "")
  {
    hide StripInstanceSuffix, Sensible, Pair;
    var w, c, comp := ClashWorld(), ClashSettings(), Instance("C:/a/p", configuration);
    assert Resolved(w, comp) == "/d/p";
    var doc := w.open("/d/p").value;
    var main := Configuration("main", map[], [], []);
    assert doc.configurations == [main] && doc.configurations[0] == main;
    assert SelectConfig(c, doc, configuration).configuration == Some(main);
    var part := BuildDocument(w, c, "/d/p", doc, configuration, depth, active + {"/d/p"}, aggregate).item;
    assert part.children == [] && part.filePath == "/d/p" && part.configuration == "main" && part.kind == Part;
  }

  lemma PairInstances(x: Component, y: Component, depth: nat)
    requires Visible(ClashSettings(), x) && Visible(ClashSettings(), y)
    ensures Instances(ClashSettings(), AssemblyOf([x, y]), "", depth) == [x, y]
  {
    var c, comps := ClashSettings(), [x, y];
    assert comps[..1] == [x] && comps[..1][..0] == [];
    assert Filtered(c, []) == [];
    assert Filtered(c, comps[..1]) == [x];
  }

  lemma PairGroups(w: World, x: Component, y: Component)
    ensures Groups(w, [x, y]) ==
      if KeyOf(w, x) == KeyOf(w, y) then [Group(KeyOf(w, x), x, 2)]
      else [Group(KeyOf(w, x), x, 1), Group(KeyOf(w, y), y, 1)]
  {
    hide KeyOf;
    var comps := [x, y];
    assert comps[..1] == [x] && comps[..1][..0] == [];
    assert Groups(w, []) == [];
    assert Groups(w, comps[..1]) == [Group(KeyOf(w, x), x, 1)];
    assert AddToGroups(w, [], y) == [Group(KeyOf(w, y), y, 1)];
    assert [Group(KeyOf(w, x), x, 1)][1..] == [];
  }

  // Two instances counted as one group of two, or one by one.
  lemma PairCount(path: string, x: Component, y: Component, depth: nat, active: set<string>, leaf: Label)
    requires Sensible(ClashWorld()) && Visible(ClashSettings(), x) && Visible(ClashSettings(), y)
    ensures var w, c := ClashWorld(), ClashSettings();
      && Count(BuildAssembly(w, c, path, AssemblyOf([x, y]), "", depth, active, true).item, leaf)
         == Leaves(w, c, x, depth + 1, active, true, leaf)
            + Leaves(w, c, if KeyOf(w, x) == KeyOf(w, y) then x else y, depth + 1, active, true, leaf)
      && Count(BuildAssembly(w, c, path, AssemblyOf([x, y]), "", depth, active, false).item, leaf)
         == Leaves(w, c, x, depth + 1, active, false, leaf) + Leaves(w, c, y, depth + 1, active, false, leaf)
  {
    hide Leaves, Count, Instances, BuildAssembly, Groups, KeyOf, Sensible, Visible, ClashWorld;
    var w, c := ClashWorld(), ClashSettings();
    PairInstances(x, y, depth);
    PairGroups(w, x, y);
    AssemblyCount(w, c, path, AssemblyOf([x, y]), "", depth, active, true, leaf);
    AssemblyCount(w, c, path, AssemblyOf([x, y]), "", depth, active, false, leaf);
    TwoCount(w, c, Group(KeyOf(w, x), x, 1), Group(KeyOf(w, y), y, 1), depth + 1, active, true, leaf);
    TwoCount(w, c, Group(KeyOf(w, x), x, 1), Group(KeyOf(w, y), y, 1), depth + 1, active, false, leaf);
    OneCount(w, c, Group(KeyOf(w, x), x, 2), depth + 1, active, true, leaf);
    assert Singles(w, [x, y]) == [Group(KeyOf(w, x), x, 1), Group(KeyOf(w, y), y, 1)];
  }

  lemma OneCount(w: World, c: Settings, g: Group, depth: nat, active: set<string>, aggregate: bool, leaf: Label)
    requires Sensible(w)
    ensures CountGroups(w, c, [g], depth, active, aggregate, leaf)
         == g.count * Leaves(w, c, g.first, depth, active, aggregate, leaf)
  {
    hide Leaves, Sensible;
    assert [g][..0] == [];
    NoGroups(w, c, depth, active, aggregate, leaf);
  }

  lemma TwoCount(w: World, c: Settings, g: Group, h: Group, depth: nat, active: set<string>, aggregate: bool,
                 leaf: Label)
    requires Sensible(w)
    ensures CountGroups(w, c, [g, h], depth, active, aggregate, leaf)
         == g.count * Leaves(w, c, g.first, depth, active, aggregate, leaf)
            + h.count * Leaves(w, c, h.first, depth, active, aggregate, leaf)
  {
    hide Leaves, Sensible;
    assert [g, h][..1] == [g];
    OneCount(w, c, g, depth, active, aggregate, leaf);
  }

  lemma PartsClash(configuration: string)
    ensures var w, comps := ClashWorld(), Parts(configuration, false);
      && Clash(w, comps, 0, 1) && KeyOf(w, comps[0]) == KeyOf(w, comps[1])
  {
    hide Pair, StripInstanceSuffix;
  }

  lemma PairNotApart(path: string, configuration: string, depth: nat, active: set<string>)
    requires Sensible(ClashWorld())
    ensures !DocumentHolds(Apart, ClashWorld(), ClashSettings(), path, Pair(configuration, false), "", depth, active)
  {
    hide KeyOf, Resolved, Groups, ComponentsHold, Instances, Sensible, ClashWorld, Clash;
    var comps := Parts(configuration, false);
    PairInstances(comps[0], comps[1], depth);
    PartsClash(configuration);
    ApartOrClash(ClashWorld(), comps);
  }

  // The counts of one assembly of the two instances, in either order.
  lemma PairLeaves(path: string, configuration: string, swapped: bool, depth: nat, active: set<string>, leaf: Label)
    requires Sensible(ClashWorld()) && (configuration == "" || configuration == "main") && "/d/p" !in active
    ensures var w, c, doc := ClashWorld(), ClashSettings(), Pair(configuration, swapped);
      var resolved := if leaf == Label(Part, "/d/p", "main", "") then 1 else 0;
      var open := if leaf == Label(Part, "/d/p", configuration, "") then 1 else 0;
      && Count(BuildDocument(w, c, path, doc, "", depth, active, true).item, leaf)
         == 2 * (if swapped then open else resolved)
      && Count(BuildDocument(w, c, path, doc, "", depth, active, false).item, leaf) == resolved + open
  {
    hide Leaves, Count, BuildAssembly, KeyOf, Sensible, ClashWorld;
    PartLeaves(configuration, depth + 1, active, true, leaf);
    PartLeaves(configuration, depth + 1, active, false, leaf);
    PartsClash(configuration);
    var comps := Parts(configuration, swapped);
    PairCount(path, comps[0], comps[1], depth, active, leaf);
  }

  // ---------------------------------------------------------------- one assembly

  // When the instances ask for the first configuration without naming it, the
  // leaf of the unresolved one is lost.
  lemma ClashLosesALeaf()
    ensures Sensible(ClashWorld())
    ensures var w, c, doc := ClashWorld(), ClashSettings(), Pair("", false);
      && !DocumentHolds(Apart, w, c, "/r", doc, "", 0, {"/r"})
      && Count(BuildDocument(w, c, "/r", doc, "", 0, {"/r"}, true).item, Label(Part, "/d/p", "", "")) == 0
      && Count(BuildDocument(w, c, "/r", doc, "", 0, {"/r"}, false).item, Label(Part, "/d/p", "", "")) == 1
  {
    hide Count, BuildDocument, DocumentHolds, Sensible, ClashWorld;
    WorldSensible();
    PairNotApart("/r", "", 0, {"/r"});
    PairLeaves("/r", "", false, 0, {"/r"}, Label(Part, "/d/p", "", ""));
  }

  // When they name it, both are the same leaf and nothing is lost.
  lemma ClashHarmless()
    ensures Sensible(ClashWorld())
    ensures var w, c, doc := ClashWorld(), ClashSettings(), Pair("main", false);
      && !DocumentHolds(Apart, w, c, "/r", doc, "", 0, {"/r"})
      && DocumentHolds(Harmless, w, c, "/r", doc, "", 0, {"/r"})
      && forall leaf :: Count(BuildDocument(w, c, "/r", doc, "", 0, {"/r"}, true).item, leaf)
                     == Count(BuildDocument(w, c, "/r", doc, "", 0, {"/r"}, false).item, leaf)
  {
    hide Leaves, KeyOf, Resolved, ComponentsHold, Instances, Sensible, ClashWorld;
    WorldSensible();
    var w, c, comps := ClashWorld(), ClashSettings(), Parts("main", false);
    PairNotApart("/r", "main", 0, {"/r"});
    PairInstances(comps[0], comps[1], 0);
    forall i, j | 0 <= i < |comps| && 0 <= j < |comps| && KeyOf(w, comps[i]) == KeyOf(w, comps[j])
      ensures Alike(w, c, comps[i], comps[j], 1, {"/r"})
    {
      forall leaf: Label
        ensures Leaves(w, c, comps[i], 1, {"/r"}, true, leaf) == Leaves(w, c, comps[j], 1, {"/r"}, true, leaf)
      {
        PartLeaves("main", 1, {"/r"}, true, leaf);
      }
    }
    PartsHold("main");
    forall leaf: Label
      ensures Count(BuildDocument(w, c, "/r", Pair("main", false), "", 0, {"/r"}, true).item, leaf)
           == Count(BuildDocument(w, c, "/r", Pair("main", false), "", 0, {"/r"}, false).item, leaf)
    {
      PairLeaves("/r", "main", false, 0, {"/r"}, leaf);
    }
  }

  lemma PartsHold(configuration: string)
    requires Sensible(ClashWorld())
    ensures ComponentsHold(Harmless, ClashWorld(), ClashSettings(), Parts(configuration, false), 1, {"/r"})
  {
    hide Sensible, Pair;
    var w, c, comps := ClashWorld(), ClashSettings(), Parts(configuration, false);
    assert comps[..1] == [comps[0]] && comps[..1][..0] == [];
    assert ComponentsHold(Harmless, w, c, [], 1, {"/r"});
    assert ComponentHolds(Harmless, w, c, comps[0], 1, {"/r"});
    assert ComponentsHold(Harmless, w, c, comps[..1], 1, {"/r"});
  }

  // ---------------------------------------------------------------- two assemblies

  // Both orders of the two instances, in two assemblies of one project.
  function Both(): Document {
    AssemblyOf([Instance("C:/a/a", ""), Instance("C:/a/b", "")])
  }

  lemma SubLeaves(swapped: bool, aggregate: bool, leaf: Label)
    requires Sensible(ClashWorld())
    ensures var w, c := ClashWorld(), ClashSettings();
      var path := if swapped then "/d/b" else "/d/a";
      Leaves(w, c, Instance(if swapped then "C:/a/b" else "C:/a/a", ""), 1, {"/r"}, aggregate, leaf)
      == Count(BuildDocument(w, c, path, Pair("", swapped), "", 1, {"/r"} + {path}, aggregate).item, leaf)
  {
    hide Count, BuildDocument, Sensible, BuildFromPath, Pair;
    var name := if swapped then "C:/a/b" else "C:/a/a";
    PathCount(ClashWorld(), ClashSettings(), if swapped then "/d/b" else "/d/a", name, StripInstanceSuffix("i"), "", 1,
              {"/r"}, aggregate, leaf);
  }

  // A leaf lost in one assembly and gained in another: the root contains every
  // leaf as often as its expansion although its assemblies do not.
  lemma LossesBalance()
    ensures Sensible(ClashWorld())
    ensures var w, c := ClashWorld(), ClashSettings();
      && Conserves(w, c, "/r", Both(), "", 0, {"/r"})
      && !DocumentHolds(Conserved, w, c, "/r", Both(), "", 0, {"/r"})
  {
    hide Leaves, Count, BuildAssembly, KeyOf, Sensible, ClashWorld, BuildDocument, Pair, DocumentHolds;
    WorldSensible();
    var w, c := ClashWorld(), ClashSettings();
    var x, y := Instance("C:/a/a", ""), Instance("C:/a/b", "");
    SubKeys();
    forall leaf: Label
      ensures Count(BuildAssembly(w, c, "/r", Both(), "", 0, {"/r"}, true).item, leaf)
           == Count(BuildAssembly(w, c, "/r", Both(), "", 0, {"/r"}, false).item, leaf)
    {
      PairCount("/r", x, y, 0, {"/r"}, leaf);
      SubLeaves(false, true, leaf);
      SubLeaves(false, false, leaf);
      SubLeaves(true, true, leaf);
      SubLeaves(true, false, leaf);
      PairLeaves("/d/a", "", false, 1, {"/r"} + {"/d/a"}, leaf);
      PairLeaves("/d/b", "", true, 1, {"/r"} + {"/d/b"}, leaf);
    }
    if DocumentHolds(Conserved, w, c, "/r", Both(), "", 0, {"/r"}) {
      SubConserves();
      var leaf := Label(Part, "/d/p", "", "");
      PairLeaves("/d/a", "", false, 1, {"/r"} + {"/d/a"}, leaf);
    }
  }

  lemma SubKeys()
    ensures KeyOf(ClashWorld(), Instance("C:/a/a", "")) != KeyOf(ClashWorld(), Instance("C:/a/b", ""))
  {
    hide Pair, StripInstanceSuffix;
  }

  lemma SubConserves()
    requires Sensible(ClashWorld())
    requires DocumentHolds(Conserved, ClashWorld(), ClashSettings(), "/r", Both(), "", 0, {"/r"})
    ensures var w, c := ClashWorld(), ClashSettings();
      var active := {"/r"} + {"/d/a"};
      forall leaf ::
        Count(BuildDocument(w, c, "/d/a", Pair("", false), "", 1, active, true).item, leaf)
        == Count(BuildDocument(w, c, "/d/a", Pair("", false), "", 1, active, false).item, leaf)
  {
    hide Count, Sensible, BuildAssembly, Instances, StripInstanceSuffix;
    var w, c := ClashWorld(), ClashSettings();
    var comps := [Instance("C:/a/a", ""), Instance("C:/a/b", "")];
    PairInstances(comps[0], comps[1], 0);
    assert ComponentsHold(Conserved, w, c, comps, 1, {"/r"});
    HoldsAt(Conserved, w, c, comps, 1, {"/r"}, 0);
    assert ComponentHolds(Conserved, w, c, comps[0], 1, {"/r"});
    assert PathHolds(Conserved, w, c, "/d/a", "", 1, {"/r"});
    assert DocumentHolds(Conserved, w, c, "/d/a", Pair("", false), "", 1, {"/r"} + {"/d/a"});
    assert Conserves(w, c, "/d/a", Pair("", false), "", 1, {"/r"} + {"/d/a"});
  }
}
