// What a bill shows of its documents: the configuration, its properties and cut
// list, and the instances that are not filtered out.
module BomLaws {
  import opened Results
  import opened BomTree

  // ---------------------------------------------------------------- instance names

  // A dash and digits behind a nonempty name.
  predicate Suffixed(name: string, base: string, digits: string) {
    name == base + "-" + digits && base != "" && digits != "" && forall i :: 0 <= i < |digits| ==> digits[i] in "0123456789"
  }

  lemma DigitIs(ch: char)
    ensures ch in "0123456789" <==> '0' <= ch <= '9'
  {
    var all := "0123456789";
    if '0' <= ch <= '9' {
      assert all[(ch - '0') as int] == ch;
    }
  }

  lemma DigitsAre(s: string)
    ensures Digits(s) <==> forall i :: 0 <= i < |s| ==> s[i] in "0123456789"
  {
    forall i | 0 <= i < |s|
      ensures s[i] in "0123456789" <==> '0' <= s[i] <= '9'
    {
      DigitIs(s[i]);
    }
  }

  lemma DashIs(base: string, digits: string)
    requires Digits(digits)
    ensures LastDash(base + "-" + digits) == Some(|base|)
  {
    hide LastDash, Digits;
    var name := base + "-" + digits;
    assert name[|base|] == '-';
    forall at: nat | |base| < at < |name|
      ensures name[at] != '-'
    {
      NotDash(base, digits, at);
    }
  }

  lemma NotDash(base: string, digits: string, at: nat)
    requires Digits(digits) && |base| < at < |base| + 1 + |digits|
    ensures (base + "-" + digits)[at] != '-'
  {
    assert (base + "-" + digits)[at] == digits[at - |base| - 1];
  }

  lemma SuffixDropped(name: string, base: string, digits: string)
    requires Suffixed(name, base, digits)
    ensures StripInstanceSuffix(name) == base
  {
    hide Digits, LastDash;
    DigitsAre(digits);
    DashIs(base, digits);
    assert name[|base| + 1..] == digits && name[..|base|] == base;
  }

  lemma DroppedSuffix(name: string) returns (base: string, digits: string)
    requires StripInstanceSuffix(name) != name
    ensures Suffixed(name, base, digits)
  {
    hide Digits;
    var dash := LastDash(name).value;
    base, digits := name[..dash], name[dash + 1..];
    DigitsAre(digits);
    assert name == base + "-" + digits;
  }

  // Exactly such a suffix is dropped.
  lemma InstanceNames(name: string)
    ensures forall base, digits :: Suffixed(name, base, digits) ==> StripInstanceSuffix(name) == base
    ensures (forall base, digits :: !Suffixed(name, base, digits)) ==> StripInstanceSuffix(name) == name
  {
    hide Suffixed, StripInstanceSuffix;
    forall base, digits | Suffixed(name, base, digits)
      ensures StripInstanceSuffix(name) == base
    {
      SuffixDropped(name, base, digits);
    }
    if StripInstanceSuffix(name) != name {
      var base, digits := DroppedSuffix(name);
    }
  }

  // ---------------------------------------------------------------- the configuration shown

  // Configuration i is the first one of this name.
  predicate FirstNamed(configurations: seq<Configuration>, name: string, i: nat) {
    && i < |configurations| && configurations[i].name == name
    && forall j :: 0 <= j < i ==> configurations[j].name != name
  }

  predicate NoneNamed(configurations: seq<Configuration>, name: string) {
    forall j :: 0 <= j < |configurations| ==> configurations[j].name != name
  }

  // The wanted name, or else the one of the settings.
  function Target(c: Settings, wanted: string): string {
    if wanted != "" then wanted else c.configurationName
  }

  // The first configuration of that name; without one, the first of all.
  predicate IsShown(c: Settings, doc: Document, wanted: string, i: nat) {
    if Target(c, wanted) == "" || NoneNamed(doc.configurations, Target(c, wanted)) then i == 0
    else FirstNamed(doc.configurations, Target(c, wanted), i)
  }

  lemma {:induction false} FoundIs(configurations: seq<Configuration>, name: string) returns (i: nat)
    ensures NoneNamed(configurations, name) <==> FindConfiguration(configurations, name).None?
    ensures FindConfiguration(configurations, name).Some? ==>
      FirstNamed(configurations, name, i) && FindConfiguration(configurations, name).value == configurations[i]
  {
    i := 0;
    if configurations != [] && configurations[0].name != name {
      var j := FoundIs(configurations[1..], name);
      i := j + 1;
      assert forall k :: 1 <= k < |configurations| ==> configurations[k] == configurations[1..][k - 1];
    }
  }

  lemma SelectionIs(c: Settings, doc: Document, wanted: string) returns (i: nat)
    requires doc.configurations != []
    ensures i < |doc.configurations| && IsShown(c, doc, wanted, i)
    ensures SelectConfig(c, doc, wanted).configuration == Some(doc.configurations[i])
    ensures SelectConfig(c, doc, wanted).warnings
         == if Target(c, wanted) != "" && NoneNamed(doc.configurations, Target(c, wanted))
            then [ConfigurationMissing(Target(c, wanted))] else []
  {
    var target := Target(c, wanted);
    var j := FoundIs(doc.configurations, target);
    i := if target != "" && FindConfiguration(doc.configurations, target).Some? then j else 0;
  }

  // ---------------------------------------------------------------- properties and cut lists

  // The configuration's value wins over the document's.
  ghost predicate PropertiesShown(item: BomItem, doc: Document, cfg: Configuration) {
    forall key: string ::
      (key in item.properties <==> key in cfg.properties || key in doc.properties)
      && (key in cfg.properties ==> item.properties[key] == cfg.properties[key])
      && (key in doc.properties && key !in cfg.properties ==> item.properties[key] == doc.properties[key])
  }

  // One child per cut list entry; a quantity that is not positive counts as one.
  predicate CutShown(child: BomItem, entry: CutItem, cfg: Configuration, path: string) {
    && child.kind == CutListItem && child.name == entry.name && child.configuration == cfg.name
    && child.filePath == path && child.properties == entry.properties && child.children == []
    && child.quantity == (if entry.quantity > 0 then entry.quantity else 1)
  }

  predicate CutsShown(c: Settings, item: BomItem, cfg: Configuration, path: string) {
    if c.expandCutLists then
      |item.children| == |cfg.cutList|
      && forall k :: 0 <= k < |cfg.cutList| ==> CutShown(item.children[k], cfg.cutList[k], cfg, path)
    else item.children == []
  }

  // A part or assembly shows the configuration asked for, if it exists, with
  // the properties of document and configuration, and a missing one is reported.
  lemma ShownConfiguration(w: World, c: Settings, path: string, doc: Document, wanted: string, depth: nat,
                           active: set<string>, aggregate: bool) returns (i: nat)
    requires Sensible(w) && doc.kind != DrawingDocument && doc.configurations != []
    ensures i < |doc.configurations| && IsShown(c, doc, wanted, i)
    ensures var built := BuildDocument(w, c, path, doc, wanted, depth, active, aggregate);
      && built.item.configuration == doc.configurations[i].name
      && PropertiesShown(built.item, doc, doc.configurations[i])
      && (doc.kind == PartDocument ==> CutsShown(c, built.item, doc.configurations[i], path))
      && (Target(c, wanted) != "" && NoneNamed(doc.configurations, Target(c, wanted)) ==>
            built.warnings != [] && built.warnings[0] == ConfigurationMissing(Target(c, wanted)))
  {
    hide SelectConfig, IsShown, BuildChildren, Groups, Singles, Filtered, Sensible, NoneNamed;
    i := SelectionIs(c, doc, wanted);
  }

  // ---------------------------------------------------------------- the instances shown

  // Suppressed, hidden or excluded, and not included.
  predicate LeftOut(c: Settings, x: Component) {
    (x.suppressed && !c.includeSuppressed) || (x.hidden && !c.includeHidden) || (x.excluded && !c.includeExcluded)
  }

  // The document with other components in configuration i.
  function WithComponents(doc: Document, i: nat, components: seq<Component>): Document
    requires i < |doc.configurations|
  {
    doc.(configurations := doc.configurations[i := doc.configurations[i].(components := components)])
  }

  lemma {:induction false} FilteredConcat(c: Settings, a: seq<Component>, b: seq<Component>)
    ensures Filtered(c, a + b) == Filtered(c, a) + Filtered(c, b)
  {
    hide Visible;
    if b == [] {
      assert a + b == a;
    } else {
      var last := |b| - 1;
      assert (a + b)[..|a + b| - 1] == a + b[..last];
      FilteredConcat(c, a, b[..last]);
    }
  }

  lemma FilteredOne(c: Settings, x: Component)
    ensures Filtered(c, [x]) == if LeftOut(c, x) then [] else [x]
  {
    assert [x][..0] == [];
  }

  lemma FilteredAround(c: Settings, a: seq<Component>, x: Component, b: seq<Component>)
    ensures Filtered(c, a + [x] + b) == Filtered(c, a) + (if LeftOut(c, x) then [] else [x]) + Filtered(c, b)
    ensures LeftOut(c, x) ==> Filtered(c, a + [x] + b) == Filtered(c, a + b)
  {
    hide Filtered;
    FilteredConcat(c, a + [x], b);
    FilteredConcat(c, a, [x]);
    FilteredConcat(c, a, b);
    FilteredOne(c, x);
  }

  // The item of an assembly with these components in the configuration shown.
  ghost function ShownAssembly(w: World, c: Settings, path: string, doc: Document, wanted: string, i: nat, depth: nat,
                               active: set<string>, aggregate: bool, components: seq<Component>): BomItem
    requires Sensible(w) && i < |doc.configurations|
  {
    BuildAssembly(w, c, path, WithComponents(doc, i, components), wanted, depth, active, aggregate).item
  }

  lemma SameSelection(c: Settings, doc: Document, wanted: string, i: nat, components: seq<Component>)
    requires i < |doc.configurations| && IsShown(c, doc, wanted, i)
    ensures SelectConfig(c, WithComponents(doc, i, components), wanted).configuration
         == Some(WithComponents(doc, i, components).configurations[i])
  {
    var other := WithComponents(doc, i, components);
    var j := SelectionIs(c, other, wanted);
    assert forall k :: 0 <= k < |doc.configurations| ==> other.configurations[k].name == doc.configurations[k].name;
    var target := Target(c, wanted);
    if target != "" && !NoneNamed(doc.configurations, target) {
      assert FirstNamed(doc.configurations, target, i);
      assert FirstNamed(other.configurations, target, i);
    }
  }

  lemma ShownChildren(w: World, c: Settings, path: string, doc: Document, wanted: string, i: nat, depth: nat,
                      active: set<string>, aggregate: bool, components: seq<Component>)
    requires Sensible(w) && i < |doc.configurations| && IsShown(c, doc, wanted, i)
    ensures var visible := Filtered(c, components);
      ShownAssembly(w, c, path, doc, wanted, i, depth, active, aggregate, components)
      == EmptyItem(Assembly, w.stem(path)).(
           filePath := path, configuration := doc.configurations[i].name,
           properties := doc.properties + doc.configurations[i].properties,
           children := if c.maxDepth > 0 && depth >= c.maxDepth then []
                       else BuildChildren(w, c, if aggregate then Groups(w, visible) else Singles(w, visible), depth + 1,
                                          active, aggregate).items)
  {
    hide SelectConfig, IsShown, Sensible, KeyOf;
    SameSelection(c, doc, wanted, i, components);
    if components == [] {
      assert Groups(w, []) == [] && Singles(w, []) == [];
    }
  }

  // An instance that is left out makes no difference, grouped or expanded.
  lemma LeftOutAbsent(w: World, c: Settings, path: string, doc: Document, wanted: string, i: nat, depth: nat,
                      active: set<string>, aggregate: bool, a: seq<Component>, x: Component, b: seq<Component>)
    requires Sensible(w) && i < |doc.configurations| && IsShown(c, doc, wanted, i) && LeftOut(c, x)
    ensures ShownAssembly(w, c, path, doc, wanted, i, depth, active, aggregate, a + [x] + b)
         == ShownAssembly(w, c, path, doc, wanted, i, depth, active, aggregate, a + b)
  {
    hide ShownAssembly, BuildChildren, Groups, Singles, Filtered, IsShown, Sensible;
    ShownChildren(w, c, path, doc, wanted, i, depth, active, aggregate, a + [x] + b);
    ShownChildren(w, c, path, doc, wanted, i, depth, active, aggregate, a + b);
    FilteredAround(c, a, x, b);
  }

  lemma SinglesConcat(w: World, a: seq<Component>, b: seq<Component>)
    ensures Singles(w, a + b) == Singles(w, a) + Singles(w, b)
  {
  }

  lemma {:induction false} ChildrenConcat(w: World, c: Settings, a: seq<Group>, b: seq<Group>, depth: nat,
                                          active: set<string>, aggregate: bool)
    requires Sensible(w)
    ensures BuildChildren(w, c, a + b, depth, active, aggregate).items
         == BuildChildren(w, c, a, depth, active, aggregate).items + BuildChildren(w, c, b, depth, active, aggregate).items
  {
    hide BuildComponent, Sensible;
    if b == [] {
      assert a + b == a;
    } else {
      var last := |b| - 1;
      assert (a + b)[..|a + b| - 1] == a + b[..last];
      ChildrenConcat(w, c, a, b[..last], depth, active, aggregate);
    }
  }

  lemma OneChild(w: World, c: Settings, x: Component, depth: nat, active: set<string>)
    requires Sensible(w)
    ensures BuildChildren(w, c, Singles(w, [x]), depth, active, false).items
         == [BuildComponent(w, c, x, depth, active, false).item.(quantity := 1)]
  {
    hide BuildComponent, Sensible, KeyOf;
    assert Singles(w, [x])[..0] == [];
  }

  // Any other instance is there: in the expanded tree it is one child between
  // those before and those behind it.
  lemma OthersPresent(w: World, c: Settings, path: string, doc: Document, wanted: string, i: nat, depth: nat,
                      active: set<string>, a: seq<Component>, x: Component, b: seq<Component>)
    requires Sensible(w) && i < |doc.configurations| && IsShown(c, doc, wanted, i) && !LeftOut(c, x)
    requires !(c.maxDepth > 0 && depth >= c.maxDepth)
    ensures ShownAssembly(w, c, path, doc, wanted, i, depth, active, false, a + [x] + b).children
         == ShownAssembly(w, c, path, doc, wanted, i, depth, active, false, a).children
            + [BuildComponent(w, c, x, depth + 1, active, false).item.(quantity := 1)]
            + ShownAssembly(w, c, path, doc, wanted, i, depth, active, false, b).children
  {
    hide ShownAssembly, BuildChildren, BuildComponent, Singles, Filtered, IsShown, Sensible;
    ShownChildren(w, c, path, doc, wanted, i, depth, active, false, a + [x] + b);
    ShownChildren(w, c, path, doc, wanted, i, depth, active, false, a);
    ShownChildren(w, c, path, doc, wanted, i, depth, active, false, b);
    FilteredAround(c, a, x, b);
    var before, behind := Filtered(c, a), Filtered(c, b);
    SinglesConcat(w, before + [x], behind);
    SinglesConcat(w, before, [x]);
    ChildrenConcat(w, c, Singles(w, before) + Singles(w, [x]), Singles(w, behind), depth + 1, active, false);
    ChildrenConcat(w, c, Singles(w, before), Singles(w, [x]), depth + 1, active, false);
    OneChild(w, c, x, depth + 1, active);
  }

  // ---------------------------------------------------------------- quantities

  function Quantities(items: seq<BomItem>): nat {
    if items == [] then 0 else Quantities(items[..|items| - 1]) + items[|items| - 1].quantity
  }

  function Present(c: Settings, components: seq<Component>): nat {
    if components == [] then 0
    else Present(c, components[..|components| - 1]) + (if LeftOut(c, components[|components| - 1]) then 0 else 1)
  }

  function GroupTotal(groups: seq<Group>): nat {
    if groups == [] then 0 else groups[0].count + GroupTotal(groups[1..])
  }

  lemma {:induction false} GroupTotalBack(groups: seq<Group>)
    requires groups != []
    ensures GroupTotal(groups) == GroupTotal(groups[..|groups| - 1]) + groups[|groups| - 1].count
  {
    if |groups| > 1 {
      GroupTotalBack(groups[1..]);
      assert groups[1..][..|groups| - 2] == groups[..|groups| - 1][1..];
    } else {
      assert groups[1..] == [] && groups[..0] == [];
    }
  }

  lemma {:induction false} AddedTotal(w: World, groups: seq<Group>, comp: Component)
    ensures GroupTotal(AddToGroups(w, groups, comp)) == GroupTotal(groups) + 1
  {
    hide KeyOf;
    if groups != [] && groups[0].key != KeyOf(w, comp) {
      AddedTotal(w, groups[1..], comp);
      var rest := AddToGroups(w, groups[1..], comp);
      assert ([groups[0]] + rest)[1..] == rest;
    } else if groups != [] {
      assert ([groups[0].(count := groups[0].count + 1)] + groups[1..])[1..] == groups[1..];
    } else {
      assert [Group(KeyOf(w, comp), comp, 1)][1..] == [];
    }
  }

  lemma {:induction false} GroupedTotal(w: World, comps: seq<Component>)
    ensures GroupTotal(Groups(w, comps)) == |comps|
  {
    hide AddToGroups;
    if comps != [] {
      GroupedTotal(w, comps[..|comps| - 1]);
      AddedTotal(w, Groups(w, comps[..|comps| - 1]), comps[|comps| - 1]);
    }
  }

  lemma {:induction false} ChildQuantities(w: World, c: Settings, groups: seq<Group>, depth: nat, active: set<string>,
                                           aggregate: bool)
    requires Sensible(w)
    ensures Quantities(BuildChildren(w, c, groups, depth, active, aggregate).items) == GroupTotal(groups)
  {
    hide BuildComponent, Sensible;
    if groups != [] {
      ChildQuantities(w, c, groups[..|groups| - 1], depth, active, aggregate);
      GroupTotalBack(groups);
    }
  }

  lemma {:induction false} PresentAre(c: Settings, comps: seq<Component>)
    ensures |Filtered(c, comps)| == Present(c, comps)
  {
    if comps != [] {
      PresentAre(c, comps[..|comps| - 1]);
    }
  }

  // Grouped, the quantities add up to the instances that are not left out.
  lemma QuantitiesPresent(w: World, c: Settings, path: string, doc: Document, wanted: string, i: nat, depth: nat,
                          active: set<string>, components: seq<Component>)
    requires Sensible(w) && i < |doc.configurations| && IsShown(c, doc, wanted, i)
    requires !(c.maxDepth > 0 && depth >= c.maxDepth)
    ensures Quantities(ShownAssembly(w, c, path, doc, wanted, i, depth, active, true, components).children)
         == Present(c, components)
  {
    hide ShownAssembly, BuildChildren, Groups, Filtered, IsShown, Sensible, Quantities, Present, LeftOut;
    ShownChildren(w, c, path, doc, wanted, i, depth, active, true, components);
    ChildQuantities(w, c, Groups(w, Filtered(c, components)), depth + 1, active, true);
    GroupedTotal(w, Filtered(c, components));
    PresentAre(c, components);
  }
}
