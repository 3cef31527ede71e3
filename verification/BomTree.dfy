// What a bill of materials is: a tree over documents, with or without grouping
// of identical instances.
module BomTree {
  import opened Results

  datatype Component = Component(
    name: string,
    path: string,
    configuration: string,
    suppressed: bool,
    hidden: bool,
    excluded: bool)

  datatype CutItem = CutItem(name: string, quantity: int, properties: map<string, string>)

  datatype Configuration = Configuration(
    name: string,
    properties: map<string, string>,
    components: seq<Component>,
    cutList: seq<CutItem>)

  datatype View = View(document: string, configuration: string)

  datatype DocumentType = PartDocument | AssemblyDocument | DrawingDocument

  datatype Document = Document(
    kind: DocumentType,
    properties: map<string, string>,
    configurations: seq<Configuration>,
    sheets: seq<seq<View>>)

  datatype ItemType = Part | Assembly | CutListItem | Drawing

  datatype BomItem = BomItem(
    kind: ItemType,
    name: string,
    filePath: string,
    windowsPath: string,
    configuration: string,
    quantity: nat,
    suppressed: bool,
    excluded: bool,
    properties: map<string, string>,
    children: seq<BomItem>)

  datatype Warning =
    | ModelNotResolved(path: string)
    | NotResolved(path: string)
    | Cycle(path: string)
    | OpenFailed(path: string)
    | DepthReached(path: string)
    | ConfigurationMissing(name: string)

  datatype Settings = Settings(
    configurationName: string,
    includeSuppressed: bool,
    includeHidden: bool,
    includeExcluded: bool,
    expandCutLists: bool,
    maxDepth: int)

  // The file system: which files open as documents, how recorded paths
  // resolve, canonical names and file stems.
  datatype World = World(
    files: set<string>,
    open: string -> Option<Document>,
    resolve: string -> Option<string>,
    canonical: string -> string,
    stem: string -> string)

  // Resolution finds existing files, which have a path.
  ghost predicate Sensible(w: World) {
    && (forall p :: w.open(p).Some? ==> p in w.files)
    && (forall p :: w.open(w.canonical(p)) == w.open(p))
    && (forall p :: p != "" ==> w.canonical(p) != "")
    && (forall p :: w.resolve(p) != Some(""))
  }

  datatype Built = Built(item: BomItem, warnings: seq<Warning>)

  datatype BuiltList = BuiltList(items: seq<BomItem>, warnings: seq<Warning>)

  // ---------------------------------------------------------------- names

  predicate Digits(s: string) {
    forall i :: 0 <= i < |s| ==> '0' <= s[i] <= '9'
  }

  function LastDash(s: string): (r: Option<nat>)
    ensures r.Some? ==> r.value < |s| && s[r.value] == '-' && '-' !in s[r.value + 1..]
    ensures r.None? ==> '-' !in s
  {
    if s == "" then None
    else if s[|s| - 1] == '-' then Some(|s| - 1)
    else
      var r := LastDash(s[..|s| - 1]);
      assert s == s[..|s| - 1] + [s[|s| - 1]];
      r
  }

  // "Bolt-3" becomes "Bolt".
  function StripInstanceSuffix(name: string): string {
    match LastDash(name)
    case None => name
    case Some(dash) =>
      var suffix := name[dash + 1..];
      if dash == 0 || suffix == "" || !Digits(suffix) then name else name[..dash]
  }

  // ---------------------------------------------------------------- configurations

  function FindConfiguration(configurations: seq<Configuration>, name: string): Option<Configuration> {
    if configurations == [] then None
    else if configurations[0].name == name then Some(configurations[0])
    else FindConfiguration(configurations[1..], name)
  }

  datatype Selected = Selected(configuration: Option<Configuration>, warnings: seq<Warning>)

  function SelectConfig(c: Settings, doc: Document, wanted: string): Selected {
    if doc.configurations == [] then Selected(None, [])
    else
      var target := if wanted == "" then c.configurationName else wanted;
      var found := FindConfiguration(doc.configurations, target);
      if target == "" then Selected(Some(doc.configurations[0]), [])
      else if found.Some? then Selected(found, [])
      else Selected(Some(doc.configurations[0]), [ConfigurationMissing(target)])
  }

  function Visible(c: Settings, comp: Component): bool {
    && (c.includeSuppressed || !comp.suppressed)
    && (c.includeHidden || !comp.hidden)
    && (c.includeExcluded || !comp.excluded)
  }

  function Filtered(c: Settings, comps: seq<Component>): seq<Component> {
    if comps == [] then []
    else Filtered(c, comps[..|comps| - 1]) + (if Visible(c, comps[|comps| - 1]) then [comps[|comps| - 1]] else [])
  }

  function Resolved(w: World, comp: Component): string {
    if comp.path == "" then ""
    else
      match w.resolve(comp.path)
      case None => ""
      case Some(path) => path
  }

  datatype AggregationKey = AggregationKey(path: string, configuration: string)

  function KeyOf(w: World, comp: Component): AggregationKey {
    var resolved := Resolved(w, comp);
    var path := if resolved == "" then comp.path else resolved;
    AggregationKey(if path == "" then StripInstanceSuffix(comp.name) else path, comp.configuration)
  }

  datatype Group = Group(key: AggregationKey, first: Component, count: nat)

  function AddToGroups(w: World, groups: seq<Group>, comp: Component): seq<Group> {
    if groups == [] then [Group(KeyOf(w, comp), comp, 1)]
    else if groups[0].key == KeyOf(w, comp) then [groups[0].(count := groups[0].count + 1)] + groups[1..]
    else [groups[0]] + AddToGroups(w, groups[1..], comp)
  }

  // Groups in order of their first instance.
  function Groups(w: World, comps: seq<Component>): seq<Group> {
    if comps == [] then [] else AddToGroups(w, Groups(w, comps[..|comps| - 1]), comps[|comps| - 1])
  }

  // One group per instance.
  function Singles(w: World, comps: seq<Component>): seq<Group> {
    seq(|comps|, i requires 0 <= i < |comps| => Group(KeyOf(w, comps[i]), comps[i], 1))
  }

  // ---------------------------------------------------------------- drawings

  function ViewsOf(views: seq<View>, seen: seq<View>): seq<View> {
    if views == [] then seen
    else
      ViewsOf(views[1..], if views[0].document == "" || views[0] in seen then seen else seen + [views[0]])
  }

  // The distinct references of all sheets, in order.
  function References(sheets: seq<seq<View>>, seen: seq<View>): seq<View> {
    if sheets == [] then seen else References(sheets[1..], ViewsOf(sheets[0], seen))
  }

  function EmptyItem(kind: ItemType, name: string): BomItem {
    BomItem(kind, name, "", "", "", 1, false, false, map[], [])
  }

  // ---------------------------------------------------------------- parts

  function CutItems(cutList: seq<CutItem>, configuration: string, filePath: string): seq<BomItem> {
    seq(|cutList|, i requires 0 <= i < |cutList| =>
      EmptyItem(CutListItem, cutList[i].name).(
        configuration := configuration, filePath := filePath, properties := cutList[i].properties,
        quantity := if cutList[i].quantity > 0 then cutList[i].quantity else 1))
  }

  function BuildPart(w: World, c: Settings, path: string, doc: Document, wanted: string): Built {
    var selected := SelectConfig(c, doc, wanted);
    var item := EmptyItem(Part, w.stem(path)).(filePath := path);
    match selected.configuration
    case None => Built(item.(properties := doc.properties), selected.warnings)
    case Some(cfg) =>
      Built(item.(configuration := cfg.name, properties := doc.properties + cfg.properties,
                  children := if c.expandCutLists then CutItems(cfg.cutList, cfg.name, path) else []),
            selected.warnings)
  }

  // ---------------------------------------------------------------- the tree

  // With `aggregate`, identical instances become one child with a quantity;
  // without it, every instance is a child of its own.
  ghost function BuildAssembly(w: World, c: Settings, path: string, doc: Document, wanted: string, depth: nat,
                               active: set<string>, aggregate: bool): Built
    requires Sensible(w)
    decreases |w.files - active|, 2, 0
  {
    var selected := SelectConfig(c, doc, wanted);
    var item := EmptyItem(Assembly, w.stem(path)).(filePath := path);
    match selected.configuration
    case None => Built(item.(properties := doc.properties), selected.warnings)
    case Some(cfg) =>
      var named := item.(configuration := cfg.name, properties := doc.properties + cfg.properties);
      if cfg.components == [] then Built(named, selected.warnings)
      else if c.maxDepth > 0 && depth >= c.maxDepth then Built(named, selected.warnings + [DepthReached(path)])
      else
        var visible := Filtered(c, cfg.components);
        var children := BuildChildren(w, c, if aggregate then Groups(w, visible) else Singles(w, visible), depth + 1,
                                      active, aggregate);
        Built(named.(children := children.items), selected.warnings + children.warnings)
  }

  ghost function BuildChildren(w: World, c: Settings, groups: seq<Group>, depth: nat, active: set<string>,
                               aggregate: bool): BuiltList
    requires Sensible(w)
    decreases |w.files - active|, 1, |groups|
  {
    if groups == [] then BuiltList([], [])
    else
      var before := BuildChildren(w, c, groups[..|groups| - 1], depth, active, aggregate);
      var g := groups[|groups| - 1];
      var child := BuildComponent(w, c, g.first, depth, active, aggregate);
      BuiltList(before.items + [child.item.(quantity := g.count)], before.warnings + child.warnings)
  }

  function Placeholder(comp: Component): Built {
    Built(EmptyItem(Part, StripInstanceSuffix(comp.name)).(
            windowsPath := comp.path, configuration := comp.configuration, suppressed := comp.suppressed,
            excluded := comp.excluded),
          if comp.path == "" then [] else [NotResolved(comp.path)])
  }

  ghost function BuildComponent(w: World, c: Settings, comp: Component, depth: nat, active: set<string>, aggregate: bool):
    Built
    requires Sensible(w)
    decreases |w.files - active|, 1, 0
  {
    if Resolved(w, comp) == "" then Placeholder(comp)
    else BuildFromPath(w, c, Resolved(w, comp), comp.path, StripInstanceSuffix(comp.name), comp.configuration, depth,
                       active, aggregate)
  }

  function Missing(name: string, path: string, windowsPath: string): BomItem {
    EmptyItem(Part, name).(filePath := path, windowsPath := windowsPath)
  }

  // Every file on the way down is outside the active ones, so the files left to
  // open bound the recursion.
  ghost function BuildFromPath(w: World, c: Settings, resolved: string, windowsPath: string, name: string, wanted: string,
                               depth: nat, active: set<string>, aggregate: bool): Built
    requires Sensible(w)
    decreases |w.files - active|, 0, 0
  {
    var path := w.canonical(resolved);
    if path in active then Built(Missing(name, path, windowsPath), [Cycle(path)])
    else if w.open(path).None? then Built(Missing(name, path, windowsPath), [OpenFailed(path)])
    else
      FewerFiles(w, path, active);
      var doc := w.open(path).value;
      var built := BuildDocument(w, c, path, doc, wanted, depth, active + {path}, aggregate);
      var named := if name == "" then built.item else built.item.(name := name);
      Built(named.(windowsPath := windowsPath), built.warnings)
  }

  lemma FewerFiles(w: World, path: string, active: set<string>)
    requires Sensible(w) && w.open(path).Some? && path !in active
    ensures |w.files - (active + {path})| < |w.files - active|
  {
    assert w.files - active == (w.files - (active + {path})) + {path};
  }

  ghost function BuildDocument(w: World, c: Settings, path: string, doc: Document, wanted: string, depth: nat,
                               active: set<string>, aggregate: bool): Built
    requires Sensible(w)
    decreases |w.files - active|, 3, 0
  {
    match doc.kind
    case AssemblyDocument => BuildAssembly(w, c, path, doc, wanted, depth, active, aggregate)
    case PartDocument => BuildPart(w, c, path, doc, wanted)
    case DrawingDocument => BuildDrawing(w, c, path, doc, active, aggregate)
  }

  ghost function BuildDrawing(w: World, c: Settings, path: string, doc: Document, active: set<string>, aggregate: bool):
    Built
    requires Sensible(w)
    decreases |w.files - active|, 2, 0
  {
    var children := BuildViews(w, c, References(doc.sheets, []), active, aggregate);
    Built(EmptyItem(Drawing, w.stem(path)).(filePath := path, children := children.items), children.warnings)
  }

  ghost function BuildViews(w: World, c: Settings, views: seq<View>, active: set<string>, aggregate: bool): BuiltList
    requires Sensible(w)
    decreases |w.files - active|, 1, |views|
  {
    if views == [] then BuiltList([], [])
    else
      var before := BuildViews(w, c, views[..|views| - 1], active, aggregate);
      var v := views[|views| - 1];
      var child := BuildView(w, c, v, active, aggregate);
      BuiltList(before.items + [child.item], before.warnings + child.warnings)
  }

  ghost function BuildView(w: World, c: Settings, v: View, active: set<string>, aggregate: bool): Built
    requires Sensible(w)
    decreases |w.files - active|, 1, 0
  {
    match w.resolve(v.document)
    case None =>
      Built(EmptyItem(Part, w.stem(v.document)).(windowsPath := v.document, configuration := v.configuration),
            [ModelNotResolved(v.document)])
    case Some(resolved) =>
      BuildFromPath(w, c, resolved, v.document, w.stem(resolved), v.configuration, 1, active, aggregate)
  }

  // ---------------------------------------------------------------- leaf counts

  // What identifies a leaf: its file, or what is known of it without one.
  datatype Label = Label(kind: ItemType, file: string, configuration: string, cut: string)

  function LabelOf(item: BomItem): Label {
    var file := if item.filePath != "" then item.filePath
                else if item.windowsPath != "" then item.windowsPath
                else item.name;
    Label(item.kind, file, item.configuration, if item.kind == CutListItem then item.name else "")
  }

  // How many leaves with a label one unit of the item contains.
  function Count(item: BomItem, leaf: Label): nat
    decreases item, 0
  {
    if item.children == [] then (if LabelOf(item) == leaf then 1 else 0) else CountAll(item.children, leaf)
  }

  function CountAll(items: seq<BomItem>, leaf: Label): nat
    decreases items, 1
  {
    if items == [] then 0
    else
      var last := items[|items| - 1];
      CountAll(items[..|items| - 1], leaf) + Weighted(last.quantity, Count(last, leaf))
  }

  function Weighted(quantity: nat, count: nat): nat {
    quantity * count
  }
}
