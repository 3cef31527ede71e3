// The transformer: one pass over the documents with a cache, the set of open
// ancestors and a growing list of warnings, refining the tree of BomTree.
module BomTransformation {
  import opened Results
  import opened BomTree
  import opened BomReach
  import opened BomGroups
  import opened BomConservation

  datatype Bom = Bom(root: BomItem, warnings: seq<Warning>)

  datatype Entry = Entry(first: Component, resolved: string, count: nat)

  // ---------------------------------------------------------------- groups in a map

  ghost predicate Distinct(order: seq<AggregationKey>) {
    forall i, j :: 0 <= i < j < |order| ==> order[i] != order[j]
  }

  // A map of groups with the order of their keys represents a list of groups.
  ghost predicate Represents(w: World, order: seq<AggregationKey>, table: map<AggregationKey, Entry>,
                             groups: seq<Group>) {
    && |order| == |groups|
    && Distinct(order)
    && (forall key :: key in table <==> key in order)
    && forall i :: 0 <= i < |order| ==>
         && groups[i].key == order[i]
         && Entry(groups[i].first, Resolved(w, groups[i].first), groups[i].count) == table[order[i]]
  }

  lemma RepresentsNew(w: World, order: seq<AggregationKey>, table: map<AggregationKey, Entry>, groups: seq<Group>,
                      comp: Component)
    requires Represents(w, order, table, groups) && KeyOf(w, comp) !in table
    ensures Represents(w, order + [KeyOf(w, comp)], table[KeyOf(w, comp) := Entry(comp, Resolved(w, comp), 1)],
                       AddToGroups(w, groups, comp))
  {
    hide KeyOf, Resolved;
    AddedNew(w, groups, comp);
  }

  lemma RepresentsAgain(w: World, order: seq<AggregationKey>, table: map<AggregationKey, Entry>, groups: seq<Group>,
                        comp: Component)
    requires Represents(w, order, table, groups) && KeyOf(w, comp) in table
    ensures var key := KeyOf(w, comp);
      Represents(w, order, table[key := table[key].(count := table[key].count + 1)], AddToGroups(w, groups, comp))
  {
    hide KeyOf, Resolved;
    var k :| 0 <= k < |order| && order[k] == KeyOf(w, comp);
    AddedAgain(w, groups, comp, k);
  }

  // ---------------------------------------------------------------- the state

  class BuildContext {
    var docCache: map<string, Document>
    var activeStack: set<string>
    var warnings: seq<Warning>

    constructor ()
      ensures docCache == map[] && activeStack == {} && warnings == []
    {
      docCache := map[];
      activeStack := {};
      warnings := [];
    }

    // Every cached document is the one its file opens as.
    ghost predicate Agrees(w: World)
      reads this`docCache
    {
      forall p :: p in docCache ==> w.open(p) == Some(docCache[p])
    }
  }

  class BomTransformer {
    const world: World
    const config: Settings

    constructor (world: World, config: Settings)
      ensures this.world == world && this.config == config
    {
      this.world := world;
      this.config := config;
    }

    // ---------------------------------------------------------------- helpers

    method SelectConfig(ctx: BuildContext, doc: Document, wanted: string) returns (selected: Option<Configuration>)
      modifies ctx`warnings
      ensures selected == BomTree.SelectConfig(config, doc, wanted).configuration
      ensures ctx.warnings == old(ctx.warnings) + BomTree.SelectConfig(config, doc, wanted).warnings
    {
      if doc.configurations == [] {
        return None;
      }
      var target := if wanted == "" then config.configurationName else wanted;
      if target != "" {
        var i := 0;
        while i < |doc.configurations|
          invariant 0 <= i <= |doc.configurations|
          invariant FindConfiguration(doc.configurations, target) == FindConfiguration(doc.configurations[i..], target)
        {
          if doc.configurations[i].name == target {
            return Some(doc.configurations[i]);
          }
          i := i + 1;
        }
        ctx.warnings := ctx.warnings + [ConfigurationMissing(target)];
      }
      return Some(doc.configurations[0]);
    }

    method GetOrParse(ctx: BuildContext, path: string) returns (doc: Option<Document>)
      requires ctx.Agrees(world)
      modifies ctx`docCache, ctx`warnings
      ensures ctx.Agrees(world)
      ensures doc == world.open(path)
      ensures ctx.warnings == old(ctx.warnings) + (if doc.None? then [OpenFailed(path)] else [])
    {
      if path in ctx.docCache {
        return Some(ctx.docCache[path]);
      }
      match world.open(path) {
        case None =>
          ctx.warnings := ctx.warnings + [OpenFailed(path)];
          return None;
        case Some(parsed) =>
          ctx.docCache := ctx.docCache[path := parsed];
          return Some(parsed);
      }
    }

    // ---------------------------------------------------------------- parts

    method BuildPart(ctx: BuildContext, path: string, doc: Document, wanted: string) returns (item: BomItem)
      modifies ctx`warnings
      ensures item == BomTree.BuildPart(world, config, path, doc, wanted).item
      ensures ctx.warnings == old(ctx.warnings) + BomTree.BuildPart(world, config, path, doc, wanted).warnings
    {
      hide BomTree.SelectConfig;
      item := EmptyItem(Part, world.stem(path)).(filePath := path);
      var selected := SelectConfig(ctx, doc, wanted);
      match selected {
        case None =>
          item := item.(properties := doc.properties);
        case Some(cfg) =>
          item := item.(configuration := cfg.name, properties := doc.properties + cfg.properties);
          if config.expandCutLists && cfg.cutList != [] {
            var i := 0;
            var children := [];
            while i < |cfg.cutList|
              invariant 0 <= i <= |cfg.cutList|
              invariant children == CutItems(cfg.cutList, cfg.name, path)[..i]
            {
              var entry := cfg.cutList[i];
              var cut := EmptyItem(CutListItem, entry.name).(
                configuration := item.configuration, filePath := item.filePath, properties := entry.properties,
                quantity := if entry.quantity > 0 then entry.quantity else 1);
              children := children + [cut];
              i := i + 1;
            }
            item := item.(children := children);
          }
      }
    }

    // ---------------------------------------------------------------- assemblies

    method GroupInstances(comps: seq<Component>)
      returns (order: seq<AggregationKey>, table: map<AggregationKey, Entry>)
      ensures Represents(world, order, table, Groups(world, Filtered(config, comps)))
    {
      hide Resolved, AddToGroups, Represents, KeyOf, Visible;
      order, table := [], map[];
      RepresentsNothing(world);
      assert comps[..0] == [];
      var i := 0;
      while i < |comps|
        invariant 0 <= i <= |comps|
        invariant Represents(world, order, table, Groups(world, Filtered(config, comps[..i])))
      {
        var comp := comps[i];
        ghost var groups := Groups(world, Filtered(config, comps[..i]));
        FilteredStep(world, config, comps, i);
        i := i + 1;
        if !Visible(config, comp) {
          continue;
        }
        var resolved := Resolve(comp);
        var pathKey := if resolved == "" then comp.path else resolved;
        if pathKey == "" {
          pathKey := StripInstanceSuffix(comp.name);
        }
        var key := AggregationKey(pathKey, comp.configuration);
        KeyParts(world, comp);
        if key !in table {
          RepresentsNew(world, order, table, groups, comp);
          table := table[key := Entry(comp, resolved, 1)];
          order := order + [key];
        } else {
          RepresentsAgain(world, order, table, groups, comp);
          table := table[key := table[key].(count := table[key].count + 1)];
        }
      }
      assert comps[..|comps|] == comps;
    }

    method Resolve(comp: Component) returns (resolved: string)
      ensures resolved == Resolved(world, comp)
    {
      resolved := "";
      if comp.path != "" {
        var r := world.resolve(comp.path);
        if r.Some? {
          resolved := r.value;
        }
      }
    }

    method BuildAssembly(ctx: BuildContext, path: string, doc: Document, wanted: string, depth: nat)
      returns (item: BomItem)
      requires Sensible(world) && ctx.Agrees(world)
      modifies ctx
      ensures ctx.Agrees(world) && ctx.activeStack == old(ctx.activeStack)
      ensures item == BomTree.BuildAssembly(world, config, path, doc, wanted, depth, old(ctx.activeStack), true).item
      ensures ctx.warnings == old(ctx.warnings) +
              BomTree.BuildAssembly(world, config, path, doc, wanted, depth, old(ctx.activeStack), true).warnings
      decreases |world.files - ctx.activeStack|, 2, 0
    {
      hide BomTree.SelectConfig, BomTree.BuildChildren, Groups, Filtered, Sensible;
      item := EmptyItem(Assembly, world.stem(path)).(filePath := path);
      var selected := SelectConfig(ctx, doc, wanted);
      match selected {
        case None =>
          item := item.(properties := doc.properties);
        case Some(cfg) =>
          item := item.(configuration := cfg.name, properties := doc.properties + cfg.properties);
          if cfg.components == [] {
            return;
          }
          if config.maxDepth > 0 && depth >= config.maxDepth {
            ctx.warnings := ctx.warnings + [DepthReached(path)];
            return;
          }
          var order, table := GroupInstances(cfg.components);
          var children := BuildChildren(ctx, order, table, depth + 1,
                                        Groups(world, Filtered(config, cfg.components)));
          item := item.(children := children);
      }
    }

    method BuildChildren(ctx: BuildContext, order: seq<AggregationKey>, table: map<AggregationKey, Entry>, depth: nat,
                         ghost groups: seq<Group>) returns (children: seq<BomItem>)
      requires Sensible(world) && ctx.Agrees(world)
      requires Represents(world, order, table, groups)
      modifies ctx
      ensures ctx.Agrees(world) && ctx.activeStack == old(ctx.activeStack)
      ensures children == BomTree.BuildChildren(world, config, groups, depth, old(ctx.activeStack), true).items
      ensures ctx.warnings == old(ctx.warnings) +
              BomTree.BuildChildren(world, config, groups, depth, old(ctx.activeStack), true).warnings
      decreases |world.files - ctx.activeStack|, 1, |order|
    {
      hide BomTree.BuildFromPath, Resolved, StripInstanceSuffix, Sensible, Represents, BuildContext.Agrees;
      SameLength(world, order, table, groups);
      children := [];
      var i := 0;
      while i < |order|
        invariant 0 <= i <= |order|
        invariant ctx.Agrees(world) && ctx.activeStack == old(ctx.activeStack)
        invariant children == BomTree.BuildChildren(world, config, groups[..i], depth, old(ctx.activeStack), true).items
        invariant ctx.warnings == old(ctx.warnings) +
                  BomTree.BuildChildren(world, config, groups[..i], depth, old(ctx.activeStack), true).warnings
      {
        EntryAt(world, order, table, groups, i);
        var entry := table[order[i]];
        var comp := entry.first;
        assert groups[..i + 1][..i] == groups[..i];
        var child;
        if entry.resolved != "" {
          child := BuildFromPath(ctx, entry.resolved, comp.path, StripInstanceSuffix(comp.name), comp.configuration,
                                 depth);
        } else {
          if comp.path != "" {
            ctx.warnings := ctx.warnings + [NotResolved(comp.path)];
          }
          child := EmptyItem(Part, StripInstanceSuffix(comp.name)).(
            windowsPath := comp.path, configuration := comp.configuration, suppressed := comp.suppressed,
            excluded := comp.excluded);
        }
        child := child.(quantity := entry.count);
        children := children + [child];
        i := i + 1;
      }
      assert groups[..|groups|] == groups;
    }

    // ---------------------------------------------------------------- any document

    method BuildDocument(ctx: BuildContext, path: string, doc: Document, wanted: string, depth: nat)
      returns (item: BomItem)
      requires Sensible(world) && ctx.Agrees(world)
      modifies ctx
      ensures ctx.Agrees(world) && ctx.activeStack == old(ctx.activeStack)
      ensures item == BomTree.BuildDocument(world, config, path, doc, wanted, depth, old(ctx.activeStack), true).item
      ensures ctx.warnings == old(ctx.warnings) +
              BomTree.BuildDocument(world, config, path, doc, wanted, depth, old(ctx.activeStack), true).warnings
      decreases |world.files - ctx.activeStack|, 3, 0
    {
      hide BomTree.BuildAssembly, BomTree.BuildPart, BomTree.BuildDrawing, Sensible;
      match doc.kind {
        case AssemblyDocument => item := BuildAssembly(ctx, path, doc, wanted, depth);
        case PartDocument => item := BuildPart(ctx, path, doc, wanted);
        case DrawingDocument => item := BuildDrawing(ctx, path, doc);
      }
    }

    method BuildFromPath(ctx: BuildContext, resolved: string, windowsPath: string, name: string, wanted: string,
                         depth: nat) returns (item: BomItem)
      requires Sensible(world) && ctx.Agrees(world)
      modifies ctx
      ensures ctx.Agrees(world) && ctx.activeStack == old(ctx.activeStack)
      ensures item == BomTree.BuildFromPath(world, config, resolved, windowsPath, name, wanted, depth,
                                            old(ctx.activeStack), true).item
      ensures ctx.warnings == old(ctx.warnings) +
              BomTree.BuildFromPath(world, config, resolved, windowsPath, name, wanted, depth, old(ctx.activeStack),
                                    true).warnings
      decreases |world.files - ctx.activeStack|, 0, 0
    {
      hide BomTree.BuildDocument, BomTree.BuildFromPath, Sensible, BuildContext.Agrees;
      PathUnfolded(world, config, resolved, windowsPath, name, wanted, depth, ctx.activeStack);
      var path := world.canonical(resolved);
      if path in ctx.activeStack {
        ctx.warnings := ctx.warnings + [Cycle(path)];
        return EmptyItem(Part, name).(filePath := path, windowsPath := windowsPath);
      }
      var doc := GetOrParse(ctx, path);
      if doc.None? {
        return EmptyItem(Part, name).(filePath := path, windowsPath := windowsPath);
      }
      FewerFiles(world, path, ctx.activeStack);
      ctx.activeStack := ctx.activeStack + {path};
      item := BuildDocument(ctx, path, doc.value, wanted, depth);
      Closed(ctx.activeStack, old(ctx.activeStack), path);
      ctx.activeStack := ctx.activeStack - {path};
      if name != "" {
        item := item.(name := name);
      }
      item := item.(windowsPath := windowsPath);
    }

    // ---------------------------------------------------------------- drawings

    method CollectViews(sheets: seq<seq<View>>) returns (ordered: seq<View>)
      ensures ordered == References(sheets, [])
    {
      ordered := [];
      var seen: set<View> := {};
      var i := 0;
      while i < |sheets|
        invariant 0 <= i <= |sheets|
        invariant References(sheets, []) == References(sheets[i..], ordered)
        invariant forall v :: v in seen <==> v in ordered
      {
        var views := sheets[i];
        ghost var before := ordered;
        var j := 0;
        while j < |views|
          invariant 0 <= j <= |views|
          invariant ViewsOf(views, before) == ViewsOf(views[j..], ordered)
          invariant forall v :: v in seen <==> v in ordered
        {
          var v := views[j];
          j := j + 1;
          if v.document == "" {
            continue;
          }
          if v !in seen {
            seen := seen + {v};
            ordered := ordered + [v];
          }
        }
        i := i + 1;
      }
    }

    method BuildDrawing(ctx: BuildContext, path: string, doc: Document) returns (item: BomItem)
      requires Sensible(world) && ctx.Agrees(world)
      modifies ctx
      ensures ctx.Agrees(world) && ctx.activeStack == old(ctx.activeStack)
      ensures item == BomTree.BuildDrawing(world, config, path, doc, old(ctx.activeStack), true).item
      ensures ctx.warnings == old(ctx.warnings) +
              BomTree.BuildDrawing(world, config, path, doc, old(ctx.activeStack), true).warnings
      decreases |world.files - ctx.activeStack|, 2, 0
    {
      hide BomTree.BuildView, References, Sensible;
      item := EmptyItem(Drawing, world.stem(path)).(filePath := path);
      var ordered := CollectViews(doc.sheets);
      var children := [];
      var i := 0;
      while i < |ordered|
        invariant 0 <= i <= |ordered|
        invariant ctx.Agrees(world) && ctx.activeStack == old(ctx.activeStack)
        invariant children == BuildViews(world, config, ordered[..i], old(ctx.activeStack), true).items
        invariant ctx.warnings == old(ctx.warnings) +
                  BuildViews(world, config, ordered[..i], old(ctx.activeStack), true).warnings
      {
        var v := ordered[i];
        assert ordered[..i + 1][..i] == ordered[..i];
        var child := BuildView(ctx, v);
        children := children + [child];
        i := i + 1;
      }
      assert ordered[..|ordered|] == ordered;
      item := item.(children := children);
    }

    method BuildView(ctx: BuildContext, v: View) returns (item: BomItem)
      requires Sensible(world) && ctx.Agrees(world)
      modifies ctx
      ensures ctx.Agrees(world) && ctx.activeStack == old(ctx.activeStack)
      ensures item == BomTree.BuildView(world, config, v, old(ctx.activeStack), true).item
      ensures ctx.warnings == old(ctx.warnings) +
              BomTree.BuildView(world, config, v, old(ctx.activeStack), true).warnings
      decreases |world.files - ctx.activeStack|, 1, 0
    {
      hide BomTree.BuildFromPath, Sensible;
      var resolved := world.resolve(v.document);
      if resolved.None? {
        ctx.warnings := ctx.warnings + [ModelNotResolved(v.document)];
        return EmptyItem(Part, world.stem(v.document)).(
            windowsPath := v.document, configuration := v.configuration);
      }
      item := BuildFromPath(ctx, resolved.value, v.document, world.stem(resolved.value), v.configuration, 1);
    }

    // ---------------------------------------------------------------- the whole bill

    // The root opens; its tree is the aggregated tree, and it contains every leaf
    // as often as the tree that expands each instance, if in the assemblies
    // reached instances with one key contain the same leaves.
    method Build(path: string) returns (bom: Option<Bom>)
      requires Sensible(world)
      ensures bom.None? <==> world.open(path).None?
      ensures bom.Some? ==>
        var root := world.canonical(path);
        var built := BomTree.BuildDocument(world, config, root, world.open(path).value, config.configurationName, 0,
                                           {root}, true);
        bom.value == Bom(built.item, built.warnings)
      ensures bom.Some? ==>
        var root := world.canonical(path);
        DocumentHolds(Harmless, world, config, root, world.open(path).value, config.configurationName, 0, {root}) ==>
        forall leaf :: Count(bom.value.root, leaf) ==
          Count(BomTree.BuildDocument(world, config, root, world.open(path).value, config.configurationName, 0, {root},
                              false).item, leaf)
    {
      hide BomTree.BuildDocument, Count, DocumentHolds;
      var parsed := world.open(path);
      if parsed.None? {
        return None;
      }
      var ctx := new BuildContext();
      var root := world.canonical(path);
      var doc := parsed.value;
      ctx.docCache := ctx.docCache[root := doc];
      ctx.activeStack := ctx.activeStack + {root};
      assert ctx.activeStack == {root};
      var item := BuildDocument(ctx, root, doc, config.configurationName, 0);
      ctx.activeStack := ctx.activeStack - {root};
      if DocumentHolds(Harmless, world, config, root, doc, config.configurationName, 0, {root}) {
        forall leaf: Label
          ensures Count(item, leaf) ==
            Count(BomTree.BuildDocument(world, config, root, doc, config.configurationName, 0, {root},
                                        false).item, leaf)
        {
          DocumentConserves(world, config, root, doc, config.configurationName, 0, {root}, leaf);
        }
      }
      return Some(Bom(item, ctx.warnings));
    }
  }

  lemma KeyParts(w: World, comp: Component)
    ensures var path := if Resolved(w, comp) == "" then comp.path else Resolved(w, comp);
      KeyOf(w, comp) ==
      AggregationKey(if path == "" then StripInstanceSuffix(comp.name) else path, comp.configuration)
  {
  }

  lemma PathUnfolded(w: World, c: Settings, resolved: string, windowsPath: string, name: string, wanted: string,
                     depth: nat, active: set<string>)
    requires Sensible(w)
    ensures var path := w.canonical(resolved);
      BomTree.BuildFromPath(w, c, resolved, windowsPath, name, wanted, depth, active, true) ==
      if path in active then Built(Missing(name, path, windowsPath), [Cycle(path)])
      else if w.open(path).None? then Built(Missing(name, path, windowsPath), [OpenFailed(path)])
      else
        var built := BomTree.BuildDocument(w, c, path, w.open(path).value, wanted, depth, active + {path}, true);
        var named := if name == "" then built.item else built.item.(name := name);
        Built(named.(windowsPath := windowsPath), built.warnings)
  {
    hide BomTree.BuildDocument;
  }

  lemma Closed(grown: set<string>, before: set<string>, path: string)
    requires path !in before && grown == before + {path}
    ensures grown - {path} == before
  {
  }

  lemma SameLength(w: World, order: seq<AggregationKey>, table: map<AggregationKey, Entry>, groups: seq<Group>)
    requires Represents(w, order, table, groups)
    ensures |order| == |groups|
  {
  }

  lemma EntryAt(w: World, order: seq<AggregationKey>, table: map<AggregationKey, Entry>, groups: seq<Group>, i: nat)
    requires Represents(w, order, table, groups) && i < |order|
    ensures i < |groups| && order[i] in table
    ensures table[order[i]] == Entry(groups[i].first, Resolved(w, groups[i].first), groups[i].count)
  {
    hide Resolved;
  }

  lemma RepresentsNothing(w: World)
    ensures Represents(w, [], map[], [])
  {
  }

  lemma FilteredStep(w: World, c: Settings, comps: seq<Component>, i: nat)
    requires i < |comps|
    ensures var before := Filtered(c, comps[..i]);
      var after := Filtered(c, comps[..i + 1]);
      if Visible(c, comps[i]) then
        after == before + [comps[i]] && Groups(w, after) == AddToGroups(w, Groups(w, before), comps[i])
      else after == before
  {
    hide AddToGroups, Visible;
    assert comps[..i + 1][..i] == comps[..i];
    var before := Filtered(c, comps[..i]);
    assert (before + [comps[i]])[..|before|] == before;
  }
}
