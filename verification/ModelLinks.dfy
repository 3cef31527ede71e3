// Linking references: one link per pointer value, its status, the counters of
// every status, and the retained findings.
module ModelLinks {
  import opened Results
  import opened BinaryReader
  import opened SchemaDefinitions
  import opened SchemaNodes
  import opened SchemaReport
  import opened ModelChecks

  datatype LinkStatus = NullLink | ResolvedLink | UnverifiedLink | MissingLink | WrongLink

  datatype Link = Link(
    field: Bytes,
    element: nat,
    target: nat,
    pointerClass: nat,
    targetNode: Option<nat>,
    status: LinkStatus)

  // A link with the place of its field.
  datatype Entry = Entry(link: Link, offset: nat)

  datatype Finding = Finding(status: LinkStatus, node: nat, offset: nat, field: Bytes)

  datatype Tally = Tally(
    nulls: nat,
    resolved: nat,
    unverified: nat,
    missing: nat,
    wrong: nat,
    issues: nat,
    findings: seq<Finding>)

  const NO_TALLY := Tally(0, 0, 0, 0, 0, 0, [])

  // ---------------------------------------------------------------- what the links are

  function TargetOf(f: DecodedField, e: nat): nat {
    if e < |f.values| && f.values[e].Word? then f.values[e].w else 0
  }

  // What a reference is: null, missing, or of a class that is right, wrong or
  // not reviewed.
  function LinkOf(s: Snapshot, positions: map<nat, nat>, rule: ClassRule, def: FieldDefinition, f: DecodedField,
                  e: nat): Link
  {
    var target := TargetOf(f, e);
    if target == 0 then Link(def.name, e, 0, def.pointerClass, None, NullLink)
    else if target !in positions || positions[target] >= |s.report.nodes| then
      Link(def.name, e, target, def.pointerClass, None, MissingLink)
    else
      var status := match rule(def.pointerClass, s.report.nodes[positions[target]].nodeType)
        case None => UnverifiedLink
        case Some(false) => WrongLink
        case Some(true) => ResolvedLink;
      Link(def.name, e, target, def.pointerClass, Some(positions[target]), status)
  }

  function FieldEntries(s: Snapshot, positions: map<nat, nat>, rule: ClassRule, def: FieldDefinition, f: DecodedField):
    seq<Entry>
  {
    if def.fieldType != Pointer then []
    else seq(f.elements, e requires 0 <= e < f.elements => Entry(LinkOf(s, positions, rule, def, f, e), f.offset))
  }

  // The links of the first i fields of a node.
  function NodeEntries(s: Snapshot, positions: map<nat, nat>, rule: ClassRule, n: DecodedNode, i: nat): seq<Entry>
    requires i <= |n.body.fields|
  {
    if i == 0 then []
    else NodeEntries(s, positions, rule, n, i - 1)
         + FieldEntries(s, positions, rule, DefinitionFields(s.report.schemas, n)[i - 1], n.body.fields[i - 1])
  }

  function LinksOf(entries: seq<Entry>): seq<Link> {
    seq(|entries|, k requires 0 <= k < |entries| => entries[k].link)
  }

  // ---------------------------------------------------------------- counters and findings

  // A finding is always counted, and kept while there is room.
  function Issue(t: Tally, max: nat, finding: Finding): Tally {
    t.(issues := t.issues + 1, findings := if |t.findings| < max then t.findings + [finding] else t.findings)
  }

  function Noted(t: Tally, max: nat, node: nat, e: Entry): Tally {
    var finding := Finding(e.link.status, node, e.offset, e.link.field);
    match e.link.status
    case NullLink => t.(nulls := t.nulls + 1)
    case ResolvedLink => t.(resolved := t.resolved + 1)
    case UnverifiedLink => Issue(t.(unverified := t.unverified + 1), max, finding)
    case MissingLink => Issue(t.(missing := t.missing + 1), max, finding)
    case WrongLink => Issue(t.(wrong := t.wrong + 1), max, finding)
  }

  function NotedAll(t: Tally, max: nat, node: nat, entries: seq<Entry>): Tally {
    if entries == [] then t
    else Noted(NotedAll(t, max, node, entries[..|entries| - 1]), max, node, entries[|entries| - 1])
  }

  lemma {:induction false} NotedConcat(t: Tally, max: nat, node: nat, a: seq<Entry>, b: seq<Entry>)
    ensures NotedAll(t, max, node, a + b) == NotedAll(NotedAll(t, max, node, a), max, node, b)
  {
    hide Noted;
    if b == [] {
      assert a + b == a;
    } else {
      NotedConcat(t, max, node, a, b[..|b| - 1]);
      assert (a + b)[..|a + b| - 1] == a + b[..|b| - 1];
    }
  }

  // The tally of the first k nodes.
  function TallyOf(s: Snapshot, positions: map<nat, nat>, rule: ClassRule, max: nat, k: nat): Tally
    requires k <= |s.report.nodes|
  {
    if k == 0 then NO_TALLY
    else
      var n := s.report.nodes[k - 1];
      NotedAll(TallyOf(s, positions, rule, max, k - 1), max, n.body.index,
               NodeEntries(s, positions, rule, n, |n.body.fields|))
  }

  // ---------------------------------------------------------------- what the tally means

  function Findings(node: nat, entries: seq<Entry>): seq<Finding> {
    if entries == [] then []
    else
      var e := entries[|entries| - 1];
      Findings(node, entries[..|entries| - 1])
      + if e.link.status in {NullLink, ResolvedLink} then []
        else [Finding(e.link.status, node, e.offset, e.link.field)]
  }

  // All findings of the first k nodes, kept or not.
  function AllFindings(s: Snapshot, positions: map<nat, nat>, rule: ClassRule, k: nat): seq<Finding>
    requires k <= |s.report.nodes|
  {
    if k == 0 then []
    else
      var n := s.report.nodes[k - 1];
      AllFindings(s, positions, rule, k - 1)
      + Findings(n.body.index, NodeEntries(s, positions, rule, n, |n.body.fields|))
  }

  function Retained(findings: seq<Finding>, max: nat): seq<Finding> {
    if |findings| <= max then findings else findings[..max]
  }

  // The counters add up, and the kept findings are the first ones.
  ghost predicate TallyIs(t: Tally, max: nat, references: nat, all: seq<Finding>) {
    && t.nulls + t.resolved + t.unverified + t.missing + t.wrong == references
    && t.issues == t.unverified + t.missing + t.wrong == |all|
    && t.findings == Retained(all, max)
  }

  lemma NotedIs(t: Tally, max: nat, node: nat, e: Entry, references: nat, all: seq<Finding>)
    requires TallyIs(t, max, references, all)
    ensures TallyIs(Noted(t, max, node, e), max, references + 1, all + Findings(node, [e]))
  {
    var found := Findings(node, [e]);
    assert [e][..0] == [] && Findings(node, []) == [];
    if found == [] {
      assert all + found == all;
    }
  }

  lemma {:induction false} NotedAllIs(t: Tally, max: nat, node: nat, entries: seq<Entry>, references: nat,
                                      all: seq<Finding>)
    requires TallyIs(t, max, references, all)
    ensures TallyIs(NotedAll(t, max, node, entries), max, references + |entries|, all + Findings(node, entries))
  {
    hide TallyIs, Noted;
    if entries == [] {
      assert all + [] == all;
    } else {
      var n := |entries| - 1;
      NotedAllIs(t, max, node, entries[..n], references, all);
      NotedIs(NotedAll(t, max, node, entries[..n]), max, node, entries[n], references + n,
              all + Findings(node, entries[..n]));
      OneFinding(node, entries);
      assert all + Findings(node, entries[..n]) + Findings(node, [entries[n]])
          == all + (Findings(node, entries[..n]) + Findings(node, [entries[n]]));
    }
  }

  lemma OneFinding(node: nat, entries: seq<Entry>)
    requires entries != []
    ensures Findings(node, entries)
         == Findings(node, entries[..|entries| - 1]) + Findings(node, [entries[|entries| - 1]])
  {
    assert [entries[|entries| - 1]][..0] == [] && Findings(node, []) == [];
  }

  lemma {:induction false} EntriesCount(s: Snapshot, positions: map<nat, nat>, rule: ClassRule, n: DecodedNode, i: nat)
    requires NodeValid(s, n) && i <= |n.body.fields|
    ensures var defs := DefinitionFields(s.report.schemas, n);
      |NodeEntries(s, positions, rule, n, i)| == References(defs[..i], n.body.fields[..i])
  {
    hide LinkOf, ValidFields, HasLength, NodeInRange, FieldInRange, ScalarMatches;
    var defs, fields := DefinitionFields(s.report.schemas, n), n.body.fields;
    if i > 0 {
      EntriesCount(s, positions, rule, n, i - 1);
      assert defs[..i][..i - 1] == defs[..i - 1] && fields[..i][..i - 1] == fields[..i - 1];
      assert FieldValid(n, defs[i - 1], i - 1, fields[i - 1]);
    }
  }

  lemma {:induction false} TallyMeans(s: Snapshot, positions: map<nat, nat>, rule: ClassRule, max: nat, k: nat)
    requires k <= |s.report.nodes| && forall j :: 0 <= j < k ==> NodeValid(s, s.report.nodes[j])
    ensures TallyIs(TallyOf(s, positions, rule, max, k), max, ReferenceTotal(s.report.schemas, s.report.nodes[..k]),
                    AllFindings(s, positions, rule, k))
  {
    hide TallyIs, NodeValid, NodeEntries, NotedAll, Findings, DefinitionFields, References;
    if k == 0 {
      NothingTallied(max);
    } else {
      TallyMeans(s, positions, rule, max, k - 1);
      var n := s.report.nodes[k - 1];
      EntriesCount(s, positions, rule, n, |n.body.fields|);
      WholeFields(s, n);
      assert s.report.nodes[..k][..k - 1] == s.report.nodes[..k - 1];
      NotedAllIs(TallyOf(s, positions, rule, max, k - 1), max, n.body.index,
                 NodeEntries(s, positions, rule, n, |n.body.fields|),
                 ReferenceTotal(s.report.schemas, s.report.nodes[..k - 1]), AllFindings(s, positions, rule, k - 1));
    }
  }

  lemma WholeFields(s: Snapshot, n: DecodedNode)
    ensures var defs := DefinitionFields(s.report.schemas, n);
      |defs| == |n.body.fields| && defs[..|n.body.fields|] == defs && n.body.fields[..|n.body.fields|] == n.body.fields
  {
  }

  lemma NothingTallied(max: nat)
    ensures TallyIs(NO_TALLY, max, 0, [])
  {
  }

  // ---------------------------------------------------------------- closed snapshots

  predicate Harmless(e: Entry) {
    e.link.status != MissingLink && e.link.status != WrongLink
  }

  predicate AllHarmless(entries: seq<Entry>) {
    forall k :: 0 <= k < |entries| ==> Harmless(entries[k])
  }

  lemma {:induction false} NotedHarmless(t: Tally, max: nat, node: nat, entries: seq<Entry>)
    ensures var r := NotedAll(t, max, node, entries);
      && t.missing + t.wrong <= r.missing + r.wrong
      && (r.missing + r.wrong == t.missing + t.wrong <==> AllHarmless(entries))
  {
    if entries != [] {
      NotedHarmless(t, max, node, entries[..|entries| - 1]);
    }
  }

  lemma FieldHarmless(s: Snapshot, positions: map<nat, nat>, rule: ClassRule, def: FieldDefinition, f: DecodedField)
    requires f.elements <= |f.values| || def.fieldType != Pointer
    ensures AllHarmless(FieldEntries(s, positions, rule, def, f)) <==> FieldResolves(s, positions, rule, def, f)
  {
    if def.fieldType == Pointer {
      var entries := FieldEntries(s, positions, rule, def, f);
      forall e | 0 <= e < f.elements
        ensures Harmless(entries[e]) <==> (f.values[e].Word? && f.values[e].w != 0 ==>
          && f.values[e].w in positions && positions[f.values[e].w] < |s.report.nodes|
          && rule(def.pointerClass, s.report.nodes[positions[f.values[e].w]].nodeType) != Some(false))
      {
        assert entries[e].link == LinkOf(s, positions, rule, def, f, e);
      }
    }
  }

  // The first i fields of a node resolve.
  predicate FieldsResolve(s: Snapshot, positions: map<nat, nat>, rule: ClassRule, n: DecodedNode, i: nat)
    requires i <= |n.body.fields|
  {
    forall j :: 0 <= j < i ==>
      FieldResolves(s, positions, rule, DefinitionFields(s.report.schemas, n)[j], n.body.fields[j])
  }

  lemma OneFieldMore(s: Snapshot, positions: map<nat, nat>, rule: ClassRule, n: DecodedNode, i: nat)
    requires 0 < i <= |n.body.fields|
    ensures FieldsResolve(s, positions, rule, n, i)
       <==> && FieldsResolve(s, positions, rule, n, i - 1)
            && FieldResolves(s, positions, rule, DefinitionFields(s.report.schemas, n)[i - 1], n.body.fields[i - 1])
  {
    hide FieldResolves, DefinitionFields;
  }

  lemma {:induction false} NodeHarmless(s: Snapshot, positions: map<nat, nat>, rule: ClassRule, n: DecodedNode, i: nat)
    requires NodeValid(s, n) && i <= |n.body.fields|
    ensures AllHarmless(NodeEntries(s, positions, rule, n, i)) <==> FieldsResolve(s, positions, rule, n, i)
  {
    hide FieldsResolve, FieldResolves, FieldEntries, AllHarmless, NodeValid, DefinitionFields;
    if i == 0 {
      NothingHarmful(s, positions, rule, n);
    } else {
      NodeHarmless(s, positions, rule, n, i - 1);
      WholeFields(s, n);
      var def, f := DefinitionFields(s.report.schemas, n)[i - 1], n.body.fields[i - 1];
      ElementsGiven(s, n, i - 1);
      FieldHarmless(s, positions, rule, def, f);
      OneFieldMore(s, positions, rule, n, i);
      HarmlessConcat(NodeEntries(s, positions, rule, n, i - 1), FieldEntries(s, positions, rule, def, f));
    }
  }

  lemma NothingHarmful(s: Snapshot, positions: map<nat, nat>, rule: ClassRule, n: DecodedNode)
    ensures AllHarmless([]) && FieldsResolve(s, positions, rule, n, 0)
  {
  }

  lemma ElementsGiven(s: Snapshot, n: DecodedNode, i: nat)
    requires NodeValid(s, n) && i < |n.body.fields|
    ensures DefinitionFields(s.report.schemas, n)[i].fieldType == Pointer ==>
      n.body.fields[i].elements <= |n.body.fields[i].values|
  {
    hide ValidFields, HasLength, NodeInRange, FieldInRange, ScalarMatches;
    assert FieldValid(n, DefinitionFields(s.report.schemas, n)[i], i, n.body.fields[i]);
  }

  lemma HarmlessConcat(a: seq<Entry>, b: seq<Entry>)
    ensures AllHarmless(a + b) <==> AllHarmless(a) && AllHarmless(b)
  {
    hide Harmless;
    if AllHarmless(a + b) {
      forall k | 0 <= k < |a|
        ensures Harmless(a[k])
      {
        assert (a + b)[k] == a[k];
      }
      forall k | 0 <= k < |b|
        ensures Harmless(b[k])
      {
        assert (a + b)[|a| + k] == b[k];
      }
    }
  }

  // The first k nodes resolve.
  predicate NodesResolve(s: Snapshot, positions: map<nat, nat>, rule: ClassRule, k: nat)
    requires k <= |s.report.nodes|
  {
    forall j :: 0 <= j < k ==> NodeResolves(s, positions, rule, s.report.nodes[j])
  }

  lemma OneNodeMore(s: Snapshot, positions: map<nat, nat>, rule: ClassRule, k: nat)
    requires 0 < k <= |s.report.nodes|
    ensures var n := s.report.nodes[k - 1];
      NodesResolve(s, positions, rule, k)
      <==> NodesResolve(s, positions, rule, k - 1) && FieldsResolve(s, positions, rule, n, |n.body.fields|)
  {
    hide FieldResolves;
    WholeFields(s, s.report.nodes[k - 1]);
  }

  // Nothing is missing or of a wrong class exactly when everything resolves.
  lemma {:induction false} TallyResolves(s: Snapshot, positions: map<nat, nat>, rule: ClassRule, max: nat, k: nat)
    requires k <= |s.report.nodes| && forall j :: 0 <= j < k ==> NodeValid(s, s.report.nodes[j])
    ensures var t := TallyOf(s, positions, rule, max, k);
      t.missing + t.wrong == 0 <==> NodesResolve(s, positions, rule, k)
  {
    hide NodeValid, NodeEntries, NotedAll, NodesResolve, FieldsResolve, AllHarmless;
    if k == 0 {
      NoNodesResolve(s, positions, rule);
    } else {
      TallyResolves(s, positions, rule, max, k - 1);
      var n := s.report.nodes[k - 1];
      NodeHarmless(s, positions, rule, n, |n.body.fields|);
      OneNodeMore(s, positions, rule, k);
      NotedHarmless(TallyOf(s, positions, rule, max, k - 1), max, n.body.index,
                    NodeEntries(s, positions, rule, n, |n.body.fields|));
    }
  }

  lemma NoNodesResolve(s: Snapshot, positions: map<nat, nat>, rule: ClassRule)
    ensures NodesResolve(s, positions, rule, 0)
  {
  }

  // ---------------------------------------------------------------- the linker

  // Every pointer value becomes a link; the counters add up to the number of
  // references, and the kept findings are the first ones.
  method LinkReferences(s: Snapshot, positions: map<nat, nat>, rule: ClassRule, max: nat)
    returns (links: seq<seq<Link>>, t: Tally)
    requires forall k :: 0 <= k < |s.report.nodes| ==> NodeValid(s, s.report.nodes[k])
    ensures |links| == |s.report.nodes|
    ensures forall k :: 0 <= k < |links| ==>
      links[k] == LinksOf(NodeEntries(s, positions, rule, s.report.nodes[k], |s.report.nodes[k].body.fields|))
    ensures TallyIs(t, max, ReferenceTotal(s.report.schemas, s.report.nodes),
                    AllFindings(s, positions, rule, |s.report.nodes|))
    ensures t.missing == 0 && t.wrong == 0 <==> AllResolve(s, positions, rule)
  {
    hide NodeValid, NodeEntries, NotedAll, TallyIs, LinksOf, NodeResolves, AllFindings, ReferenceTotal;
    links, t := [], NO_TALLY;
    for k := 0 to |s.report.nodes|
      invariant |links| == k && t == TallyOf(s, positions, rule, max, k)
      invariant forall j :: 0 <= j < k ==>
        links[j] == LinksOf(NodeEntries(s, positions, rule, s.report.nodes[j], |s.report.nodes[j].body.fields|))
    {
      var nodeLinks;
      nodeLinks, t := LinkNode(s, positions, rule, max, s.report.nodes[k], t);
      links := links + [nodeLinks];
    }
    TallyMeans(s, positions, rule, max, |s.report.nodes|);
    TallyResolves(s, positions, rule, max, |s.report.nodes|);
    assert s.report.nodes[..|s.report.nodes|] == s.report.nodes;
  }

  method LinkNode(s: Snapshot, positions: map<nat, nat>, rule: ClassRule, max: nat, n: DecodedNode, before: Tally)
    returns (links: seq<Link>, t: Tally)
    ensures var entries := NodeEntries(s, positions, rule, n, |n.body.fields|);
      links == LinksOf(entries) && t == NotedAll(before, max, n.body.index, entries)
  {
    hide FieldEntries, NotedAll, LinksOf;
    var defs := DefinitionFields(s.report.schemas, n);
    links, t := [], before;
    NothingLinked(before, max, n.body.index);
    for i := 0 to |n.body.fields|
      invariant links == LinksOf(NodeEntries(s, positions, rule, n, i))
      invariant t == NotedAll(before, max, n.body.index, NodeEntries(s, positions, rule, n, i))
    {
      ghost var entries := NodeEntries(s, positions, rule, n, i);
      ghost var more := FieldEntries(s, positions, rule, defs[i], n.body.fields[i]);
      NotedConcat(before, max, n.body.index, entries, more);
      LinksConcat(entries, more);
      if defs[i].fieldType == Pointer {
        var fieldLinks;
        fieldLinks, t := LinkField(s, positions, rule, max, n.body.index, defs[i], n.body.fields[i], t);
        links := links + fieldLinks;
      } else {
        NoEntries(s, positions, rule, defs[i], n.body.fields[i]);
        assert entries + [] == entries;
      }
    }
  }

  lemma NothingLinked(t: Tally, max: nat, node: nat)
    ensures NotedAll(t, max, node, []) == t && LinksOf([]) == []
  {
  }

  lemma NoEntries(s: Snapshot, positions: map<nat, nat>, rule: ClassRule, def: FieldDefinition, f: DecodedField)
    requires def.fieldType != Pointer
    ensures FieldEntries(s, positions, rule, def, f) == []
  {
  }

  lemma LinksConcat(a: seq<Entry>, b: seq<Entry>)
    ensures LinksOf(a + b) == LinksOf(a) + LinksOf(b)
  {
  }

  method LinkField(s: Snapshot, positions: map<nat, nat>, rule: ClassRule, max: nat, node: nat, def: FieldDefinition,
                   f: DecodedField, before: Tally) returns (links: seq<Link>, t: Tally)
    requires def.fieldType == Pointer
    ensures links == LinksOf(FieldEntries(s, positions, rule, def, f))
    ensures t == NotedAll(before, max, node, FieldEntries(s, positions, rule, def, f))
  {
    hide LinkOf, Noted;
    links, t := [], before;
    ghost var entries := FieldEntries(s, positions, rule, def, f);
    for e := 0 to f.elements
      invariant links == LinksOf(entries[..e]) && t == NotedAll(before, max, node, entries[..e])
    {
      assert entries[..e + 1][..e] == entries[..e];
      assert entries[e] == Entry(LinkOf(s, positions, rule, def, f, e), f.offset);
      var link;
      link, t := LinkOne(s, positions, rule, max, node, def, f, e, t);
      links := links + [link];
    }
    assert entries[..|entries|] == entries;
  }

  method LinkOne(s: Snapshot, positions: map<nat, nat>, rule: ClassRule, max: nat, node: nat, def: FieldDefinition,
                 f: DecodedField, e: nat, before: Tally) returns (link: Link, t: Tally)
    ensures link == LinkOf(s, positions, rule, def, f, e)
    ensures t == Noted(before, max, node, Entry(link, f.offset))
  {
    t := before;
    var target := TargetOf(f, e);
    link := Link(def.name, e, target, def.pointerClass, None, NullLink);
    if target == 0 {
      t := t.(nulls := t.nulls + 1);
    } else if target !in positions || positions[target] >= |s.report.nodes| {
      link := link.(status := MissingLink);
      t := Issue(t.(missing := t.missing + 1), max, Finding(MissingLink, node, f.offset, def.name));
    } else {
      link := link.(targetNode := Some(positions[target]));
      var compatible := rule(def.pointerClass, s.report.nodes[positions[target]].nodeType);
      match compatible {
        case None =>
          link := link.(status := UnverifiedLink);
          t := Issue(t.(unverified := t.unverified + 1), max, Finding(UnverifiedLink, node, f.offset, def.name));
        case Some(false) =>
          link := link.(status := WrongLink);
          t := Issue(t.(wrong := t.wrong + 1), max, Finding(WrongLink, node, f.offset, def.name));
        case Some(true) =>
          link := link.(status := ResolvedLink);
          t := t.(resolved := t.resolved + 1);
      }
    }
  }

  // A valid snapshot without dangling or wrong-class references.
  method Checked(s: Snapshot, o: ModelOptions, rule: ClassRule) returns (r: Result<map<nat, nat>>)
    ensures r.Ok? <==> Checkable(s, o, rule)
    ensures r.Ok? ==> PositionsAre(s.report.nodes, r.value)
  {
    hide NodeValid, PositionsAre, AllResolve;
    var positions :- ValidateAndIndex(s, o);
    var links, t := LinkReferences(s, positions, rule, o.maxDiagnostics);
    if t.missing != 0 || t.wrong != 0 {
      if other :| PositionsAre(s.report.nodes, other) && AllResolve(s, other, rule) {
        PositionsUnique(s.report.nodes, positions, other);
      }
      return Err(InvalidRecord);
    }
    return Ok(positions);
  }
}
