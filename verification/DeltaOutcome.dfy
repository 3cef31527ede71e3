// What the records of a state must satisfy so that the emitted snapshot is
// valid and closed: conditions on the records alone, before any layout.
module DeltaOutcome {
  import opened Results
  import opened SchemaDefinitions
  import opened SchemaNodes
  import opened SchemaReport
  import opened ModelChecks
  import opened DeltaState
  import opened RecordLayout

  // ---------------------------------------------------------------- one record

  predicate FieldsShaped(length: Option<nat>, defs: seq<FieldDefinition>, fields: seq<DecodedField>) {
    && |fields| == |defs|
    && forall i :: 0 <= i < |defs| ==> FieldShaped(length, defs[i], i, fields[i])
  }

  // A record whose node has the fields of its definition.
  predicate RecordShaped(r: Record) {
    && r.Id() != 0 && 2 <= r.node.nodeType <= 32767 && !r.node.framed && r.definition.nodeType == r.node.nodeType
    && (r.node.body.variableLength.Some? <==> HasLength(r.definition.fields)) && ValidFields(r.definition.fields)
    && FieldsShaped(r.node.body.variableLength, r.definition.fields, r.node.body.fields)
  }

  function RecordDefinitions(r: Record): (defs: seq<FieldDefinition>)
    ensures |defs| == |r.node.body.fields|
  {
    if |r.definition.fields| == |r.node.body.fields| then r.definition.fields
    else seq(|r.node.body.fields|, _ => FieldDefinition([], Byte, 0, 0, true))
  }

  function RecordReferences(records: seq<Record>): nat {
    if records == [] then 0
    else
      var last := records[|records| - 1];
      RecordReferences(records[..|records| - 1]) + References(RecordDefinitions(last), last.node.body.fields)
  }

  // The value names a record of a class not known to be wrong.
  ghost predicate HasTarget(records: seq<Record>, w: nat, pointerClass: nat, rule: ClassRule) {
    exists m :: 0 <= m < |records|
      && records[m].Id() == w && rule(pointerClass, records[m].node.nodeType) != Some(false)
  }

  ghost predicate FieldClosed(records: seq<Record>, rule: ClassRule, def: FieldDefinition, f: DecodedField) {
    def.fieldType == Pointer ==>
      forall e :: 0 <= e < f.elements && e < |f.values| && f.values[e].Word? && f.values[e].w != 0 ==>
        HasTarget(records, f.values[e].w, def.pointerClass, rule)
  }

  ghost predicate RecordClosed(records: seq<Record>, rule: ClassRule, r: Record) {
    var defs := RecordDefinitions(r);
    forall i :: 0 <= i < |defs| ==> FieldClosed(records, rule, defs[i], r.node.body.fields[i])
  }

  ghost predicate RecordsClosed(records: seq<Record>, rule: ClassRule) {
    forall k :: 0 <= k < |records| ==> RecordClosed(records, rule, records[k])
  }

  // Every record fits its definition, the indices are distinct, the budgets
  // suffice, and every reference stays inside.
  ghost predicate Sound(kind: StreamKind, records: seq<Record>, o: ModelOptions, rule: ClassRule) {
    && OptionsValid(o) && (kind == Transmit || kind == PartitionStream)
    && |records| <= o.maxNodes && |records| <= o.maxFields
    && (forall k :: 0 <= k < |records| ==> RecordShaped(records[k])) && IdsDistinct(records)
    && RecordFields(records) <= o.maxFields && RecordValues(records) <= o.maxValues
    && RecordReferences(records) <= o.maxReferences
    && RecordsClosed(records, rule)
  }

  // ---------------------------------------------------------------- shapes survive the layout

  lemma ShapeKept(length: Option<nat>, def: FieldDefinition, i: nat, f: DecodedField, g: DecodedField)
    requires f.(offset := 0, size := 0) == g.(offset := 0, size := 0)
    ensures FieldShaped(length, def, i, f) <==> FieldShaped(length, def, i, g)
  {
  }

  lemma FieldsKept(length: Option<nat>, defs: seq<FieldDefinition>, a: seq<DecodedField>, b: seq<DecodedField>)
    requires Placeless(a) == Placeless(b)
    ensures FieldsShaped(length, defs, a) <==> FieldsShaped(length, defs, b)
  {
    hide FieldShaped;
    forall i | 0 <= i < |a|
      ensures i < |defs| ==> (FieldShaped(length, defs[i], i, a[i]) <==> FieldShaped(length, defs[i], i, b[i]))
    {
      assert Placeless(a)[i] == Placeless(b)[i];
      if i < |defs| {
        ShapeKept(length, defs[i], i, a[i], b[i]);
      }
    }
  }

  lemma ShapedAlike(a: Record, b: Record)
    requires Content(a) == Content(b)
    ensures RecordShaped(a) <==> RecordShaped(b)
  {
    hide FieldsShaped, HasLength, ValidFields;
    FieldsKept(a.node.body.variableLength, a.definition.fields, a.node.body.fields, b.node.body.fields);
  }

  lemma EmittedShape(base: Snapshot, records: seq<Record>, k: nat)
    requires k < |records|
    ensures NodeValid(Emitted(base, records), Emitted(base, records).report.nodes[k]) <==> RecordShaped(records[k])
  {
    hide HasLength, ValidFields, Spans, LaidFields, LaidNodes, LaidSchemas, FieldShaped, Content, NodeInRange,
         FieldInRange;
    var s := Emitted(base, records);
    var n := s.report.nodes[k];
    EmittedKeeps(base, records, k);
    EmittedRanges(base, records);
    ShapedAlike(Record(s.report.schemas[k].definition, n), records[k]);
    NodeShape(s, n);
  }

  // With proper byte ranges a node is valid when it is well shaped.
  lemma NodeShape(s: Snapshot, n: DecodedNode)
    requires n.schemaIndex < |s.report.schemas| && NodeInRange(s, n)
    requires forall i :: 0 <= i < |n.body.fields| ==> FieldInRange(n, n.body.fields[i])
    ensures NodeValid(s, n) <==> RecordShaped(Record(s.report.schemas[n.schemaIndex].definition, n))
  {
    hide HasLength, ValidFields, FieldShaped, NodeInRange, FieldInRange;
  }

  // ---------------------------------------------------------------- totals survive the layout

  lemma {:induction false} FieldTotalsKept(defs: seq<FieldDefinition>, a: seq<DecodedField>, b: seq<DecodedField>)
    requires Placeless(a) == Placeless(b) && |defs| == |a|
    ensures |a| == |b| && ValueTotal(a) == ValueTotal(b) && References(defs, a) == References(defs, b)
  {
    hide Placeless;
    assert |Placeless(a)| == |a| && |Placeless(b)| == |b|;
    if a != [] {
      var n := |a| - 1;
      ShorterPlaceless(a, b);
      FieldTotalsKept(defs[..n], a[..n], b[..n]);
    }
  }

  lemma ShorterPlaceless(a: seq<DecodedField>, b: seq<DecodedField>)
    requires Placeless(a) == Placeless(b) && a != []
    ensures |a| == |b| && Placeless(a[..|a| - 1]) == Placeless(b[..|a| - 1])
    ensures |a[|a| - 1].values| == |b[|a| - 1].values|
  {
    assert |Placeless(a)| == |a| && |Placeless(b)| == |b|;
    forall i | 0 <= i < |a|
      ensures a[i].(offset := 0, size := 0) == b[i].(offset := 0, size := 0)
    {
      assert Placeless(a)[i] == Placeless(b)[i];
    }
    var n := |a| - 1;
    assert a[n].values == a[n].(offset := 0, size := 0).values;
    forall i | 0 <= i < n
      ensures Placeless(a[..n])[i] == Placeless(b[..n])[i]
    {
      assert a[i].(offset := 0, size := 0) == b[i].(offset := 0, size := 0);
    }
  }

  lemma {:induction false} EmittedTotals(base: Snapshot, records: seq<Record>, k: nat)
    requires k <= |records|
    ensures var r := Emitted(base, records).report;
      && NodeFields(r.nodes[..k]) == RecordFields(records[..k])
      && NodeValues(r.nodes[..k]) == RecordValues(records[..k])
      && ReferenceTotal(r.schemas, r.nodes[..k]) == RecordReferences(records[..k])
  {
    hide Spans, LaidFields, LaidNodes, LaidSchemas, ValueTotal, References, RecordDefinitions;
    if k > 0 {
      EmittedTotals(base, records, k - 1);
      EmittedNode(base, records, k - 1);
      var r := Emitted(base, records).report;
      assert r.nodes[..k][..k - 1] == r.nodes[..k - 1] && records[..k][..k - 1] == records[..k - 1];
    }
  }

  lemma EmittedNode(base: Snapshot, records: seq<Record>, k: nat)
    requires k < |records|
    ensures var r := Emitted(base, records).report;
      var n, x := r.nodes[k], records[k];
      && DefinitionFields(r.schemas, n) == RecordDefinitions(x) && |n.body.fields| == |x.node.body.fields|
      && ValueTotal(n.body.fields) == ValueTotal(x.node.body.fields)
      && References(DefinitionFields(r.schemas, n), n.body.fields)
         == References(RecordDefinitions(x), x.node.body.fields)
  {
    hide Spans, LaidFields, LaidNodes, ValueTotal, References;
    EmittedKeeps(base, records, k);
    var r := Emitted(base, records).report;
    assert |Placeless(r.nodes[k].body.fields)| == |Placeless(records[k].node.body.fields)|;
    FieldTotalsKept(RecordDefinitions(records[k]), r.nodes[k].body.fields, records[k].node.body.fields);
  }

  // ---------------------------------------------------------------- references survive the layout

  lemma EmittedIds(base: Snapshot, records: seq<Record>)
    ensures var nodes := Emitted(base, records).report.nodes;
      forall k :: 0 <= k < |nodes| ==>
        nodes[k].body.index == records[k].Id() && nodes[k].nodeType == records[k].node.nodeType
  {
    hide Spans, LaidFields, LaidNodes, LaidSchemas;
    var nodes := Emitted(base, records).report.nodes;
    forall k | 0 <= k < |nodes|
      ensures nodes[k].body.index == records[k].Id() && nodes[k].nodeType == records[k].node.nodeType
    {
      EmittedKeeps(base, records, k);
    }
  }

  // A position table exists for distinct indices.
  ghost function Positions(records: seq<Record>): (m: map<nat, nat>) {
    if records == [] then map[]
    else Positions(records[..|records| - 1])[records[|records| - 1].Id() := |records| - 1]
  }

  lemma {:induction false} PositionsAt(records: seq<Record>)
    requires IdsDistinct(records)
    ensures var m := Positions(records);
      && (forall k :: 0 <= k < |records| ==> records[k].Id() in m && m[records[k].Id()] == k)
      && (forall id :: id in m ==> m[id] < |records| && records[m[id]].Id() == id)
  {
    if records != [] {
      PositionsAt(records[..|records| - 1]);
    }
  }

  lemma TargetIff(s: Snapshot, records: seq<Record>, positions: map<nat, nat>, rule: ClassRule, w: nat,
                  pointerClass: nat)
    requires PositionsAre(s.report.nodes, positions) && |s.report.nodes| == |records|
    requires forall k :: 0 <= k < |records| ==>
      s.report.nodes[k].body.index == records[k].Id() && s.report.nodes[k].nodeType == records[k].node.nodeType
    ensures HasTarget(records, w, pointerClass, rule)
       <==> && w in positions && positions[w] < |s.report.nodes|
            && rule(pointerClass, s.report.nodes[positions[w]].nodeType) != Some(false)
  {
  }

  lemma FieldResolvesIff(s: Snapshot, records: seq<Record>, positions: map<nat, nat>, rule: ClassRule,
                         def: FieldDefinition, f: DecodedField, g: DecodedField)
    requires PositionsAre(s.report.nodes, positions) && |s.report.nodes| == |records|
    requires forall k :: 0 <= k < |records| ==>
      s.report.nodes[k].body.index == records[k].Id() && s.report.nodes[k].nodeType == records[k].node.nodeType
    requires f.(offset := 0, size := 0) == g.(offset := 0, size := 0)
    ensures FieldResolves(s, positions, rule, def, f) <==> FieldClosed(records, rule, def, g)
  {
    hide HasTarget, PositionsAre;
    assert f.values == g.values && f.elements == g.elements;
    if def.fieldType == Pointer {
      forall e | 0 <= e < f.elements && e < |f.values| && f.values[e].Word? && f.values[e].w != 0
        ensures HasTarget(records, f.values[e].w, def.pointerClass, rule)
           <==> && f.values[e].w in positions && positions[f.values[e].w] < |s.report.nodes|
                && rule(def.pointerClass, s.report.nodes[positions[f.values[e].w]].nodeType) != Some(false)
      {
        TargetIff(s, records, positions, rule, f.values[e].w, def.pointerClass);
      }
    }
  }

  lemma EmittedResolves(base: Snapshot, records: seq<Record>, positions: map<nat, nat>, rule: ClassRule)
    requires PositionsAre(Emitted(base, records).report.nodes, positions)
    ensures AllResolve(Emitted(base, records), positions, rule) <==> RecordsClosed(records, rule)
  {
    hide Spans, LaidFields, LaidNodes, LaidSchemas, PositionsAre, FieldResolves, FieldClosed, NodeResolves,
         RecordClosed;
    var s := Emitted(base, records);
    forall k: nat | k < |records|
      ensures NodeResolves(s, positions, rule, s.report.nodes[k]) <==> RecordClosed(records, rule, records[k])
    {
      NodeResolvesIff(base, records, positions, rule, k);
    }
  }

  lemma NodeResolvesIff(base: Snapshot, records: seq<Record>, positions: map<nat, nat>, rule: ClassRule, k: nat)
    requires PositionsAre(Emitted(base, records).report.nodes, positions) && k < |records|
    ensures NodeResolves(Emitted(base, records), positions, rule, Emitted(base, records).report.nodes[k])
       <==> RecordClosed(records, rule, records[k])
  {
    hide Spans, LaidFields, LaidNodes, LaidSchemas, PositionsAre, FieldResolves, FieldClosed, RecordDefinitions,
         DefinitionFields;
    var s := Emitted(base, records);
    EmittedIds(base, records);
    EmittedNode(base, records, k);
    EmittedKeeps(base, records, k);
    var defs, a, b := RecordDefinitions(records[k]), s.report.nodes[k].body.fields, records[k].node.body.fields;
    forall i | 0 <= i < |defs|
      ensures FieldResolves(s, positions, rule, defs[i], a[i]) <==> FieldClosed(records, rule, defs[i], b[i])
    {
      assert Placeless(a)[i] == Placeless(b)[i];
      FieldResolvesIff(s, records, positions, rule, defs[i], a[i], b[i]);
    }
  }

  lemma EmittedClosed(base: Snapshot, records: seq<Record>, rule: ClassRule)
    requires IdsDistinct(records)
    ensures Closed(Emitted(base, records), rule) <==> RecordsClosed(records, rule)
  {
    hide Spans, LaidFields, LaidNodes, LaidSchemas, AllResolve, RecordsClosed;
    var s := Emitted(base, records);
    EmittedIds(base, records);
    PositionsAt(records);
    var positions := Positions(records);
    assert PositionsAre(s.report.nodes, positions);
    EmittedResolves(base, records, positions, rule);
    if other :| PositionsAre(s.report.nodes, other) && AllResolve(s, other, rule) {
      PositionsUnique(s.report.nodes, positions, other);
    }
  }

  // ---------------------------------------------------------------- the whole check

  lemma EmittedNodesValid(base: Snapshot, records: seq<Record>, o: ModelOptions)
    ensures NodesValid(Emitted(base, records), o, |records|)
       <==> && (forall k :: 0 <= k < |records| ==> RecordShaped(records[k])) && RecordsUnlike(records)
            && RecordFields(records) <= o.maxFields && RecordValues(records) <= o.maxValues
            && RecordReferences(records) <= o.maxReferences
  {
    hide Spans, LaidFields, LaidNodes, LaidSchemas, NodeValid, RecordShaped, NodeFields, NodeValues, ReferenceTotal,
         RecordFields, RecordValues, RecordReferences;
    var s := Emitted(base, records);
    var nodes := s.report.nodes;
    EmittedIds(base, records);
    EmittedTotals(base, records, |records|);
    assert nodes[..|records|] == nodes && records[..|records|] == records;
    forall k: nat | k < |records|
      ensures NodeValid(s, nodes[k]) <==> RecordShaped(records[k])
    {
      EmittedShape(base, records, k);
    }
  }

  predicate RecordsUnlike(records: seq<Record>) {
    forall j, k :: 0 <= j < k < |records| ==> records[j].Id() != records[k].Id()
  }

  lemma ShapedDistinct(records: seq<Record>)
    requires forall k :: 0 <= k < |records| ==> RecordShaped(records[k])
    ensures IdsDistinct(records) <==> RecordsUnlike(records)
  {
    hide FieldsShaped, ValidFields, HasLength;
  }

  // The final check of the emitted snapshot, in terms of the records.
  lemma CheckableIff(base: Snapshot, records: seq<Record>, o: ModelOptions, rule: ClassRule)
    ensures Checkable(Emitted(base, records), o, rule) <==> Sound(base.kind, records, o, rule)
  {
    hide NodesValid, RecordShaped, RecordFields, RecordValues, RecordReferences, RecordsClosed, Closed, Spans,
         LaidNodes;
    EmittedNodesValid(base, records, o);
    EmittedComplete(base, records);
    if forall k :: 0 <= k < |records| ==> RecordShaped(records[k]) {
      ShapedDistinct(records);
      if IdsDistinct(records) {
        EmittedClosed(base, records, rule);
      }
    }
  }

  lemma EmittedComplete(base: Snapshot, records: seq<Record>)
    ensures Complete(Emitted(base, records))
  {
    hide Spans, LaidNodes, LaidSchemas;
  }
}
