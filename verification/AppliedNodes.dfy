// What the nodes of an applied delta hold, in terms of the source nodes and the
// plan's references.
module AppliedNodes {
  import opened Results
  import opened SchemaDefinitions
  import opened SchemaNodes
  import opened SchemaReport
  import opened ModelChecks
  import opened DeltaState
  import opened RecordLayout
  import opened DeltaOutcome
  import opened DeltaApply

  // ---------------------------------------------------------------- references

  predicate Maps(m: ReferenceMapping, wireIndex: nat, status: nat) {
    m.wireIndex == wireIndex && m.status == status
  }

  // Reference k is the only one for this wire index and status.
  predicate OnlyMapping(references: seq<ReferenceMapping>, k: nat, wireIndex: nat, status: nat) {
    && k < |references| && Maps(references[k], wireIndex, status)
    && forall j :: 0 <= j < |references| && j != k ==> !Maps(references[j], wireIndex, status)
  }

  ghost predicate MappedTo(references: seq<ReferenceMapping>, wireIndex: nat, status: nat, target: nat) {
    exists k: nat :: OnlyMapping(references, k, wireIndex, status) && references[k].target == target
  }

  lemma {:induction false} TableEntry(references: seq<ReferenceMapping>, k: nat)
    requires MappingsValid(references) && k < |references|
    ensures (references[k].wireIndex, references[k].status) in MappingTable(references)
    ensures MappingTable(references)[(references[k].wireIndex, references[k].status)] == references[k].target
  {
    var last := |references| - 1;
    if k < last {
      TableEntry(references[..last], k);
    }
  }

  lemma MappingIsOnly(references: seq<ReferenceMapping>, k: nat)
    requires MappingsValid(references) && k < |references|
    ensures OnlyMapping(references, k, references[k].wireIndex, references[k].status)
  {
  }

  // ---------------------------------------------------------------- values

  // A pointer: zero stays, anything else is the target of its one reference.
  ghost predicate PointerMoved(u: ScalarValue, status: nat, v: ScalarValue, references: seq<ReferenceMapping>) {
    && u.Word? && v.Word? && status <= 1
    && (if u.w == 0 then v.w == 0 else MappedTo(references, u.w, status, v.w))
  }

  // Any other value: integer words turn signed, everything else stays.
  predicate ValueMoved(t: FieldType, u: ScalarValue, v: ScalarValue) {
    if u.Word? && t == Integer && u.w < 0x1_0000_0000 then
      v == Signed(if u.w < 0x8000_0000 then u.w else u.w - 0x1_0000_0000)
    else if u.Word? && t == Short && u.w < 0x1_0000 then v == Signed(if u.w < 0x8000 then u.w else u.w - 0x1_0000)
    else v == u
  }

  lemma RemapMeans(u: ScalarValue, status: nat, references: seq<ReferenceMapping>)
    requires MappingsValid(references)
    ensures var r := RemapValue(u, status, MappingTable(references));
      && (r.Ok? ==> PointerMoved(u, status, r.value, references))
      && (r.Ok? <==> PointerConverts(u, status, references))
  {
    if u.Word? {
      var key := (u.w, status);
      MappingKeys(references, key);
      if key in MappingTable(references) {
        var k: nat :| k < |references| && (references[k].wireIndex, references[k].status) == key;
        TableEntry(references, k);
        MappingIsOnly(references, k);
        assert Maps(references[k], u.w, status);
      }
    }
  }

  // A 32-bit wire index with a status bit that is null or has a reference.
  ghost predicate PointerConverts(u: ScalarValue, status: nat, references: seq<ReferenceMapping>) {
    && u.Word? && u.w < 0x1_0000_0000 && status <= 1
    && (u.w == 0 || exists k: nat :: k < |references| && Maps(references[k], u.w, status))
  }

  // ---------------------------------------------------------------- fields

  ghost predicate PointersMoved(u: DecodedField, v: DecodedField, references: seq<ReferenceMapping>) {
    && |u.statuses| == |u.values| == |v.values|
    && forall i :: 0 <= i < |u.values| ==> PointerMoved(u.values[i], u.statuses[i], v.values[i], references)
  }

  predicate ValuesMoved(t: FieldType, u: DecodedField, v: DecodedField) {
    && u.statuses == [] && |u.values| == |v.values|
    && forall i :: 0 <= i < |u.values| ==> ValueMoved(t, u.values[i], v.values[i])
  }

  ghost predicate FieldMoved(t: FieldType, u: DecodedField, v: DecodedField, references: seq<ReferenceMapping>) {
    && v.definitionIndex == u.definitionIndex && v.elements == u.elements && v.components == u.components
    && v.statuses == []
    && (if t == Pointer then PointersMoved(u, v, references) else ValuesMoved(t, u, v))
  }

  // Pointers with one status each that resolve; no status elsewhere.
  ghost predicate FieldConverts(t: FieldType, u: DecodedField, references: seq<ReferenceMapping>) {
    if t == Pointer then
      && |u.statuses| == |u.values|
      && forall i :: 0 <= i < |u.values| ==> PointerConverts(u.values[i], u.statuses[i], references)
    else u.statuses == []
  }

  lemma {:induction false} RemapEach(values: seq<ScalarValue>, statuses: seq<nat>, references: seq<ReferenceMapping>)
    requires MappingsValid(references) && |values| == |statuses|
    ensures var r := RemapValues(values, statuses, MappingTable(references));
      && (r.Ok? <==> forall i :: 0 <= i < |values| ==> PointerConverts(values[i], statuses[i], references))
      && (r.Ok? ==> forall i :: 0 <= i < |values| ==> PointerMoved(values[i], statuses[i], r.value[i], references))
  {
    hide PointerMoved, PointerConverts, RemapValue, MappingsValid, MappingTable;
    if values != [] {
      RemapMeans(values[0], statuses[0], references);
      RemapEach(values[1..], statuses[1..], references);
      assert forall i :: 1 <= i < |values| ==> values[1..][i - 1] == values[i] && statuses[1..][i - 1] == statuses[i];
    }
  }

  lemma FieldMeans(t: FieldType, u: DecodedField, references: seq<ReferenceMapping>)
    requires MappingsValid(references)
    ensures var r := ConvertField(u, t, MappingTable(references));
      && (r.Ok? <==> FieldConverts(t, u, references))
      && (r.Ok? ==> FieldMoved(t, u, r.value, references))
  {
    hide PointerMoved, PointerConverts, MappingsValid, MappingTable, RemapValues;
    if t == Pointer && |u.statuses| == |u.values| {
      RemapEach(u.values, u.statuses, references);
    }
  }

  lemma {:induction false} FieldsMean(fields: seq<DecodedField>, defs: seq<FieldDefinition>,
                                      references: seq<ReferenceMapping>)
    requires MappingsValid(references) && |fields| == |defs|
    ensures var r := ConvertFields(fields, defs, MappingTable(references));
      && (r.Ok? <==> forall i :: 0 <= i < |fields| ==> FieldConverts(defs[i].fieldType, fields[i], references))
      && (r.Ok? ==> forall i :: 0 <= i < |fields| ==> FieldMoved(defs[i].fieldType, fields[i], r.value[i], references))
  {
    hide FieldMoved, FieldConverts, ConvertField, MappingsValid, MappingTable;
    if fields != [] {
      FieldMeans(defs[0].fieldType, fields[0], references);
      FieldsMean(fields[1..], defs[1..], references);
      assert forall i :: 1 <= i < |fields| ==> fields[1..][i - 1] == fields[i] && defs[1..][i - 1] == defs[i];
    }
  }

  // ---------------------------------------------------------------- nodes

  // Node m is source node n of definition t under a new index.
  ghost predicate NodeMoved(n: DecodedNode, t: TypeDefinition, target: nat, m: DecodedNode,
                            references: seq<ReferenceMapping>) {
    && m.nodeType == n.nodeType && !m.framed && m.body.index == target
    && m.body.variableLength == n.body.variableLength && |m.body.fields| == |n.body.fields| == |t.fields|
    && forall i :: 0 <= i < |t.fields| ==>
         FieldMoved(t.fields[i].fieldType, n.body.fields[i], m.body.fields[i], references)
  }

  predicate SameField(u: DecodedField, v: DecodedField) {
    && v.definitionIndex == u.definitionIndex && v.elements == u.elements && v.components == u.components
    && v.values == u.values && v.statuses == u.statuses
  }

  // Everything but the places.
  predicate SameNode(n: DecodedNode, m: DecodedNode) {
    && m.nodeType == n.nodeType && m.framed == n.framed && m.body.index == n.body.index
    && m.body.variableLength == n.body.variableLength && |m.body.fields| == |n.body.fields|
    && forall i :: 0 <= i < |n.body.fields| ==> SameField(n.body.fields[i], m.body.fields[i])
  }

  lemma SameContent(a: Record, b: Record)
    requires Content(a) == Content(b)
    ensures a.definition == b.definition && SameNode(a.node, b.node)
  {
    assert Content(a).node.body.fields == Content(b).node.body.fields;
    forall i | 0 <= i < |a.node.body.fields|
      ensures SameField(a.node.body.fields[i], b.node.body.fields[i])
    {
      assert Placeless(a.node.body.fields)[i] == Placeless(b.node.body.fields)[i];
    }
  }

  lemma MovedThenSame(n: DecodedNode, t: TypeDefinition, target: nat, m: DecodedNode, k: DecodedNode,
                      references: seq<ReferenceMapping>)
    requires NodeMoved(n, t, target, m, references) && SameNode(m, k)
    ensures NodeMoved(n, t, target, k, references)
  {
    hide PointerMoved, ValueMoved;
    forall i | 0 <= i < |t.fields|
      ensures FieldMoved(t.fields[i].fieldType, n.body.fields[i], k.body.fields[i], references)
    {
      assert SameField(m.body.fields[i], k.body.fields[i]);
      assert FieldMoved(t.fields[i].fieldType, n.body.fields[i], m.body.fields[i], references);
    }
  }

  // The definition of node k.
  function DefinitionOf(s: Snapshot, k: nat): TypeDefinition
    requires UsesKnown(s.report.nodes, |s.report.schemas|) && k < |s.report.nodes|
  {
    s.report.schemas[s.report.nodes[k].schemaIndex].definition
  }

  lemma EmittedNode(base: Snapshot, records: seq<Record>, k: nat)
    requires k < |records|
    ensures var s := Emitted(base, records);
      && UsesKnown(s.report.nodes, |s.report.schemas|) && |s.report.nodes| == |records|
      && DefinitionOf(s, k) == records[k].definition && SameNode(records[k].node, s.report.nodes[k])
  {
    hide Content, Spans, LaidNodes;
    var s := Emitted(base, records);
    forall j: nat | j < |records|
      ensures s.report.nodes[j].schemaIndex == j
    {
      EmittedKeeps(base, records, j);
    }
    EmittedKeeps(base, records, k);
    SameContent(records[k], Record(s.report.schemas[k].definition, s.report.nodes[k]));
  }

  // ---------------------------------------------------------------- the new snapshot

  ghost function After(base: DeltaState, delta: Snapshot, plan: Plan, o: ModelOptions, rule: ClassRule): Snapshot
    requires Checkable(base.snapshot, o, rule) && UsesKnown(base.snapshot.report.nodes, |base.snapshot.report.schemas|)
    requires Applicable(base, delta, plan, o, rule)
  {
    Emitted(base.snapshot, Planned(base, delta, plan, o).value)
  }

  // Node k of the snapshot is the only one with that index.
  predicate OnlyNode(s: Snapshot, k: nat, index: nat) {
    && k < |s.report.nodes| && s.report.nodes[k].body.index == index
    && forall j :: 0 <= j < |s.report.nodes| && j != k ==> s.report.nodes[j].body.index != index
  }

  lemma NodeFound(base: Snapshot, records: seq<Record>, id: nat) returns (k: nat)
    requires IdsDistinct(records) && Lookup(records, id).Some?
    ensures var s := Emitted(base, records);
      && UsesKnown(s.report.nodes, |s.report.schemas|) && OnlyNode(s, k, id)
      && DefinitionOf(s, k) == Lookup(records, id).value.definition
      && SameNode(Lookup(records, id).value.node, s.report.nodes[k])
  {
    hide Emitted, Position;
    k := Position(records, id).value;
    EmittedNode(base, records, k);
    forall j: nat | j < |records|
      ensures Emitted(base, records).report.nodes[j].body.index == records[j].Id()
    {
      EmittedNode(base, records, j);
    }
  }

  lemma NodeMissing(base: Snapshot, records: seq<Record>, id: nat)
    requires Lookup(records, id).None?
    ensures forall k :: 0 <= k < |Emitted(base, records).report.nodes| ==>
      Emitted(base, records).report.nodes[k].body.index != id
  {
    hide Spans, LaidNodes;
    forall k: nat | k < |records|
      ensures Emitted(base, records).report.nodes[k].body.index != id
    {
      EmittedNode(base, records, k);
    }
  }

  // What the operation on an index leaves under it.
  lemma PlannedLookup(base: DeltaState, delta: Snapshot, plan: Plan, o: ModelOptions, rule: ClassRule, id: nat)
    requires Checkable(base.snapshot, o, rule) && UsesKnown(base.snapshot.report.nodes, |base.snapshot.report.schemas|)
    requires Applicable(base, delta, plan, o, rule)
    ensures var records := Planned(base, delta, plan, o).value;
      var before := BaseRecords(base.snapshot.report.schemas, base.snapshot.report.nodes);
      && IdsDistinct(before) && IdsDistinct(records)
      && Lookup(records, id) == (match OperationOn(plan.operations, id)
           case None => Lookup(before, id)
           case Some(op) => RecordFor(Source(delta, MappingTable(plan.references), o), op))
  {
    hide SnapshotValid, Closed, Steps, AddressesFit, Lookup, RecordFor, OperationOn, SourcesShaped, RecordReferences,
      RecordsClosed, IdsDistinct, MappingTable;
    BaseDistinct(base.snapshot, o);
    StepsUpdateMap(Source(delta, MappingTable(plan.references), o),
                   BaseRecords(base.snapshot.report.schemas, base.snapshot.report.nodes), {}, {}, plan.operations, id);
  }

  lemma OperationIs(base: DeltaState, delta: Snapshot, plan: Plan, o: ModelOptions, rule: ClassRule, i: nat)
    requires Checkable(base.snapshot, o, rule) && UsesKnown(base.snapshot.report.nodes, |base.snapshot.report.schemas|)
    requires Applicable(base, delta, plan, o, rule) && i < |plan.operations|
    ensures OperationOn(plan.operations, plan.operations[i].target) == Some(plan.operations[i])
    ensures plan.operations[i].kind != Erase ==>
      RecordFor(Source(delta, MappingTable(plan.references), o), plan.operations[i]).Some?
  {
    hide SnapshotValid, Closed, Steps, AddressesFit, Lookup, RecordFor, OperationOn, SourcesShaped, RecordReferences,
      RecordsClosed, IdsDistinct, MappingTable;
    BaseDistinct(base.snapshot, o);
    OperationAt(Source(delta, MappingTable(plan.references), o),
                BaseRecords(base.snapshot.report.schemas, base.snapshot.report.nodes), {}, {}, plan.operations, i);
  }

  lemma RecordMoved(delta: Snapshot, references: seq<ReferenceMapping>, o: ModelOptions, op: Operation)
    requires MappingsValid(references) && RecordFor(Source(delta, MappingTable(references), o), op).Some?
    ensures op.occurrence < |delta.report.deltaNodes|
    ensures var n := delta.report.deltaNodes[op.occurrence];
      var record := RecordFor(Source(delta, MappingTable(references), o), op).value;
      && n.schemaIndex < |delta.report.schemas|
      && record.definition == delta.report.schemas[n.schemaIndex].definition
      && NodeMoved(n, record.definition, op.target, record.node, references)
  {
    hide FieldMoved, ConvertFields, NodeInRange, MappingsValid, MappingTable;
    var n := delta.report.deltaNodes[op.occurrence];
    FieldsMean(n.body.fields, delta.report.schemas[n.schemaIndex].definition.fields, references);
  }

  // Every created or replaced node is the source node with each pointer the
  // target of its one reference and each integer signed; nothing else changed.
  lemma PlacedNode(base: DeltaState, delta: Snapshot, plan: Plan, o: ModelOptions, rule: ClassRule, i: nat)
    returns (k: nat)
    requires Checkable(base.snapshot, o, rule) && UsesKnown(base.snapshot.report.nodes, |base.snapshot.report.schemas|)
    requires Applicable(base, delta, plan, o, rule) && i < |plan.operations| && plan.operations[i].kind != Erase
    ensures plan.operations[i].occurrence < |delta.report.deltaNodes|
    ensures var after, op := After(base, delta, plan, o, rule), plan.operations[i];
      var n := delta.report.deltaNodes[op.occurrence];
      && UsesKnown(after.report.nodes, |after.report.schemas|) && OnlyNode(after, k, op.target)
      && n.schemaIndex < |delta.report.schemas|
      && DefinitionOf(after, k) == delta.report.schemas[n.schemaIndex].definition
      && NodeMoved(n, DefinitionOf(after, k), op.target, after.report.nodes[k], plan.references)
  {
    hide SnapshotValid, Closed, Planned, AddressesFit, Lookup, RecordFor, OperationOn, SourcesShaped, RecordReferences,
      RecordsClosed, IdsDistinct, MappingTable, NodeMoved, SameNode, Emitted, MappingsValid, DeltaReady;
    var op, c := plan.operations[i], Source(delta, MappingTable(plan.references), o);
    OperationIs(base, delta, plan, o, rule, i);
    PlannedLookup(base, delta, plan, o, rule, op.target);
    RecordMoved(delta, plan.references, o, op);
    k := NodeFound(base.snapshot, Planned(base, delta, plan, o).value, op.target);
    var n := delta.report.deltaNodes[op.occurrence];
    MovedThenSame(n, RecordFor(c, op).value.definition, op.target, RecordFor(c, op).value.node,
                  After(base, delta, plan, o, rule).report.nodes[k], plan.references);
  }

  // A node whose index no operation names is there unchanged.
  lemma SurvivingNode(base: DeltaState, delta: Snapshot, plan: Plan, o: ModelOptions, rule: ClassRule, j: nat)
    returns (k: nat)
    requires Checkable(base.snapshot, o, rule) && UsesKnown(base.snapshot.report.nodes, |base.snapshot.report.schemas|)
    requires Applicable(base, delta, plan, o, rule) && j < |base.snapshot.report.nodes|
    requires forall i :: 0 <= i < |plan.operations| ==>
      plan.operations[i].target != base.snapshot.report.nodes[j].body.index
    ensures var after, n := After(base, delta, plan, o, rule), base.snapshot.report.nodes[j];
      && UsesKnown(after.report.nodes, |after.report.schemas|) && OnlyNode(after, k, n.body.index)
      && DefinitionOf(after, k) == DefinitionOf(base.snapshot, j) && SameNode(n, after.report.nodes[k])
  {
    hide SnapshotValid, Closed, Planned, AddressesFit, OperationOn, SourcesShaped, RecordReferences,
      RecordsClosed, IdsDistinct, MappingTable, SameNode, Emitted, MappingsValid, OnlyNode, DeltaReady, Position;
    var before := BaseRecords(base.snapshot.report.schemas, base.snapshot.report.nodes);
    var id := base.snapshot.report.nodes[j].body.index;
    PlannedLookup(base, delta, plan, o, rule, id);
    OperationFound(plan.operations, id);
    PositionIs(before, j);
    k := NodeFound(base.snapshot, Planned(base, delta, plan, o).value, id);
  }

  // An erased index is gone.
  lemma ErasedNode(base: DeltaState, delta: Snapshot, plan: Plan, o: ModelOptions, rule: ClassRule, i: nat)
    requires Checkable(base.snapshot, o, rule) && UsesKnown(base.snapshot.report.nodes, |base.snapshot.report.schemas|)
    requires Applicable(base, delta, plan, o, rule) && i < |plan.operations| && plan.operations[i].kind == Erase
    ensures var after := After(base, delta, plan, o, rule);
      forall k :: 0 <= k < |after.report.nodes| ==> after.report.nodes[k].body.index != plan.operations[i].target
  {
    hide SnapshotValid, Closed, Planned, AddressesFit, Lookup, OperationOn, SourcesShaped, RecordReferences,
      RecordsClosed, IdsDistinct, MappingTable, Emitted, MappingsValid, DeltaReady;
    OperationIs(base, delta, plan, o, rule, i);
    PlannedLookup(base, delta, plan, o, rule, plan.operations[i].target);
    NodeMissing(base.snapshot, Planned(base, delta, plan, o).value, plan.operations[i].target);
  }

  // No other node appears.
  lemma NodeAccounted(base: DeltaState, delta: Snapshot, plan: Plan, o: ModelOptions, rule: ClassRule, k: nat)
    requires Checkable(base.snapshot, o, rule) && UsesKnown(base.snapshot.report.nodes, |base.snapshot.report.schemas|)
    requires Applicable(base, delta, plan, o, rule) && k < |After(base, delta, plan, o, rule).report.nodes|
    ensures var id := After(base, delta, plan, o, rule).report.nodes[k].body.index;
      || (exists i :: 0 <= i < |plan.operations| && plan.operations[i].target == id)
      || (exists j :: 0 <= j < |base.snapshot.report.nodes| && base.snapshot.report.nodes[j].body.index == id)
  {
    hide SnapshotValid, Closed, Planned, AddressesFit, OperationOn, SourcesShaped, RecordReferences,
      RecordsClosed, IdsDistinct, MappingTable, Emitted, MappingsValid, DeltaReady, Position;
    var id := After(base, delta, plan, o, rule).report.nodes[k].body.index;
    PlannedLookup(base, delta, plan, o, rule, id);
    OperationFound(plan.operations, id);
    if Lookup(Planned(base, delta, plan, o).value, id).None? {
      NodeMissing(base.snapshot, Planned(base, delta, plan, o).value, id);
    }
  }
}
