// Which nodes of a delta stream can enter a state. Status framing decodes some
// values in a form the states do not have.
module DeltaSources {
  import opened Results
  import opened BinaryReader
  import opened SchemaDefinitions
  import opened SchemaNodes
  import opened DeltaPackets
  import opened SchemaReport
  import opened SchemaState
  import opened SchemaParser
  import opened ParsedModel
  import opened ModelChecks
  import opened DeltaState
  import opened RecordLayout
  import opened DeltaOutcome
  import opened DeltaApply

  // A body as the status-framed decoder leaves it.
  ghost predicate FramedBody(b: Body, defs: seq<FieldDefinition>) {
    exists pos: nat, taken: set<int>, fields: nat, budget: nat :: IsBody(b, pos, defs, true, taken, fields, budget)
  }

  // No intersection points, and no values in tag fields.
  predicate Usable(defs: seq<FieldDefinition>, fields: seq<DecodedField>)
    requires |defs| == |fields|
  {
    forall k :: 0 <= k < |defs| ==>
      defs[k].fieldType != IntersectionPoint && (defs[k].fieldType == Tag ==> fields[k].values == [])
  }

  predicate TargetsFit(mappings: map<(nat, nat), nat>) {
    forall key :: key in mappings ==> mappings[key] <= UINT32_MAX
  }

  // ---------------------------------------------------------------- one value

  lemma ScalarKept(t: FieldType, v: ScalarValue)
    requires IsScalar(t, true, v) && t != Pointer
    ensures ScalarMatches(SignedValue(v, t), t) <==> t != Tag
  {
    hide Power256;
    Powers();
  }

  lemma {:induction false} RemappedAt(values: seq<ScalarValue>, statuses: seq<nat>, mappings: map<(nat, nat), nat>,
                                      j: nat)
    requires |values| == |statuses| && j < |values| && RemapValues(values, statuses, mappings).Ok?
    ensures RemapValue(values[j], statuses[j], mappings) == Ok(RemapValues(values, statuses, mappings).value[j])
  {
    hide RemapValue;
    if j > 0 {
      RemappedAt(values[1..], statuses[1..], mappings, j - 1);
    }
  }

  lemma PointersMatch(values: seq<ScalarValue>, statuses: seq<nat>, mappings: map<(nat, nat), nat>)
    requires |values| == |statuses| && TargetsFit(mappings) && RemapValues(values, statuses, mappings).Ok?
    ensures forall j :: 0 <= j < |values| ==> ScalarMatches(RemapValues(values, statuses, mappings).value[j], Pointer)
  {
    forall j | 0 <= j < |values|
      ensures ScalarMatches(RemapValues(values, statuses, mappings).value[j], Pointer)
    {
      RemappedAt(values, statuses, mappings, j);
    }
  }

  // ---------------------------------------------------------------- one field

  lemma {:induction false} FramedField(fields: seq<DecodedField>, pos: nat, defs: seq<FieldDefinition>, i: nat,
                                       length: Option<nat>, budget: nat, k: nat)
    requires AreDecoded(fields, pos, defs, i, length, true, budget) && k < |fields|
    ensures i + k < |defs| && IsDecodedField(fields[k], fields[k].offset, defs, i + k, length, true)
    decreases |fields|
  {
    hide IsDecodedField;
    FieldHere(fields[0], pos, defs, i, length);
    if k > 0 {
      FramedField(fields[1..], pos + fields[0].size, defs, i + 1, length, budget - |fields[0].values|, k - 1);
    }
  }

  lemma FieldHere(f: DecodedField, pos: nat, defs: seq<FieldDefinition>, i: nat, length: Option<nat>)
    requires i < |defs| && IsDecodedField(f, pos, defs, i, length, true)
    ensures f.offset == pos
  {
  }

  lemma {:induction false} ConvertedAt(fields: seq<DecodedField>, defs: seq<FieldDefinition>,
                                       mappings: map<(nat, nat), nat>, k: nat)
    requires |fields| == |defs| && k < |fields| && ConvertFields(fields, defs, mappings).Ok?
    ensures ConvertField(fields[k], defs[k].fieldType, mappings) == Ok(ConvertFields(fields, defs, mappings).value[k])
  {
    hide ConvertField;
    if k > 0 {
      ConvertedAt(fields[1..], defs[1..], mappings, k - 1);
    }
  }

  // A decoded field keeps the shape of its definition unless it holds points or
  // tags.
  lemma FieldShapedIff(f: DecodedField, g: DecodedField, defs: seq<FieldDefinition>, k: nat, length: Option<nat>,
                       mappings: map<(nat, nat), nat>)
    requires k < |defs| && IsDecodedField(f, f.offset, defs, k, length, true) && TargetsFit(mappings)
    requires ConvertField(f, defs[k].fieldType, mappings) == Ok(g)
    ensures FieldShaped(length, defs[k], k, g)
       <==> defs[k].fieldType != IntersectionPoint && (defs[k].fieldType == Tag ==> f.values == [])
  {
    hide PrintValues, IsScalar, ScalarMatches, SignedValue, RemapValues, Product;
    var t := defs[k].fieldType;
    if t == Pointer {
      PointersMatch(f.values, f.statuses, mappings);
    } else {
      forall j | 0 <= j < |f.values|
        ensures ScalarMatches(g.values[j], t) <==> t != Tag
      {
        assert IsScalar(t, true, f.values[j]);
        ScalarKept(t, f.values[j]);
      }
      if f.values != [] {
        assert ScalarMatches(g.values[0], t) <==> t != Tag;
      }
    }
  }

  // ---------------------------------------------------------------- one node

  // A node decoded from a delta stream fits its definition exactly when it has
  // no intersection points and no values in tag fields.
  lemma DecodedShapedIff(c: Source, n: DecodedNode, t: TypeDefinition, target: nat)
    requires FramedBody(n.body, t.fields) && |n.body.fields| == |t.fields| && ValidFields(t.fields)
    requires n.nodeType == t.nodeType && 2 <= n.nodeType <= 32767 && target != 0 && TargetsFit(c.mappings)
    requires Converted(c, n, t, target).Ok?
    ensures RecordShaped(Converted(c, n, t, target).value) <==> Usable(t.fields, n.body.fields)
  {
    hide ConvertFields, FieldShaped, ValidFields, AreDecoded, PrintIndex, PrintLength, IsIndex;
    var pos: nat, taken: set<int>, limit: nat, budget: nat :| IsBody(n.body, pos, t.fields, true, taken, limit, budget);
    var defs, f, length := t.fields, n.body.fields, n.body.variableLength;
    var record := Converted(c, n, t, target).value;
    var start := pos + |PrintLength(length)| + |PrintIndex(n.body.index)|;
    forall k | 0 <= k < |defs|
      ensures FieldShaped(length, defs[k], k, record.node.body.fields[k])
         <==> defs[k].fieldType != IntersectionPoint && (defs[k].fieldType == Tag ==> f[k].values == [])
    {
      FramedField(f, start, defs, 0, length, budget, k);
      ConvertedAt(f, defs, c.mappings, k);
      FieldShapedIff(f[k], record.node.body.fields[k], defs, k, length, c.mappings);
    }
  }

  // Every framed node of a parsed delta stream is a proper source, so the
  // statement above is about all of them.
  lemma ParsedSource(data: Bytes, c: Context, r: Report, k: nat)
    requires IsReport(data, c, r) && BasesValid(c) && k < |r.deltaNodes|
    ensures var n := r.deltaNodes[k];
      && n.schemaIndex < |r.schemas|
      && var t := r.schemas[n.schemaIndex].definition;
         && SourceDefinition(Snapshot(Deltas, c.header.bodyOffset, |data|, r), n) == Ok(t)
         && FramedBody(n.body, t.fields) && ValidFields(t.fields) && 2 <= n.nodeType <= 32767
  {
    hide IsReport, SchemaOrigin, ValidFields, IsBody, PrintBody, NodeFields, NodeValues, Replay, SchemaFields;
    ReportNodes(data, c, r);
    ReportEnds(data, c, r);
    var n := r.deltaNodes[k];
    var defs := r.schemas[n.schemaIndex].definition.fields;
    DefinitionValid(c, r.schemas[n.schemaIndex]);
    var pos: nat, taken: set<int>, limit: nat, budget: nat :| BodyPlaced(data, n, defs, pos, taken, limit, budget);
    assert IsBody(n.body, pos, defs, true, taken, limit, budget);
  }

  // ---------------------------------------------------------------- plans that cannot apply

  // A field that no conversion brings into the form of a state.
  predicate Foreign(f: DecodedField, t: FieldType) {
    f.components != ComponentCount(t) || (t == Tag && exists j :: 0 <= j < |f.values| && f.values[j].Word?)
  }

  lemma ForeignUnshaped(c: Source, n: DecodedNode, t: TypeDefinition, target: nat, k: nat)
    requires |n.body.fields| == |t.fields| && k < |t.fields| && Foreign(n.body.fields[k], t.fields[k].fieldType)
    requires Converted(c, n, t, target).Ok?
    ensures !RecordShaped(Converted(c, n, t, target).value)
  {
    hide ConvertFields, ValidFields, HasLength;
    ConvertedAt(n.body.fields, t.fields, c.mappings, k);
    var f := n.body.fields[k];
    var g := Converted(c, n, t, target).value.node.body.fields[k];
    ForeignField(f, g, t.fields[k], k, n.body.variableLength, c.mappings);
  }

  lemma ForeignField(f: DecodedField, g: DecodedField, def: FieldDefinition, k: nat, length: Option<nat>,
                     mappings: map<(nat, nat), nat>)
    requires Foreign(f, def.fieldType) && ConvertField(f, def.fieldType, mappings) == Ok(g)
    ensures !FieldShaped(length, def, k, g)
  {
    hide RemapValues, Product;
    if f.components == ComponentCount(def.fieldType) {
      var j :| 0 <= j < |f.values| && f.values[j].Word?;
      assert g.values[j] == f.values[j];
    }
  }

  // No plan that puts such a node in place applies to any base.
  lemma ForeignNeverApplies(base: DeltaState, delta: Snapshot, plan: Plan, o: ModelOptions, rule: ClassRule, i: nat,
                            k: nat)
    requires UsesKnown(base.snapshot.report.nodes, |base.snapshot.report.schemas|)
    requires i < |plan.operations| && plan.operations[i].kind != Erase
    requires plan.operations[i].occurrence < |delta.report.deltaNodes|
    requires var n := delta.report.deltaNodes[plan.operations[i].occurrence];
      && SourceDefinition(delta, n).Ok? && k < |SourceDefinition(delta, n).value.fields| == |n.body.fields|
      && Foreign(n.body.fields[k], SourceDefinition(delta, n).value.fields[k].fieldType)
    ensures !Applicable(base, delta, plan, o, rule)
  {
    hide SourceDefinition, Converted, RecordShaped, Steps, AddressesFit, RecordsClosed, RecordReferences, Foreign;
    var c, op := Source(delta, MappingTable(plan.references), o), plan.operations[i];
    var n := delta.report.deltaNodes[op.occurrence];
    if SourcesShaped(c, plan.operations) {
      assert RecordFor(c, op).Some?;
      ForeignUnshaped(c, n, SourceDefinition(delta, n).value, op.target, k);
    }
  }

  // ---------------------------------------------------------------- a limit node

  function Name(s: string): Bytes {
    seq(|s|, i requires 0 <= i < |s| => (s[i] as int) % 256)
  }

  function LimitType(): TypeDefinition {
    TypeDefinition(41, Name("LIMIT"), [], [FieldDefinition(Name("type"), Character, 0, 0, true),
                                           FieldDefinition(Name("positions"), IntersectionPoint, 0, 1, true)])
  }

  // One point, as the status-framed decoder reads it.
  function LimitNode(): DecodedNode {
    DecodedNode(41, 0, 0, 97, true,
                Body(Some(1), 5, [DecodedField(0, 8, 1, 1, 1, [Word(76)], []),
                                  DecodedField(1, 9, 88, 1, 11, seq(11, _ => Bits(0)), [])]))
  }

  function LimitDelta(): Snapshot {
    var counts := Counts(1, 0, 0, 0, true, 0);
    var prefix := DeltaPrefix(0, 0, DeltaPartition(0, 1, 2, 0), Mark(0, Links(2, 0, 0, 0, 0), counts));
    Snapshot(Deltas, 0, 101,
             Report(true, 97, Some(97), 4, 101, 0, Some(prefix), [], [ResolvedSchema(LimitType(), Full, 0, 0, [])], [],
                    [LimitNode()], None))
  }

  function EmptyState(): DeltaState {
    DeltaState(1, Snapshot(Transmit, 0, 4, Report(true, 0, Some(0), 4, 4, 0, None, [], [], [], [], None)))
  }

  function LimitPlan(): Plan {
    Plan(1, 2, [Operation(Create, 7, 0)], [])
  }

  function SomeOptions(): ModelOptions {
    ModelOptions(100, 100, 100, 100, 100)
  }

  lemma LimitDefinition()
    ensures ValidFields(LimitType().fields)
  {
    assert |Name("type")| == 4 && |Name("positions")| == 9;
  }

  // Creating one limit node over an empty base passes every check but the last:
  // its point has eleven components where a state has three.
  lemma LimitNeverApplies(rule: ClassRule)
    ensures var base, delta, plan, o := EmptyState(), LimitDelta(), LimitPlan(), SomeOptions();
      && Checkable(base.snapshot, o, rule) && InputsFit(base, delta, plan, o)
      && Planned(base, delta, plan, o).Ok? && ValidFields(LimitType().fields)
      && !Applicable(base, delta, plan, o, rule)
  {
    var base, delta, plan, o := EmptyState(), LimitDelta(), LimitPlan(), SomeOptions();
    LimitDefinition();
    EmptyChecks(rule);
    LimitPlanned();
    ForeignNeverApplies(base, delta, plan, o, rule, 0, 1);
  }

  lemma EmptyChecks(rule: ClassRule)
    ensures Checkable(EmptyState().snapshot, SomeOptions(), rule)
  {
    var s := EmptyState().snapshot;
    var positions: map<nat, nat> := map[];
    assert PositionsAre(s.report.nodes, positions) && AllResolve(s, positions, rule);
    assert s.report.nodes[..0] == [];
  }

  lemma LimitPlanned()
    ensures InputsFit(EmptyState(), LimitDelta(), LimitPlan(), SomeOptions())
    ensures Planned(EmptyState(), LimitDelta(), LimitPlan(), SomeOptions()).Ok?
  {
    var o, n := SomeOptions(), LimitNode();
    var c, op := Source(LimitDelta(), MappingTable([]), o), Operation(Create, 7, 0);
    assert SourceDefinition(LimitDelta(), n) == Ok(LimitType());
    LimitConverts(c);
    assert SourceValues(n, [], 100) == Ok(0);
    assert n.body.fields[..1] == [n.body.fields[0]] && n.body.fields[..1][..0] == [];
    assert SourceValues(n, n.body.fields[..1], 100) == Ok(1);
    assert SourceValues(n, n.body.fields, 100) == Ok(12);
    assert NewRecord(c, [], {}, op).Ok?;
    assert Step(c, [], {}, {}, op).Ok?;
    assert [op][1..] == [];
    assert Steps(c, [], {}, {}, [op]).Ok?;
  }

  lemma LimitConverts(c: Source)
    ensures Converted(c, LimitNode(), LimitType(), 7).Ok?
  {
    var f, defs := LimitNode().body.fields, LimitType().fields;
    assert f[1..] == [f[1]] && f[1..][1..] == [] && defs[1..] == [defs[1]] && defs[1..][1..] == [];
    assert ConvertFields([], [], c.mappings) == Ok([]);
    assert ConvertField(f[1], IntersectionPoint, c.mappings).Ok?;
    assert ConvertFields(f[1..], defs[1..], c.mappings).Ok?;
  }
}
