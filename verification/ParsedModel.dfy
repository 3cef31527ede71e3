// Parser and model builder agree: what a parse reports passes every check of
// the builder but its own budgets.
module ParsedModel {
  import opened Results
  import opened BinaryReader
  import opened SchemaDefinitions
  import opened SchemaNodes
  import opened DeltaPackets
  import opened SchemaReport
  import opened SchemaState
  import opened SchemaSteps
  import opened SchemaParser
  import opened ModelChecks

  // ---------------------------------------------------------------- what a parse leaves behind

  // The body that ends the node, decoded under its definition from its bytes.
  ghost predicate BodyPlaced(data: Bytes, n: DecodedNode, defs: seq<FieldDefinition>, pos: nat, taken: set<int>,
                             fields: nat, budget: nat) {
    && PrefixAt(PrintBody(n.body, defs, n.framed), data, pos)
    && IsBody(n.body, pos, defs, n.framed, taken, fields, budget) && |n.body.fields| == |defs|
    && n.offset < pos && pos + |PrintBody(n.body, defs, n.framed)| == n.offset + n.size
  }

  ghost predicate BodyDecoded(data: Bytes, n: DecodedNode, defs: seq<FieldDefinition>) {
    exists pos, taken, fields, budget :: BodyPlaced(data, n, defs, pos, taken, fields, budget)
  }

  ghost predicate NodeDecoded(data: Bytes, c: Context, schemas: seq<ResolvedSchema>, n: DecodedNode) {
    && n.schemaIndex < |schemas| && schemas[n.schemaIndex].definition.nodeType == n.nodeType
    && 2 <= n.nodeType <= 32767 && n.body.index != 0 && c.header.bodyOffset <= n.offset && n.size > 0
    && BodyDecoded(data, n, schemas[n.schemaIndex].definition.fields)
  }

  ghost predicate AllDecoded(data: Bytes, c: Context, s: State) {
    && (forall k :: 0 <= k < |s.nodes| ==> !s.nodes[k].framed && NodeDecoded(data, c, s.schemas, s.nodes[k]))
    && (forall k :: 0 <= k < |s.deltaNodes| ==>
          s.deltaNodes[k].framed && NodeDecoded(data, c, s.schemas, s.deltaNodes[k]))
  }

  lemma SchemaKeepsDecoded(data: Bytes, c: Context, s: State, t: nat, schema: ResolvedSchema)
    requires AllDecoded(data, c, s)
    ensures AllDecoded(data, c, AddSchema(s, t, schema))
  {
    hide BodyDecoded;
  }

  lemma PacketKeepsDecoded(data: Bytes, c: Context, s: State, p: Packet)
    requires AllDecoded(data, c, s)
    ensures AllDecoded(data, c, AddPacket(s, p))
  {
    hide NodeDecoded;
  }

  lemma NodeKeepsDecoded(data: Bytes, c: Context, s: State, n: DecodedNode, partition: Option<DeltaPartition>,
                         prefix: Option<DeltaPrefix>)
    requires AllDecoded(data, c, s) && NodeDecoded(data, c, s.schemas, n)
    ensures AllDecoded(data, c, AddNode(s, n).(partition := partition, prefix := prefix))
  {
    hide NodeDecoded, ValueTotal;
  }

  lemma BodyInDecoded(data: Bytes, c: Context, s: State, t: nat, pos: nat, body: Body)
    requires t in s.resolved && s.resolved[t] < |s.schemas| && s.decodedEnd < pos <= |data|
    requires s.decodedFields <= c.limits.maxTotalFields && s.values <= c.limits.maxValues
    requires BodyIn(data, c, s, t, pos) == Ok(body)
    ensures body.index != 0 && BodyDecoded(data, NodeOf(c, s, t, pos, body), SchemaOf(s, t))
  {
    hide BodyAt, PrintBody, PrefixAt, IsBody;
    var n, defs := NodeOf(c, s, t, pos, body), SchemaOf(s, t);
    var fields, budget := c.limits.maxTotalFields - s.decodedFields, c.limits.maxValues - s.values;
    BodyIff(data, pos, defs, Framed(c, s), s.indices, fields, budget, body);
    BodyFits(body, pos, defs, Framed(c, s), s.indices, fields, budget);
    assert BodyPlaced(data, n, defs, pos, s.indices, fields, budget);
  }

  lemma SchemaTyped(data: Bytes, c: Context, s: State)
    requires Consistent(data, c, s)
    ensures c.header.bodyOffset <= s.decodedEnd
    ensures s.decodedFields <= c.limits.maxTotalFields && s.values <= c.limits.maxValues
    ensures forall t :: t in s.resolved ==>
      s.resolved[t] < |s.schemas| && s.schemas[s.resolved[t]].definition.nodeType == t
  {
    hide Replay;
  }

  lemma NodeInDecoded(data: Bytes, c: Context, s: State, t: nat, pos: nat)
    requires Consistent(data, c, s) && Room(data, c, s, t) && t in s.resolved && s.decodedEnd < pos <= |data|
    requires AllDecoded(data, c, s) && 2 <= t <= 32767
    ensures var r := NodeIn(data, c, s, t, pos); r.Ok? ==> AllDecoded(data, c, r.value)
  {
    hide Consistent, AllDecoded, Administration, AddNode, BodyIn, PrintBody, BodyDecoded;
    SchemaTyped(data, c, s);
    var r := NodeIn(data, c, s, t, pos);
    if r.Ok? {
      var body := BodyIn(data, c, s, t, pos).value;
      var n := NodeOf(c, s, t, pos, body);
      BodyInDecoded(data, c, s, t, pos, body);
      NodeKeepsDecoded(data, c, s, n, r.value.partition, r.value.prefix);
    }
  }

  lemma NodeAtDecoded(data: Bytes, c: Context, s: State, t: nat)
    requires Ready(data, c, s) && Room(data, c, s, t) && AllDecoded(data, c, s) && 2 <= t <= 32767
    ensures AllDecoded(data, c, NodeAt(data, c, s, t).state)
  {
    hide Consistent, PrintDefinition, AddSchema, NodeIn, SchemaAt, AllDecoded, PrefixAt;
    if t in s.resolved {
      NodeInDecoded(data, c, s, t, s.decodedEnd + 2);
    } else {
      SchemaReady(data, c, s, t);
      var schema := SchemaAt(data, c, s, t);
      if schema.Ok? {
        SchemaKeepsDecoded(data, c, s, t, schema.value);
        NodeInDecoded(data, c, AddSchema(s, t, schema.value), t, s.decodedEnd + 2 + |PrintDefinition(schema.value)|);
      }
    }
  }

  lemma StepDecoded(data: Bytes, c: Context, s: State)
    requires Ready(data, c, s) && AllDecoded(data, c, s) && forall b :: b in c.bases ==> c.bases[b].nodeType == b
    ensures AllDecoded(data, c, Step(data, c, s).state)
  {
    hide Consistent, NodeAt, ReadAt, IndexAt, PrintIndex, PrefixAt, PacketIn, Print, AddPacket, AllDecoded;
    ReadFits(data, s.decodedEnd, 2);
    var r := ReadAt(data, s.decodedEnd, 2);
    if r.Ok? {
      ReadIff(data, s.decodedEnd, 2, r.value);
      if r.value == 1 {
        var p := PacketIn(data, c, s);
        if p.Ok? {
          PacketKeepsDecoded(data, c, s, p.value);
        }
      } else if Room(data, c, s, r.value) && TypeAllowed(c, r.value) {
        NodeAtDecoded(data, c, s, r.value);
      }
    }
  }

  lemma {:induction false} RunDecoded(data: Bytes, c: Context, s: State)
    requires Ready(data, c, s) && AllDecoded(data, c, s) && forall b :: b in c.bases ==> c.bases[b].nodeType == b
    ensures AllDecoded(data, c, Run(data, c, s).state)
    decreases |data| - s.decodedEnd
  {
    hide Consistent, Step, AllDecoded;
    StepReady(data, c, s);
    StepDecoded(data, c, s);
    var o := Step(data, c, s);
    if o.result == Ok(None) {
      RunDecoded(data, c, o.state);
    }
  }

  ghost predicate ReportDecoded(data: Bytes, c: Context, r: Report) {
    && (forall k :: 0 <= k < |r.nodes| ==> !r.nodes[k].framed && NodeDecoded(data, c, r.schemas, r.nodes[k]))
    && (forall k :: 0 <= k < |r.deltaNodes| ==>
          r.deltaNodes[k].framed && NodeDecoded(data, c, r.schemas, r.deltaNodes[k]))
  }

  // Every node of a report has a decoded body under its definition, in the
  // framed codec exactly behind the prefix of a delta stream.
  lemma ReportNodes(data: Bytes, c: Context, r: Report)
    requires IsReport(data, c, r)
    ensures ReportDecoded(data, c, r)
  {
    hide Consistent, Run, NodeDecoded;
    RunDecoded(data, c, Initial(c));
  }

  // ---------------------------------------------------------------- the builder's checks

  lemma ScalarFits(t: FieldType, v: ScalarValue)
    requires IsScalar(t, false, v)
    ensures ScalarMatches(v, t)
  {
    hide Power256;
    Powers();
  }

  lemma DecodedShaped(f: DecodedField, pos: nat, defs: seq<FieldDefinition>, i: nat, length: Option<nat>)
    requires i < |defs| && IsDecodedField(f, pos, defs, i, length, false)
    ensures FieldShaped(length, defs[i], i, f)
  {
    hide IsScalar, ScalarMatches, PrintValues, Product;
    forall j | 0 <= j < |f.values|
      ensures ScalarMatches(f.values[j], defs[i].fieldType)
    {
      ScalarFits(defs[i].fieldType, f.values[j]);
    }
  }

  // The fields of a body lie one after the other in its bytes.
  lemma {:induction false} FieldInside(fields: seq<DecodedField>, pos: nat, defs: seq<FieldDefinition>, i: nat,
                                       length: Option<nat>, framed: bool, budget: nat, k: nat)
    requires AreDecoded(fields, pos, defs, i, length, framed, budget) && k < |fields|
    ensures i + k < |defs| && IsDecodedField(fields[k], fields[k].offset, defs, i + k, length, framed)
    ensures pos <= fields[k].offset && fields[k].offset + fields[k].size <= pos + |PrintDecoded(defs, framed, fields)|
    decreases |fields|
  {
    hide PrintFieldValues, AreValues;
    if k > 0 {
      FieldInside(fields[1..], pos + fields[0].size, defs, i + 1, length, framed, budget - |fields[0].values|, k - 1);
    }
  }

  lemma BodyFields(data: Bytes, n: DecodedNode, defs: seq<FieldDefinition>)
    requires BodyDecoded(data, n, defs)
    ensures |n.body.fields| == |defs| && (n.body.variableLength.Some? <==> HasLength(defs))
    ensures forall k :: 0 <= k < |defs| ==>
      && FieldInRange(n, n.body.fields[k])
      && IsDecodedField(n.body.fields[k], n.body.fields[k].offset, defs, k, n.body.variableLength, n.framed)
  {
    hide IsDecodedField, PrintDecoded, PrintLength, PrintIndex, AreDecoded, IsIndex, HasLength;
    var pos: nat, taken: set<int>, limit: nat, budget: nat :| BodyPlaced(data, n, defs, pos, taken, limit, budget);
    var start := pos + |PrintLength(n.body.variableLength)| + |PrintIndex(n.body.index)|;
    forall k | 0 <= k < |defs|
      ensures FieldInRange(n, n.body.fields[k])
      ensures IsDecodedField(n.body.fields[k], n.body.fields[k].offset, defs, k, n.body.variableLength, n.framed)
    {
      FieldInside(n.body.fields, start, defs, 0, n.body.variableLength, n.framed, budget, k);
    }
  }

  ghost predicate BasesValid(c: Context) {
    forall t :: t in c.bases ==> Validated(c.bases[t], c.limits.maxFieldsPerType).Ok?
  }

  // The parser only starts with valid base types.
  lemma CatalogBasesValid(catalog: Catalog, c: Context)
    requires CatalogValid(catalog, c.limits) && CatalogIs(catalog, c.bases, c.absent)
    ensures BasesValid(c)
  {
    hide Validated, FieldTotal;
    forall t | t in c.bases
      ensures Validated(c.bases[t], c.limits.maxFieldsPerType).Ok?
    {
      var i :| 0 <= i < |catalog.baseTypes| && catalog.baseTypes[i] == c.bases[t];
    }
  }

  lemma DefinitionValid(c: Context, schema: ResolvedSchema)
    requires SchemaOrigin(c, schema)
    requires BasesValid(c)
    ensures ValidFields(schema.definition.fields)
  {
    hide IsFull, IsEdited, PrintDefinition, ValidField;
  }

  lemma DecodedValid(data: Bytes, c: Context, s: Snapshot, n: DecodedNode)
    requires NodeDecoded(data, c, s.report.schemas, n) && !n.framed && s.bodyOffset == c.header.bodyOffset
    requires n.offset + n.size <= s.report.decodedEnd
    requires ValidFields(s.report.schemas[n.schemaIndex].definition.fields)
    ensures NodeValid(s, n)
  {
    hide BodyDecoded, ValidFields, HasLength, IsDecodedField, FieldShaped;
    var defs := s.report.schemas[n.schemaIndex].definition.fields;
    BodyFields(data, n, defs);
    forall i | 0 <= i < |defs|
      ensures FieldValid(n, defs[i], i, n.body.fields[i])
    {
      DecodedShaped(n.body.fields[i], n.body.fields[i].offset, defs, i, n.body.variableLength);
    }
  }

  // The builder's own budgets.
  predicate BudgetsSuffice(r: Report, o: ModelOptions) {
    && OptionsValid(o) && |r.nodes| <= o.maxNodes && |r.schemas| <= o.maxFields
    && NodeFields(r.nodes) <= o.maxFields && NodeValues(r.nodes) <= o.maxValues
    && ReferenceTotal(r.schemas, r.nodes) <= o.maxReferences
  }

  lemma ReportEnds(data: Bytes, c: Context, r: Report)
    requires IsReport(data, c, r)
    ensures EndsBy(r.nodes, r.decodedEnd) && EndsBy(r.deltaNodes, r.decodedEnd)
    ensures WellFormedRecords(c, r)
    ensures r.complete ==> Complete(Snapshot(Transmit, c.header.bodyOffset, |data|, r))
  {
    hide Replay, Run, PrefixAt, PrintTerminator, SchemaOrigin;
    DecodedReady(data, c);
  }

  // A complete report of a stream without deltas is a valid snapshot, exactly
  // when the builder's budgets suffice: nothing the parser accepts is malformed
  // for the builder.
  lemma ParsedIsModel(data: Bytes, c: Context, r: Report, kind: StreamKind, o: ModelOptions)
    requires IsReport(data, c, r) && r.complete && !c.header.deltas
    requires kind == Transmit || kind == PartitionStream
    requires BasesValid(c)
    ensures SnapshotValid(Snapshot(kind, c.header.bodyOffset, |data|, r), o) <==> BudgetsSuffice(r, o)
  {
    hide IsReport, NodeValid, NodeDecoded, SchemaOrigin, ValidFields, Complete, NodeFields, NodeValues, ReferenceTotal,
         Validated;
    var s := Snapshot(kind, c.header.bodyOffset, |data|, r);
    ReportNodes(data, c, r);
    ReportEnds(data, c, r);
    SameComplete(data, c, r, kind);
    NoDeltas(data, c, r);
    forall k | 0 <= k < |r.nodes|
      ensures NodeValid(s, r.nodes[k])
    {
      NodeKnown(data, c, r, k);
      DefinitionValid(c, r.schemas[r.nodes[k].schemaIndex]);
      DecodedValid(data, c, s, r.nodes[k]);
    }
    assert r.nodes[..|r.nodes|] == r.nodes;
  }

  lemma NodeKnown(data: Bytes, c: Context, r: Report, k: nat)
    requires ReportDecoded(data, c, r) && k < |r.nodes|
    ensures r.nodes[k].schemaIndex < |r.schemas|
  {
    hide BodyDecoded;
  }

  lemma SameComplete(data: Bytes, c: Context, r: Report, kind: StreamKind)
    ensures Complete(Snapshot(kind, c.header.bodyOffset, |data|, r))
       <==> Complete(Snapshot(Transmit, c.header.bodyOffset, |data|, r))
  {
  }

  // Without deltas there is no prefix, no framed node and no packet.
  ghost predicate Plain(s: State) {
    s.prefix == None && s.deltaNodes == [] && s.packets == []
  }

  lemma NodeInPlain(data: Bytes, c: Context, s: State, t: nat, pos: nat)
    requires Consistent(data, c, s) && Room(data, c, s, t) && t in s.resolved && s.decodedEnd <= pos
    requires !c.header.deltas && Plain(s)
    ensures var r := NodeIn(data, c, s, t, pos); r.Ok? ==> Plain(r.value)
  {
    hide Consistent, BodyIn, PrintBody, ValueTotal;
    ResolvedIndex(data, c, s);
  }

  lemma ResolvedIndex(data: Bytes, c: Context, s: State)
    requires Consistent(data, c, s)
    ensures forall t :: t in s.resolved ==> s.resolved[t] < |s.schemas|
    ensures s.decodedFields <= c.limits.maxTotalFields && s.values <= c.limits.maxValues
  {
    hide Replay;
  }

  lemma StepPlain(data: Bytes, c: Context, s: State)
    requires Ready(data, c, s) && forall b :: b in c.bases ==> c.bases[b].nodeType == b
    requires !c.header.deltas && Plain(s)
    ensures Plain(Step(data, c, s).state)
  {
    hide Consistent, ReadAt, IndexAt, PrintIndex, PrefixAt, Print, NodeAt, PacketIn;
    ReadFits(data, s.decodedEnd, 2);
    var r := ReadAt(data, s.decodedEnd, 2);
    if r.Ok? {
      ReadIff(data, s.decodedEnd, 2, r.value);
      if r.value != 1 && Room(data, c, s, r.value) {
        NodeAtPlain(data, c, s, r.value);
      }
    }
  }

  lemma NodeAtPlain(data: Bytes, c: Context, s: State, t: nat)
    requires Ready(data, c, s) && Room(data, c, s, t) && !c.header.deltas && Plain(s)
    ensures Plain(NodeAt(data, c, s, t).state)
  {
    hide Consistent, PrintDefinition, NodeIn, SchemaAt, PrefixAt;
    if t in s.resolved {
      NodeInPlain(data, c, s, t, s.decodedEnd + 2);
    } else {
      SchemaReady(data, c, s, t);
      var schema := SchemaAt(data, c, s, t);
      if schema.Ok? {
        NodeInPlain(data, c, AddSchema(s, t, schema.value), t, s.decodedEnd + 2 + |PrintDefinition(schema.value)|);
      }
    }
  }

  lemma {:induction false} RunPlain(data: Bytes, c: Context, s: State)
    requires Ready(data, c, s) && forall b :: b in c.bases ==> c.bases[b].nodeType == b
    requires !c.header.deltas && Plain(s)
    ensures Plain(Run(data, c, s).state)
    decreases |data| - s.decodedEnd
  {
    hide Consistent, Step;
    StepReady(data, c, s);
    StepPlain(data, c, s);
    var o := Step(data, c, s);
    if o.result == Ok(None) {
      RunPlain(data, c, o.state);
    }
  }

  lemma NoDeltas(data: Bytes, c: Context, r: Report)
    requires IsReport(data, c, r) && !c.header.deltas
    ensures r.deltaPrefix == None && r.deltaNodes == [] && r.packets == []
  {
    hide Consistent, Run;
    RunPlain(data, c, Initial(c));
  }
}
