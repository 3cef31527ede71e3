// What one parse knows between two records, and how a record extends it.
module SchemaState {
  import opened Results
  import opened BinaryReader
  import opened SchemaDefinitions
  import opened SchemaNodes
  import opened DeltaPackets
  import opened SchemaReport

  datatype Header = Header(
    schema: Bytes,
    deltas: bool,
    internalComplete: bool,
    userFieldWords: Option<nat>,
    hasBaseSchema: bool,
    maxType: Option<nat>,
    bodyOffset: nat)

  datatype Limits = Limits(
    maxInputBytes: nat,
    maxNodes: nat,
    maxTypes: nat,
    maxFieldsPerType: nat,
    maxTotalFields: nat,
    maxValues: nat,
    maxDeltaPackets: nat,
    maxDeltaEntries: nat)
  {
    predicate Valid() {
      && maxInputBytes != 0 && maxNodes != 0 && maxTypes != 0 && maxFieldsPerType != 0
      && maxTotalFields != 0 && maxValues != 0 && maxDeltaPackets != 0 && maxDeltaEntries != 0
    }
  }

  // What is fixed during one parse.
  datatype Context = Context(header: Header, bases: map<nat, TypeDefinition>, absent: set<nat>, limits: Limits)

  // ---------------------------------------------------------------- the state of a parse

  datatype State = State(
    schemas: seq<ResolvedSchema>,
    nodes: seq<DecodedNode>,
    deltaNodes: seq<DecodedNode>,
    packets: seq<Packet>,
    partition: Option<DeltaPartition>,
    prefix: Option<DeltaPrefix>,
    resolved: map<nat, nat>,
    indices: set<int>,
    values: nat,
    fields: nat,
    decodedFields: nat,
    deltaEntries: nat,
    decodedEnd: nat)

  function SchemaFields(schemas: seq<ResolvedSchema>): nat {
    if schemas == [] then 0 else SchemaFields(schemas[..|schemas| - 1]) + |schemas[|schemas| - 1].definition.fields|
  }

  function EntryTotal(packets: seq<Packet>): nat {
    if packets == [] then 0
    else EntryTotal(packets[..|packets| - 1]) + |packets[|packets| - 1].references| + |packets[|packets| - 1].marks|
  }

  function BaseOf(c: Context, t: nat): Option<TypeDefinition> {
    if t in c.bases then Some(c.bases[t]) else None
  }

  // Where a resolved schema comes from.
  predicate SchemaOrigin(c: Context, s: ResolvedSchema) {
    if c.header.hasBaseSchema
    then IsDefinition(s, s.offset, s.definition.nodeType, BaseOf(c, s.definition.nodeType), c.limits.maxFieldsPerType)
    else s == ResolvedSchema(s.definition, Base, s.offset, 0, []) && BaseOf(c, s.definition.nodeType) == Some(s.definition)
  }

  ghost predicate SchemasGood(c: Context, s: State) {
    && |s.schemas| <= c.limits.maxTypes && |s.resolved| == |s.schemas|
    && s.fields == SchemaFields(s.schemas) <= c.limits.maxTotalFields
    && (forall k :: 0 <= k < |s.schemas| ==> SchemaOrigin(c, s.schemas[k]))
    && (forall t :: t in s.resolved ==>
          s.resolved[t] < |s.schemas| && s.schemas[s.resolved[t]].definition.nodeType == t)
  }

  ghost predicate NodesGood(c: Context, s: State) {
    && |s.nodes| + |s.deltaNodes| <= c.limits.maxNodes
    && UsesKnown(s.nodes, |s.schemas|) && UsesKnown(s.deltaNodes, |s.schemas|)
    && EndsBy(s.nodes, s.decodedEnd) && EndsBy(s.deltaNodes, s.decodedEnd)
    && NodeValues(s.nodes) + NodeValues(s.deltaNodes) <= s.values <= c.limits.maxValues
    && NodeFields(s.nodes) + NodeFields(s.deltaNodes) <= s.decodedFields <= c.limits.maxTotalFields
    && (forall k :: 0 <= k < |s.nodes| ==> s.nodes[k].body.index in s.indices && s.nodes[k].body.index != 0)
    && (forall j, k :: 0 <= j < k < |s.nodes| ==> s.nodes[j].body.index != s.nodes[k].body.index)
    && (forall i :: i in s.indices ==> i >= 0)
  }

  ghost predicate PacketsGood(c: Context, s: State) {
    && |s.packets| <= c.limits.maxDeltaPackets
    && s.deltaEntries == EntryTotal(s.packets) <= c.limits.maxDeltaEntries
  }

  // Everything decoded so far prints back to its bytes.
  ghost predicate Consistent(data: Bytes, c: Context, s: State) {
    && c.header.bodyOffset <= s.decodedEnd <= |data|
    && SchemasGood(c, s) && NodesGood(c, s) && PacketsGood(c, s)
    && (s.partition.Some? ==> s.partition.value.offset <= s.decodedEnd)
    && Replay(s.schemas, s.nodes, s.deltaNodes, s.packets, c.header.bodyOffset, s.decodedEnd)
       == Some(data[c.header.bodyOffset..s.decodedEnd])
  }

  // Between records no schema offset can be taken for a new first use.
  ghost predicate Ready(data: Bytes, c: Context, s: State) {
    Consistent(data, c, s) && forall k :: 0 <= k < |s.schemas| ==> s.schemas[k].offset < s.decodedEnd
  }

  lemma StateWithin(data: Bytes, c: Context, s: State)
    requires Consistent(data, c, s)
    ensures c.header.bodyOffset <= s.decodedEnd <= |data|
  {
  }

  lemma NothingYet(data: Bytes, c: Context, s: State)
    requires s == State([], [], [], [], None, None, map[], {}, 0, 0, 0, 0, c.header.bodyOffset)
    requires c.header.bodyOffset <= |data|
    ensures Ready(data, c, s)
  {
    assert data[c.header.bodyOffset..c.header.bodyOffset] == [];
  }

  // ---------------------------------------------------------------- one more definition

  function AddSchema(s: State, t: nat, schema: ResolvedSchema): State {
    s.(schemas := s.schemas + [schema], resolved := s.resolved[t := |s.schemas|],
       fields := s.fields + |schema.definition.fields|)
  }

  lemma SchemaAdded(data: Bytes, c: Context, s: State, t: nat, schema: ResolvedSchema)
    requires Consistent(data, c, s) && t !in s.resolved && |s.schemas| < c.limits.maxTypes
    requires SchemaOrigin(c, schema) && schema.definition.nodeType == t
    requires s.fields + |schema.definition.fields| <= c.limits.maxTotalFields
    ensures Consistent(data, c, AddSchema(s, t, schema))
  {
    hide Replay, SchemasGood, NodesGood, PacketsGood;
    SchemasGrow(c, s, t, schema);
    NodesKept(c, s, t, schema);
    MoreSchemas(s.schemas, schema, s.nodes, s.deltaNodes, s.packets, c.header.bodyOffset, s.decodedEnd);
  }

  lemma SchemasGrow(c: Context, s: State, t: nat, schema: ResolvedSchema)
    requires SchemasGood(c, s) && t !in s.resolved && |s.schemas| < c.limits.maxTypes
    requires SchemaOrigin(c, schema) && schema.definition.nodeType == t
    requires s.fields + |schema.definition.fields| <= c.limits.maxTotalFields
    ensures SchemasGood(c, AddSchema(s, t, schema))
  {
    hide SchemaOrigin;
    var more := s.schemas + [schema];
    assert more[..|s.schemas|] == s.schemas;
    assert s.resolved[t := |s.schemas|].Keys == s.resolved.Keys + {t};
  }

  lemma NodesKept(c: Context, s: State, t: nat, schema: ResolvedSchema)
    requires NodesGood(c, s) && PacketsGood(c, s)
    ensures NodesGood(c, AddSchema(s, t, schema)) && PacketsGood(c, AddSchema(s, t, schema))
    ensures UsesKnown(s.nodes, |s.schemas|) && UsesKnown(s.deltaNodes, |s.schemas|)
  {
  }

  lemma SchemaKnown(s: State, t: nat, schema: ResolvedSchema)
    ensures var a := AddSchema(s, t, schema);
      t in a.resolved && a.resolved[t] == |s.schemas| && |a.schemas| == |s.schemas| + 1 && a.schemas[|s.schemas|] == schema
  {
  }

  lemma SchemaKept(s: State, t: nat, schema: ResolvedSchema)
    ensures var a := AddSchema(s, t, schema);
      && a.decodedEnd == s.decodedEnd && a.nodes == s.nodes && a.deltaNodes == s.deltaNodes && a.partition == s.partition
      && a.prefix == s.prefix && (forall k :: 0 <= k < |s.schemas| ==> a.schemas[k] == s.schemas[k])
  {
  }

  lemma DefinitionFacts(schema: ResolvedSchema, pos: nat, t: nat, base: Option<TypeDefinition>, maxFields: nat)
    requires IsDefinition(schema, pos, t, base, maxFields)
    ensures schema.offset == pos && schema.definition.nodeType == t
  {
  }

  lemma BasePrinted(data: Bytes, schema: ResolvedSchema, pos: nat)
    requires schema.source == Base
    ensures PrintDefinition(schema) == []
    ensures pos <= |data| ==> PrefixAt([], data, pos)
  {
  }

  lemma ResolvedKnown(c: Context, s: State)
    requires SchemasGood(c, s)
    ensures forall t :: t in s.resolved ==> s.resolved[t] < |s.schemas|
  {
  }

  // ---------------------------------------------------------------- one more node

  function AddNode(s: State, n: DecodedNode): State {
    var counted := s.(values := s.values + ValueTotal(n.body.fields),
                      decodedFields := s.decodedFields + |n.body.fields|, decodedEnd := n.offset + n.size);
    if n.framed then counted.(deltaNodes := s.deltaNodes + [n])
    else counted.(nodes := s.nodes + [n], indices := s.indices + {n.body.index})
  }

  // A node that continues the records and fits the budgets.
  ghost predicate NodeFits(data: Bytes, c: Context, s: State, n: DecodedNode) {
    && n.offset == s.decodedEnd && HasBytes(s.schemas, n) && PrefixAt(PrintNode(s.schemas, n), data, n.offset)
    && |s.nodes| + |s.deltaNodes| < c.limits.maxNodes
    && s.values + ValueTotal(n.body.fields) <= c.limits.maxValues
    && s.decodedFields + |n.body.fields| <= c.limits.maxTotalFields
    && n.body.index != 0 && (n.framed || n.body.index !in s.indices)
  }

  lemma NodeCounted(c: Context, s: State, n: DecodedNode)
    requires NodesGood(c, s) && n.offset == s.decodedEnd && n.schemaIndex < |s.schemas|
    requires |s.nodes| + |s.deltaNodes| < c.limits.maxNodes
    requires s.values + ValueTotal(n.body.fields) <= c.limits.maxValues
    requires s.decodedFields + |n.body.fields| <= c.limits.maxTotalFields
    requires n.body.index != 0 && (n.framed || n.body.index !in s.indices)
    ensures NodesGood(c, AddNode(s, n))
  {
    hide ValueTotal;
    assert (s.nodes + [n])[..|s.nodes|] == s.nodes;
    assert (s.deltaNodes + [n])[..|s.deltaNodes|] == s.deltaNodes;
  }

  lemma Appended(data: Bytes, first: nat, at: nat, bytes: Bytes)
    requires first <= at && PrefixAt(bytes, data, at)
    ensures at + |bytes| <= |data| && data[first..at] + bytes == data[first..at + |bytes|]
  {
  }

  lemma NodeAdded(data: Bytes, c: Context, s: State, n: DecodedNode)
    requires Consistent(data, c, s) && NodeFits(data, c, s, n)
    requires forall k :: 0 <= k < |s.schemas| ==> s.schemas[k].offset < n.offset + n.size
    ensures Ready(data, c, AddNode(s, n))
  {
    hide Replay, PrintNode, SchemasGood, NodesGood, PacketsGood, PrefixAt, ValueTotal;
    var first := c.header.bodyOffset;
    NodeCounted(c, s, n);
    NodeEnds(c, s);
    Appended(data, first, n.offset, PrintNode(s.schemas, n));
    if n.framed {
      AppendDelta(s.schemas, s.nodes, s.deltaNodes, s.packets, first, s.decodedEnd, n);
    } else {
      AppendNode(s.schemas, s.nodes, s.deltaNodes, s.packets, first, s.decodedEnd, n);
    }
    SameSchemas(c, s, AddNode(s, n));
  }

  lemma NodeEnds(c: Context, s: State)
    requires NodesGood(c, s)
    ensures EndsBy(s.nodes, s.decodedEnd) && EndsBy(s.deltaNodes, s.decodedEnd)
  {
  }

  lemma SameSchemas(c: Context, s: State, t: State)
    requires t.schemas == s.schemas && t.resolved == s.resolved && t.fields == s.fields
    ensures SchemasGood(c, s) ==> SchemasGood(c, t)
    ensures PacketsGood(c, s) && t.packets == s.packets && t.deltaEntries == s.deltaEntries ==> PacketsGood(c, t)
  {
  }

  // The bytes of a node: type, definition at first use only, body.
  lemma NodePrinted(data: Bytes, schemas: seq<ResolvedSchema>, n: DecodedNode)
    requires n.schemaIndex < |schemas| && PrefixAt(Print(2, n.nodeType), data, n.offset)
    requires var schema := schemas[n.schemaIndex];
      var definition := if schema.offset == n.offset + 2 then PrintDefinition(schema) else [];
      && PrefixAt(definition, data, n.offset + 2)
      && PrefixAt(PrintBody(n.body, schema.definition.fields, n.framed), data, n.offset + 2 + |definition|)
      && n.size == 2 + |definition| + |PrintBody(n.body, schema.definition.fields, n.framed)|
    ensures HasBytes(schemas, n) && PrefixAt(PrintNode(schemas, n), data, n.offset)
  {
    hide PrefixAt, PrintBody, PrintDefinition, Print;
    var schema := schemas[n.schemaIndex];
    var definition := if schema.offset == n.offset + 2 then PrintDefinition(schema) else [];
    var body := PrintBody(n.body, schema.definition.fields, n.framed);
    PrefixSplit(Print(2, n.nodeType), definition + body, data, n.offset);
    PrefixSplit(definition, body, data, n.offset + 2);
  }

  lemma Budgets(c: Context, s: State)
    requires NodesGood(c, s)
    ensures s.decodedFields <= c.limits.maxTotalFields && s.values <= c.limits.maxValues
  {
  }

  lemma Finish(data: Bytes, c: Context, s: State, n: DecodedNode, partition: Option<DeltaPartition>,
               prefix: Option<DeltaPrefix>)
    requires Ready(data, c, AddNode(s, n)) && (partition.Some? ==> partition.value.offset <= n.offset)
    ensures Ready(data, c, AddNode(s, n).(partition := partition, prefix := prefix))
    ensures AddNode(s, n).decodedEnd == n.offset + n.size
  {
    hide Replay, SchemasGood, NodesGood, PacketsGood;
    AdministrationOnly(c, AddNode(s, n), partition, prefix);
  }

  lemma AdministrationOnly(c: Context, s: State, partition: Option<DeltaPartition>, prefix: Option<DeltaPrefix>)
    ensures var t := s.(partition := partition, prefix := prefix);
      && (SchemasGood(c, s) ==> SchemasGood(c, t)) && (NodesGood(c, s) ==> NodesGood(c, t))
      && (PacketsGood(c, s) ==> PacketsGood(c, t))
  {
  }

  lemma BodyFits(b: Body, pos: nat, defs: seq<FieldDefinition>, framed: bool, taken: set<int>, fields: nat, budget: nat)
    requires IsBody(b, pos, defs, framed, taken, fields, budget)
    ensures b.index != 0 && (framed || b.index !in taken) && |b.fields| == |defs| <= fields
  {
    DecodedCount(b.fields, pos + |PrintLength(b.variableLength)| + |PrintIndex(b.index)|, defs, 0, b.variableLength, framed,
                 budget);
  }

  lemma {:induction false} DecodedCount(fields: seq<DecodedField>, pos: nat, defs: seq<FieldDefinition>, i: nat,
                                        length: Option<nat>, framed: bool, budget: nat)
    requires i <= |defs| && AreDecoded(fields, pos, defs, i, length, framed, budget)
    ensures |fields| == |defs| - i
    decreases |fields|
  {
    if i < |defs| {
      DecodedCount(fields[1..], pos + fields[0].size, defs, i + 1, length, framed, budget - |fields[0].values|);
    }
  }

  // ---------------------------------------------------------------- one more packet

  function AddPacket(s: State, p: Packet): State {
    s.(packets := s.packets + [p], deltaEntries := s.deltaEntries + |p.references| + |p.marks|,
       decodedEnd := p.offset + p.size)
  }

  lemma PacketAdded(data: Bytes, c: Context, s: State, p: Packet)
    requires Ready(data, c, s) && p.offset == s.decodedEnd && p.size == |PrintPacket(p)| > 0
    requires PrefixAt(PrintPacket(p), data, p.offset) && |s.packets| < c.limits.maxDeltaPackets
    requires s.deltaEntries + |p.references| + |p.marks| <= c.limits.maxDeltaEntries
    ensures Ready(data, c, AddPacket(s, p))
  {
    hide Replay, PrintPacket, PrefixAt, SchemasGood, NodesGood, PacketsGood;
    NodeEnds(c, s);
    Appended(data, c.header.bodyOffset, p.offset, PrintPacket(p));
    AppendPacket(s.schemas, s.nodes, s.deltaNodes, s.packets, c.header.bodyOffset, s.decodedEnd, p);
    SameSchemas(c, s, AddPacket(s, p));
    PacketCounted(c, s, p);
  }

  lemma PacketCounted(c: Context, s: State, p: Packet)
    requires PacketsGood(c, s) && |s.packets| < c.limits.maxDeltaPackets && p.offset == s.decodedEnd
    requires s.deltaEntries + |p.references| + |p.marks| <= c.limits.maxDeltaEntries
    ensures PacketsGood(c, AddPacket(s, p))
    ensures NodesGood(c, s) ==> NodesGood(c, AddPacket(s, p))
  {
    assert (s.packets + [p])[..|s.packets|] == s.packets;
  }

  lemma PacketFacts(data: Bytes, p: Packet, offset: nat, maximum: nat, limit: nat)
    requires IsPacket(data, p, offset, maximum, limit)
    ensures p.offset == offset && p.size == |PrintPacket(p)| > 0
  {
  }

  lemma EntriesWithin(c: Context, s: State)
    requires PacketsGood(c, s)
    ensures s.deltaEntries <= c.limits.maxDeltaEntries
  {
  }
}
