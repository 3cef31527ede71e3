// The report of a sequential parse, and its canonical printing.
module SchemaReport {
  import opened Results
  import opened BinaryReader
  import opened SchemaDefinitions
  import opened SchemaNodes
  import opened DeltaPackets

  datatype DecodedNode = DecodedNode(
    nodeType: nat,
    schemaIndex: nat,
    offset: nat,
    size: nat,
    framed: bool,
    body: Body)

  datatype DeltaPartition = DeltaPartition(offset: nat, index: nat, currentMark: nat, highestId: nat)

  datatype DeltaPrefix = DeltaPrefix(offset: nat, size: nat, partition: DeltaPartition, mark: Mark)

  datatype Report = Report(
    complete: bool,
    decodedEnd: nat,
    terminatorOffset: Option<nat>,
    terminatorSize: nat,
    uninterpretedOffset: nat,
    uninterpretedSize: nat,
    deltaPrefix: Option<DeltaPrefix>,
    packets: seq<Packet>,
    schemas: seq<ResolvedSchema>,
    nodes: seq<DecodedNode>,
    deltaNodes: seq<DecodedNode>,
    diagnostic: Option<ErrorCode>)

  // The definition is printed with the node that first uses it.
  function PrintNode(schemas: seq<ResolvedSchema>, n: DecodedNode): (bytes: Bytes)
    requires n.schemaIndex < |schemas|
    ensures |bytes| >= 4
  {
    var schema := schemas[n.schemaIndex];
    Print(2, n.nodeType) + ((if schema.offset == n.offset + 2 then PrintDefinition(schema) else [])
    + PrintBody(n.body, schema.definition.fields, n.framed))
  }

  predicate HasBytes(schemas: seq<ResolvedSchema>, n: DecodedNode) {
    n.schemaIndex < |schemas| && n.size == |PrintNode(schemas, n)|
  }

  function Extend(before: Option<Bytes>, bytes: Bytes): Option<Bytes> {
    match before
    case None => None
    case Some(b) => Some(b + bytes)
  }

  // The records in offset order, printed back to back; None when they do not
  // tile the range from `first` to `at`.
  function Replay(schemas: seq<ResolvedSchema>, nodes: seq<DecodedNode>, deltas: seq<DecodedNode>, packets: seq<Packet>,
                  first: nat, at: nat): Option<Bytes>
    decreases |nodes| + |deltas| + |packets|
  {
    if nodes == [] && deltas == [] && packets == [] then (if at == first then Some([]) else None)
    else if nodes != [] && nodes[|nodes| - 1].offset + nodes[|nodes| - 1].size == at then
      var n := nodes[|nodes| - 1];
      if HasBytes(schemas, n)
      then Extend(Replay(schemas, nodes[..|nodes| - 1], deltas, packets, first, n.offset), PrintNode(schemas, n)) else None
    else if deltas != [] && deltas[|deltas| - 1].offset + deltas[|deltas| - 1].size == at then
      var n := deltas[|deltas| - 1];
      if HasBytes(schemas, n)
      then Extend(Replay(schemas, nodes, deltas[..|deltas| - 1], packets, first, n.offset), PrintNode(schemas, n)) else None
    else if packets != [] && packets[|packets| - 1].offset + packets[|packets| - 1].size == at then
      var p := packets[|packets| - 1];
      if p.size == |PrintPacket(p)|
      then Extend(Replay(schemas, nodes, deltas, packets[..|packets| - 1], first, p.offset), PrintPacket(p)) else None
    else None
  }

  const TERMINATOR: Bytes := [0, 1, 0, 1]

  function PrintTerminator(size: nat): Bytes {
    if size == 8 then TERMINATOR + TERMINATOR else TERMINATOR
  }

  function PrintReport(r: Report, first: nat): Option<Bytes> {
    Extend(Replay(r.schemas, r.nodes, r.deltaNodes, r.packets, first, r.decodedEnd), PrintTerminator(r.terminatorSize))
  }

  // ---------------------------------------------------------------- totals

  function NodeValues(nodes: seq<DecodedNode>): nat {
    if nodes == [] then 0 else NodeValues(nodes[..|nodes| - 1]) + ValueTotal(nodes[|nodes| - 1].body.fields)
  }

  function NodeFields(nodes: seq<DecodedNode>): nat {
    if nodes == [] then 0 else NodeFields(nodes[..|nodes| - 1]) + |nodes[|nodes| - 1].body.fields|
  }

  // ---------------------------------------------------------------- growing a report

  predicate EndsBy(nodes: seq<DecodedNode>, at: nat) {
    forall k :: 0 <= k < |nodes| ==> nodes[k].offset + nodes[k].size <= at
  }

  predicate UsesKnown(nodes: seq<DecodedNode>, count: nat) {
    forall k :: 0 <= k < |nodes| ==> nodes[k].schemaIndex < count
  }

  lemma {:induction false} MoreSchemas(schemas: seq<ResolvedSchema>, schema: ResolvedSchema, nodes: seq<DecodedNode>,
                                       deltas: seq<DecodedNode>, packets: seq<Packet>, first: nat, at: nat)
    requires UsesKnown(nodes, |schemas|) && UsesKnown(deltas, |schemas|)
    ensures Replay(schemas + [schema], nodes, deltas, packets, first, at)
         == Replay(schemas, nodes, deltas, packets, first, at)
    decreases |nodes| + |deltas| + |packets|
  {
    hide PrintNode, PrintPacket;
    if nodes != [] && nodes[|nodes| - 1].offset + nodes[|nodes| - 1].size == at {
      var n := nodes[|nodes| - 1];
      SameNode(schemas, schema, n);
      MoreSchemas(schemas, schema, nodes[..|nodes| - 1], deltas, packets, first, n.offset);
    } else if deltas != [] && deltas[|deltas| - 1].offset + deltas[|deltas| - 1].size == at {
      var n := deltas[|deltas| - 1];
      SameNode(schemas, schema, n);
      MoreSchemas(schemas, schema, nodes, deltas[..|deltas| - 1], packets, first, n.offset);
    } else if packets != [] && packets[|packets| - 1].offset + packets[|packets| - 1].size == at {
      MoreSchemas(schemas, schema, nodes, deltas, packets[..|packets| - 1], first, packets[|packets| - 1].offset);
    }
  }

  lemma SameNode(schemas: seq<ResolvedSchema>, schema: ResolvedSchema, n: DecodedNode)
    requires n.schemaIndex < |schemas|
    ensures PrintNode(schemas + [schema], n) == PrintNode(schemas, n)
    ensures HasBytes(schemas + [schema], n) == HasBytes(schemas, n)
  {
    hide PrintDefinition, PrintBody, Print;
    assert (schemas + [schema])[n.schemaIndex] == schemas[n.schemaIndex];
  }

  lemma AppendNode(schemas: seq<ResolvedSchema>, nodes: seq<DecodedNode>, deltas: seq<DecodedNode>, packets: seq<Packet>,
                   first: nat, at: nat, n: DecodedNode)
    requires HasBytes(schemas, n) && n.offset == at
    ensures Replay(schemas, nodes + [n], deltas, packets, first, at + n.size)
         == Extend(Replay(schemas, nodes, deltas, packets, first, at), PrintNode(schemas, n))
  {
    hide PrintNode;
    assert (nodes + [n])[..|nodes|] == nodes;
  }

  lemma AppendDelta(schemas: seq<ResolvedSchema>, nodes: seq<DecodedNode>, deltas: seq<DecodedNode>, packets: seq<Packet>,
                    first: nat, at: nat, n: DecodedNode)
    requires HasBytes(schemas, n) && n.offset == at && EndsBy(nodes, at)
    ensures Replay(schemas, nodes, deltas + [n], packets, first, at + n.size)
         == Extend(Replay(schemas, nodes, deltas, packets, first, at), PrintNode(schemas, n))
  {
    assert n.size >= 4;
    hide PrintNode;
    assert (deltas + [n])[..|deltas|] == deltas;
  }

  lemma AppendPacket(schemas: seq<ResolvedSchema>, nodes: seq<DecodedNode>, deltas: seq<DecodedNode>, packets: seq<Packet>,
                     first: nat, at: nat, p: Packet)
    requires p.size == |PrintPacket(p)| > 0 && p.offset == at && EndsBy(nodes, at) && EndsBy(deltas, at)
    ensures Replay(schemas, nodes, deltas, packets + [p], first, at + p.size)
         == Extend(Replay(schemas, nodes, deltas, packets, first, at), PrintPacket(p))
  {
    hide PrintPacket;
    assert (packets + [p])[..|packets|] == packets;
  }
}
