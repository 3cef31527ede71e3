// The bytes behind the pointers of a report.
module ReportedBytes {
  import opened Results
  import opened BinaryReader
  import opened SchemaDefinitions
  import opened SchemaNodes
  import opened SchemaReport
  import opened SchemaState
  import opened SchemaParser
  import opened ParsedModel

  // Indices, each followed by its status byte.
  function Interleaved(values: seq<ScalarValue>, statuses: seq<byte>): Bytes
    requires |values| == |statuses|
  {
    if values == [] then []
    else PrintIndex(if values[0].Word? then values[0].w else 0) + [statuses[0]] + Interleaved(values[1..], statuses[1..])
  }

  // Indices only.
  function Indices(values: seq<ScalarValue>): Bytes {
    if values == [] then [] else PrintIndex(if values[0].Word? then values[0].w else 0) + Indices(values[1..])
  }

  predicate AreStatuses(statuses: seq<nat>) {
    forall j :: 0 <= j < |statuses| ==> statuses[j] <= 1
  }

  predicate AreWords(values: seq<ScalarValue>) {
    forall j :: 0 <= j < |values| ==> values[j].Word?
  }

  function StatusBytes(statuses: seq<nat>): (r: seq<byte>)
    requires AreStatuses(statuses)
    ensures |r| == |statuses|
  {
    seq(|statuses|, j requires 0 <= j < |statuses| => statuses[j])
  }

  // A pointer field of a delta node: one status of 0 or 1 behind every index.
  predicate StatusFramed(data: Bytes, f: DecodedField) {
    && |f.statuses| == |f.values| && AreStatuses(f.statuses) && AreWords(f.values)
    && PrefixAt(Interleaved(f.values, StatusBytes(f.statuses)), data, f.offset)
    && f.size == |Interleaved(f.values, StatusBytes(f.statuses))|
  }

  predicate Unframed(data: Bytes, f: DecodedField) {
    && f.statuses == [] && AreWords(f.values) && PrefixAt(Indices(f.values), data, f.offset)
    && f.size == |Indices(f.values)|
  }

  lemma {:induction false} PrintedInterleaved(values: seq<ScalarValue>, statuses: seq<nat>)
    requires |values| == |statuses| && AreStatuses(statuses)
    ensures PrintValues(Pointer, true, values, statuses) == Interleaved(values, StatusBytes(statuses))
  {
    hide PrintIndex;
    if values != [] {
      PrintedInterleaved(values[1..], statuses[1..]);
      assert StatusBytes(statuses)[1..] == StatusBytes(statuses[1..]);
      OneByte(statuses[0]);
    }
  }

  lemma OneByte(b: byte)
    ensures Print(1, b) == [b]
  {
    assert Print(0, b / 256) == [];
  }

  lemma {:induction false} PrintedIndices(values: seq<ScalarValue>)
    ensures PrintValues(Pointer, false, values, []) == Indices(values)
  {
    hide PrintIndex;
    if values != [] {
      PrintedIndices(values[1..]);
    }
  }

  // ---------------------------------------------------------------- the fields of one node

  // What a field of a node holds, by its type and the node's framing.
  predicate FieldStands(data: Bytes, framed: bool, t: FieldType, f: DecodedField) {
    if t != Pointer then f.statuses == [] else if framed then StatusFramed(data, f) else Unframed(data, f)
  }

  ghost predicate FieldsStand(data: Bytes, n: DecodedNode, defs: seq<FieldDefinition>) {
    && |n.body.fields| == |defs|
    && forall i :: 0 <= i < |defs| ==> FieldStands(data, n.framed, defs[i].fieldType, n.body.fields[i])
  }

  lemma OneStands(data: Bytes, f: DecodedField, defs: seq<FieldDefinition>, i: nat, length: Option<nat>, framed: bool)
    requires i < |defs| && IsDecodedField(f, f.offset, defs, i, length, framed)
    requires PrefixAt(PrintFieldValues(defs, framed, f), data, f.offset)
    ensures FieldStands(data, framed, defs[i].fieldType, f)
  {
    hide PrintValues, Interleaved, Indices, PrefixAt, IsIndex, Product;
    var t := defs[i].fieldType;
    if t == Pointer {
      forall j | 0 <= j < |f.values|
        ensures f.values[j].Word?
      {
        assert IsScalar(Pointer, framed, f.values[j]);
      }
      if framed {
        PrintedInterleaved(f.values, f.statuses);
      } else {
        PrintedIndices(f.values);
      }
    }
  }

  lemma {:induction false} AllStand(data: Bytes, fields: seq<DecodedField>, pos: nat, defs: seq<FieldDefinition>, i: nat,
                                    length: Option<nat>, framed: bool, budget: nat, k: nat)
    requires AreDecoded(fields, pos, defs, i, length, framed, budget) && k < |fields|
    requires PrefixAt(PrintDecoded(defs, framed, fields), data, pos)
    ensures i + k < |defs| && FieldStands(data, framed, defs[i + k].fieldType, fields[k])
    decreases |fields|
  {
    hide IsDecodedField, PrintFieldValues, PrefixAt, FieldStands;
    var f := fields[0];
    PrefixSplit(PrintFieldValues(defs, framed, f), PrintDecoded(defs, framed, fields[1..]), data, pos);
    FieldStart(f, pos, defs, i, length, framed);
    if k > 0 {
      AllStand(data, fields[1..], pos + f.size, defs, i + 1, length, framed, budget - |f.values|, k - 1);
    } else {
      OneStands(data, f, defs, i, length, framed);
    }
  }

  lemma FieldStart(f: DecodedField, pos: nat, defs: seq<FieldDefinition>, i: nat, length: Option<nat>, framed: bool)
    requires i < |defs| && IsDecodedField(f, pos, defs, i, length, framed)
    ensures f.offset == pos && f.size == |PrintFieldValues(defs, framed, f)|
  {
  }

  lemma BodyStands(data: Bytes, n: DecodedNode, defs: seq<FieldDefinition>)
    requires BodyDecoded(data, n, defs)
    ensures FieldsStand(data, n, defs)
  {
    hide PrintLength, PrintIndex, PrintDecoded, AreDecoded, PrefixAt, FieldStands, HasLength, IsIndex;
    var pos: nat, taken: set<int>, limit: nat, budget: nat :| BodyPlaced(data, n, defs, pos, taken, limit, budget);
    var length, index := PrintLength(n.body.variableLength), PrintIndex(n.body.index);
    var decoded := PrintDecoded(defs, n.framed, n.body.fields);
    PrefixSplit(length, index + decoded, data, pos);
    PrefixSplit(index, decoded, data, pos + |length|);
    forall i | 0 <= i < |defs|
      ensures FieldStands(data, n.framed, defs[i].fieldType, n.body.fields[i])
    {
      AllStand(data, n.body.fields, pos + |length| + |index|, defs, 0, n.body.variableLength, n.framed, budget, i);
    }
  }

  // ---------------------------------------------------------------- the report

  // In every delta node each pointer has its status byte behind it, and no other
  // field has any; the two nodes of the prefix, and every node of a stream
  // without deltas, have none.
  ghost predicate PointersStand(data: Bytes, r: Report) {
    && (forall k :: 0 <= k < |r.nodes| ==>
          r.nodes[k].schemaIndex < |r.schemas| && !r.nodes[k].framed
          && FieldsStand(data, r.nodes[k], r.schemas[r.nodes[k].schemaIndex].definition.fields))
    && (forall k :: 0 <= k < |r.deltaNodes| ==>
          r.deltaNodes[k].schemaIndex < |r.schemas| && r.deltaNodes[k].framed
          && FieldsStand(data, r.deltaNodes[k], r.schemas[r.deltaNodes[k].schemaIndex].definition.fields))
  }

  lemma ReportPointers(data: Bytes, c: Context, r: Report)
    requires IsReport(data, c, r)
    ensures PointersStand(data, r)
  {
    hide IsReport, FieldsStand, BodyDecoded;
    ReportNodes(data, c, r);
    forall k | 0 <= k < |r.nodes|
      ensures FieldsStand(data, r.nodes[k], r.schemas[r.nodes[k].schemaIndex].definition.fields)
    {
      assert NodeDecoded(data, c, r.schemas, r.nodes[k]);
      BodyStands(data, r.nodes[k], r.schemas[r.nodes[k].schemaIndex].definition.fields);
    }
    forall k | 0 <= k < |r.deltaNodes|
      ensures FieldsStand(data, r.deltaNodes[k], r.schemas[r.deltaNodes[k].schemaIndex].definition.fields)
    {
      assert NodeDecoded(data, c, r.schemas, r.deltaNodes[k]);
      BodyStands(data, r.deltaNodes[k], r.schemas[r.deltaNodes[k].schemaIndex].definition.fields);
    }
  }
}
