// What a parse report must satisfy to become a model: shapes, byte ranges,
// budgets, and references that resolve.
module ModelChecks {
  import opened Results
  import opened SchemaDefinitions
  import opened SchemaNodes
  import opened SchemaReport

  datatype StreamKind = Transmit | PartitionStream | Deltas | UnknownKind

  datatype Snapshot = Snapshot(kind: StreamKind, bodyOffset: nat, byteSize: nat, report: Report)

  datatype ModelOptions = ModelOptions(
    maxNodes: nat,
    maxFields: nat,
    maxReferences: nat,
    maxValues: nat,
    maxDiagnostics: nat)

  const UINT8_MAX := 0xff
  const UINT16_MAX := 0xffff
  const UINT32_MAX := 0xffff_ffff

  predicate ScalarMatches(v: ScalarValue, t: FieldType) {
    match t
    case Logical => v.Flag?
    case Byte => v.Word? && v.w <= UINT8_MAX
    case Character => v.Word? && v.w <= UINT8_MAX
    case Unicode => v.Word? && v.w <= UINT16_MAX
    case Pointer => v.Word? && v.w <= UINT32_MAX
    case Short => v.Null? || (v.Signed? && -0x8000 <= v.i < 0x8000)
    case Integer => v.Null? || (v.Signed? && -0x8000_0000 <= v.i < 0x8000_0000)
    case Tag => v.Null? || (v.Signed? && -0x8000_0000 <= v.i < 0x8000_0000)
    case Opaque => false
    case _ => v.Bits? || v.Null?
  }

  // ---------------------------------------------------------------- byte ranges

  predicate Complete(s: Snapshot) {
    var r := s.report;
    && r.complete && r.diagnostic == None && r.uninterpretedSize == 0
    && r.terminatorOffset == Some(r.decodedEnd) && r.decodedEnd + r.terminatorSize == s.byteSize
    && (r.terminatorSize == 4 || r.terminatorSize == 8)
  }

  predicate NodeInRange(s: Snapshot, n: DecodedNode) {
    s.bodyOffset <= n.offset && n.size != 0 && n.offset + n.size <= s.report.decodedEnd
  }

  predicate FieldInRange(n: DecodedNode, f: DecodedField) {
    n.offset <= f.offset && f.offset + f.size <= n.offset + n.size
  }

  // ---------------------------------------------------------------- shapes

  // Everything about a field but its place.
  predicate FieldShaped(length: Option<nat>, def: FieldDefinition, i: nat, f: DecodedField) {
    && f.definitionIndex == i && f.elements == Elements(def, length)
    && f.components == ComponentCount(def.fieldType) && |f.values| == Product(f.elements, f.components)
    && f.statuses == []
    && forall j :: 0 <= j < |f.values| ==> ScalarMatches(f.values[j], def.fieldType)
  }

  predicate FieldValid(n: DecodedNode, def: FieldDefinition, i: nat, f: DecodedField) {
    FieldShaped(n.body.variableLength, def, i, f) && FieldInRange(n, f)
  }

  predicate NodeHeaderValid(s: Snapshot, n: DecodedNode) {
    && n.body.index != 0 && 2 <= n.nodeType <= 32767 && !n.framed && n.schemaIndex < |s.report.schemas|
    && NodeInRange(s, n)
    && var t := s.report.schemas[n.schemaIndex].definition;
       && t.nodeType == n.nodeType && |n.body.fields| == |t.fields|
       && (n.body.variableLength.Some? <==> HasLength(t.fields)) && ValidFields(t.fields)
  }

  predicate NodeValid(s: Snapshot, n: DecodedNode) {
    && NodeHeaderValid(s, n)
    && var defs := s.report.schemas[n.schemaIndex].definition.fields;
       forall i :: 0 <= i < |defs| ==> FieldValid(n, defs[i], i, n.body.fields[i])
  }

  function References(defs: seq<FieldDefinition>, fields: seq<DecodedField>): nat
    requires |defs| == |fields|
  {
    if fields == [] then 0
    else References(defs[..|defs| - 1], fields[..|fields| - 1])
         + if defs[|defs| - 1].fieldType == Pointer then |fields[|fields| - 1].values| else 0
  }

  function DefinitionFields(schemas: seq<ResolvedSchema>, n: DecodedNode): seq<FieldDefinition> {
    if n.schemaIndex < |schemas| && |schemas[n.schemaIndex].definition.fields| == |n.body.fields|
    then schemas[n.schemaIndex].definition.fields
    else seq(|n.body.fields|, _ => FieldDefinition([], Byte, 0, 0, true))
  }

  function ReferenceTotal(schemas: seq<ResolvedSchema>, nodes: seq<DecodedNode>): nat {
    if nodes == [] then 0
    else ReferenceTotal(schemas, nodes[..|nodes| - 1])
         + References(DefinitionFields(schemas, nodes[|nodes| - 1]), nodes[|nodes| - 1].body.fields)
  }

  predicate OptionsValid(o: ModelOptions) {
    o.maxNodes != 0 && o.maxFields != 0 && o.maxReferences != 0 && o.maxValues != 0 && o.maxDiagnostics != 0
  }

  predicate Buildable(s: Snapshot, o: ModelOptions) {
    && OptionsValid(o) && (s.kind == Transmit || s.kind == PartitionStream) && Complete(s)
    && s.report.deltaPrefix == None && s.report.deltaNodes == [] && s.report.packets == []
    && |s.report.nodes| <= o.maxNodes && |s.report.schemas| <= o.maxFields
  }

  predicate IndicesDistinct(nodes: seq<DecodedNode>) {
    forall j, k :: 0 <= j < k < |nodes| ==> nodes[j].body.index != nodes[k].body.index
  }

  // The first n nodes pass and stay within the budgets.
  predicate NodesValid(s: Snapshot, o: ModelOptions, n: nat)
    requires n <= |s.report.nodes|
  {
    var nodes := s.report.nodes[..n];
    && (forall k :: 0 <= k < n ==> NodeValid(s, s.report.nodes[k])) && IndicesDistinct(nodes)
    && NodeFields(nodes) <= o.maxFields && NodeValues(nodes) <= o.maxValues
    && ReferenceTotal(s.report.schemas, nodes) <= o.maxReferences
  }

  predicate SnapshotValid(s: Snapshot, o: ModelOptions) {
    Buildable(s, o) && NodesValid(s, o, |s.report.nodes|)
  }

  // ---------------------------------------------------------------- validation

  ghost predicate PositionsAre(nodes: seq<DecodedNode>, positions: map<nat, nat>) {
    && (forall k :: 0 <= k < |nodes| ==> nodes[k].body.index in positions && positions[nodes[k].body.index] == k)
    && (forall id :: id in positions ==> positions[id] < |nodes| && nodes[positions[id]].body.index == id)
  }

  // What n fields use of the value and reference budgets.
  ghost predicate FieldsWithin(n: DecodedNode, defs: seq<FieldDefinition>, i: nat, values: nat, references: nat)
    requires i <= |defs| == |n.body.fields|
  {
    && (forall k :: 0 <= k < i ==> FieldValid(n, defs[k], k, n.body.fields[k]))
    && ValueTotal(n.body.fields[..i]) <= values && References(defs[..i], n.body.fields[..i]) <= references
  }

  lemma {:induction false} FieldTotalsGrow(defs: seq<FieldDefinition>, fields: seq<DecodedField>, i: nat)
    requires i <= |defs| == |fields|
    ensures ValueTotal(fields[..i]) <= ValueTotal(fields)
    ensures References(defs[..i], fields[..i]) <= References(defs, fields)
  {
    if i == |fields| {
      assert fields[..i] == fields && defs[..i] == defs;
    } else {
      var f, d := fields[..|fields| - 1], defs[..|defs| - 1];
      FieldTotalsGrow(d, f, i);
      assert f[..i] == fields[..i] && d[..i] == defs[..i];
    }
  }

  lemma FieldTotalsStep(defs: seq<FieldDefinition>, fields: seq<DecodedField>, i: nat)
    requires i < |defs| == |fields|
    ensures ValueTotal(fields[..i + 1]) == ValueTotal(fields[..i]) + |fields[i].values| <= ValueTotal(fields)
    ensures References(defs[..i + 1], fields[..i + 1])
         == References(defs[..i], fields[..i]) + (if defs[i].fieldType == Pointer then |fields[i].values| else 0)
         <= References(defs, fields)
  {
    assert fields[..i + 1][..i] == fields[..i] && defs[..i + 1][..i] == defs[..i];
    FieldTotalsGrow(defs, fields, i + 1);
  }

  // The fields of one node against what is left of two budgets.
  method CheckFields(n: DecodedNode, defs: seq<FieldDefinition>, values: nat, references: nat)
    returns (r: Result<(nat, nat)>)
    requires |n.body.fields| == |defs|
    ensures r.Ok? <==> FieldsWithin(n, defs, |defs|, values, references)
    ensures r.Ok? ==>
      && r.value.0 == ValueTotal(n.body.fields) && r.value.1 == References(defs, n.body.fields)
      && r.value.0 <= values && r.value.1 <= references
    ensures r.Err? ==> r.error == InvalidRecord || r.error == ResourceLimit
  {
    hide Elements, ComponentCount, Product, ValueTotal, References;
    var usedValues: nat, usedReferences: nat := 0, 0;
    var fields := n.body.fields;
    NoFields(defs, fields);
    for i := 0 to |defs|
      invariant FieldsWithin(n, defs, i, values, references)
      invariant usedValues == ValueTotal(fields[..i]) <= values
      invariant usedReferences == References(defs[..i], fields[..i]) <= references
    {
      var f, def := fields[i], defs[i];
      FieldTotalsStep(defs, fields, i);
      assert fields[..|defs|] == fields && defs[..|defs|] == defs;
      if f.definitionIndex != i || f.elements != Elements(def, n.body.variableLength)
         || f.components != ComponentCount(def.fieldType) || |f.values| != Product(f.elements, f.components)
         || f.statuses != [] || !FieldInRange(n, f) {
        assert !FieldValid(n, def, i, f);
        return Err(InvalidRecord);
      }
      if |f.values| > values - usedValues {
        return Err(ResourceLimit);
      }
      usedValues := usedValues + |f.values|;
      for j := 0 to |f.values|
        invariant forall k :: 0 <= k < j ==> ScalarMatches(f.values[k], def.fieldType)
      {
        if !ScalarMatches(f.values[j], def.fieldType) {
          assert !FieldValid(n, def, i, f);
          return Err(InvalidRecord);
        }
      }
      if def.fieldType == Pointer {
        if |f.values| > references - usedReferences {
          return Err(ResourceLimit);
        }
        usedReferences := usedReferences + |f.values|;
      }
    }
    assert fields[..|defs|] == fields && defs[..|defs|] == defs;
    return Ok((usedValues, usedReferences));
  }

  lemma NoFields(defs: seq<FieldDefinition>, fields: seq<DecodedField>)
    requires |defs| == |fields|
    ensures ValueTotal(fields[..0]) == 0 && References(defs[..0], fields[..0]) == 0
  {
  }

  lemma {:induction false} NodeTotalsGrow(schemas: seq<ResolvedSchema>, nodes: seq<DecodedNode>, n: nat)
    requires n <= |nodes|
    ensures NodeFields(nodes[..n]) <= NodeFields(nodes) && NodeValues(nodes[..n]) <= NodeValues(nodes)
    ensures ReferenceTotal(schemas, nodes[..n]) <= ReferenceTotal(schemas, nodes)
  {
    if n == |nodes| {
      assert nodes[..n] == nodes;
    } else {
      var shorter := nodes[..|nodes| - 1];
      NodeTotalsGrow(schemas, shorter, n);
      assert shorter[..n] == nodes[..n];
    }
  }

  lemma NodesValidPrefix(s: Snapshot, o: ModelOptions, n: nat)
    requires n <= |s.report.nodes| && NodesValid(s, o, |s.report.nodes|)
    ensures NodesValid(s, o, n)
  {
    hide NodeValid;
    var nodes := s.report.nodes;
    assert nodes[..|nodes|] == nodes;
    NodeTotalsGrow(s.report.schemas, nodes, n);
  }

  lemma NodeTotalsStep(s: Snapshot, k: nat)
    requires k < |s.report.nodes|
    ensures var nodes, n := s.report.nodes, s.report.nodes[k];
      && NodeFields(nodes[..k + 1]) == NodeFields(nodes[..k]) + |n.body.fields|
      && NodeValues(nodes[..k + 1]) == NodeValues(nodes[..k]) + ValueTotal(n.body.fields)
      && ReferenceTotal(s.report.schemas, nodes[..k + 1])
         == ReferenceTotal(s.report.schemas, nodes[..k])
            + References(DefinitionFields(s.report.schemas, n), n.body.fields)
  {
    assert s.report.nodes[..k + 1][..k] == s.report.nodes[..k];
  }

  lemma PositionStep(nodes: seq<DecodedNode>, positions: map<nat, nat>, n: DecodedNode)
    requires PositionsAre(nodes, positions) && IndicesDistinct(nodes)
    ensures n.body.index in positions ==> !IndicesDistinct(nodes + [n])
    ensures n.body.index !in positions ==>
      PositionsAre(nodes + [n], positions[n.body.index := |nodes|]) && IndicesDistinct(nodes + [n])
  {
    var more := nodes + [n];
    if n.body.index in positions {
      assert more[positions[n.body.index]].body.index == more[|nodes|].body.index;
    }
  }

  // Succeeds exactly on valid snapshots; the table maps each index to its node.
  method ValidateAndIndex(s: Snapshot, o: ModelOptions) returns (r: Result<map<nat, nat>>)
    ensures r.Ok? <==> SnapshotValid(s, o)
    ensures r.Ok? ==> PositionsAre(s.report.nodes, r.value)
  {
    hide NodeValid, ValidFields, FieldsWithin, PositionsAre, IndicesDistinct, NodeFields, NodeValues, ReferenceTotal,
         NodeInRange, HasLength, Complete, References, ValueTotal;
    if !OptionsValid(o) {
      return Err(InvalidOptions);
    }
    if s.kind != Transmit && s.kind != PartitionStream {
      return Err(UnsupportedFormat);
    }
    if !Complete(s) || s.report.deltaPrefix != None || s.report.deltaNodes != [] || s.report.packets != [] {
      return Err(InvalidRecord);
    }
    if |s.report.nodes| > o.maxNodes || |s.report.schemas| > o.maxFields {
      return Err(ResourceLimit);
    }
    var nodes := s.report.nodes;
    var checked := seq(|s.report.schemas|, _ => false);
    var positions: map<nat, nat> := map[];
    var fields: nat, values: nat, references: nat := 0, 0, 0;
    NoNodes(s, o);
    for k := 0 to |nodes|
      invariant |checked| == |s.report.schemas|
      invariant forall i :: 0 <= i < |checked| ==> (checked[i] ==> ValidFields(s.report.schemas[i].definition.fields))
      invariant NodesValid(s, o, k) && PositionsAre(nodes[..k], positions)
      invariant fields == NodeFields(nodes[..k]) && values == NodeValues(nodes[..k])
      invariant references == ReferenceTotal(s.report.schemas, nodes[..k])
    {
      var n := nodes[k];
      NodeTotalsStep(s, k);
      PositionStep(nodes[..k], positions, n);
      assert nodes[..k + 1] == nodes[..k] + [n];
      NodeStep(s, o, k);
      if n.body.index == 0 || n.nodeType < 2 || n.nodeType > 32767 || n.framed || n.schemaIndex >= |s.report.schemas|
         || !NodeInRange(s, n) {
        return Err(InvalidRecord);
      }
      var t := s.report.schemas[n.schemaIndex].definition;
      if t.nodeType != n.nodeType || |n.body.fields| != |t.fields| || n.body.variableLength.Some? != HasLength(t.fields) {
        return Err(InvalidRecord);
      }
      if |n.body.fields| > o.maxFields - fields {
        return Err(ResourceLimit);
      }
      fields := fields + |n.body.fields|;
      if !checked[n.schemaIndex] {
        if !ValidFields(t.fields) {
          return Err(InvalidRecord);
        }
        checked := checked[n.schemaIndex := true];
      }
      var used := CheckFields(n, t.fields, o.maxValues - values, o.maxReferences - references);
      if used.Err? {
        return Err(used.error);
      }
      values := values + used.value.0;
      references := references + used.value.1;
      if n.body.index in positions {
        return Err(InvalidRecord);
      }
      positions := positions[n.body.index := k];
    }
    assert nodes[..|nodes|] == nodes;
    return Ok(positions);
  }

  lemma NoNodes(s: Snapshot, o: ModelOptions)
    ensures NodesValid(s, o, 0) && PositionsAre(s.report.nodes[..0], map[])
    ensures NodeFields(s.report.nodes[..0]) == 0 && NodeValues(s.report.nodes[..0]) == 0
    ensures ReferenceTotal(s.report.schemas, s.report.nodes[..0]) == 0
  {
  }

  // What the next node must satisfy for the prefix to stay valid.
  lemma NodeStep(s: Snapshot, o: ModelOptions, k: nat)
    requires k < |s.report.nodes| && NodesValid(s, o, k)
    ensures NodesValid(s, o, |s.report.nodes|) ==> NodesValid(s, o, k + 1)
    ensures var n, nodes := s.report.nodes[k], s.report.nodes[..k];
      NodesValid(s, o, k + 1) <==>
        && NodeHeaderValid(s, n)
        && NodeFields(nodes) + |n.body.fields| <= o.maxFields
        && FieldsWithin(n, s.report.schemas[n.schemaIndex].definition.fields, |n.body.fields|,
                        o.maxValues - NodeValues(nodes), o.maxReferences - ReferenceTotal(s.report.schemas, nodes))
        && IndicesDistinct(nodes + [n])
  {
    hide NodeHeaderValid, FieldValid, ValueTotal, References, NodeFields, NodeValues, ReferenceTotal;
    var n, nodes := s.report.nodes[k], s.report.nodes[..k];
    assert s.report.nodes[..k + 1] == nodes + [n];
    NodeTotalsStep(s, k);
    if NodesValid(s, o, |s.report.nodes|) {
      NodesValidPrefix(s, o, k + 1);
    }
    HeaderFacts(s, n);
    if NodeHeaderValid(s, n) {
      var defs := s.report.schemas[n.schemaIndex].definition.fields;
      assert n.body.fields[..|defs|] == n.body.fields && defs[..|defs|] == defs;
    }
  }

  lemma HeaderFacts(s: Snapshot, n: DecodedNode)
    ensures NodeHeaderValid(s, n) ==>
      && n.schemaIndex < |s.report.schemas|
      && |s.report.schemas[n.schemaIndex].definition.fields| == |n.body.fields|
      && DefinitionFields(s.report.schemas, n) == s.report.schemas[n.schemaIndex].definition.fields
  {
    hide ValidFields;
  }

  // ---------------------------------------------------------------- references

  // None when the class rule of a pointer has no reviewed membership.
  type ClassRule = (nat, nat) -> Option<bool>

  // Every pointer of node n is null, or names a node of a class not known to be
  // wrong.
  predicate FieldResolves(s: Snapshot, positions: map<nat, nat>, rule: ClassRule, def: FieldDefinition, f: DecodedField) {
    def.fieldType == Pointer ==>
      forall e :: 0 <= e < f.elements && e < |f.values| && f.values[e].Word? && f.values[e].w != 0 ==>
        && f.values[e].w in positions && positions[f.values[e].w] < |s.report.nodes|
        && rule(def.pointerClass, s.report.nodes[positions[f.values[e].w]].nodeType) != Some(false)
  }

  predicate NodeResolves(s: Snapshot, positions: map<nat, nat>, rule: ClassRule, n: DecodedNode) {
    var defs := DefinitionFields(s.report.schemas, n);
    forall i :: 0 <= i < |defs| ==> FieldResolves(s, positions, rule, defs[i], n.body.fields[i])
  }

  predicate AllResolve(s: Snapshot, positions: map<nat, nat>, rule: ClassRule) {
    forall k :: 0 <= k < |s.report.nodes| ==> NodeResolves(s, positions, rule, s.report.nodes[k])
  }

  // Every reference of a checked snapshot stays inside it.
  ghost predicate Closed(s: Snapshot, rule: ClassRule) {
    exists positions :: PositionsAre(s.report.nodes, positions) && AllResolve(s, positions, rule)
  }

  lemma PositionsUnique(nodes: seq<DecodedNode>, a: map<nat, nat>, b: map<nat, nat>)
    requires PositionsAre(nodes, a) && PositionsAre(nodes, b)
    ensures a == b
  {
    forall id
      ensures id in a <==> id in b
      ensures id in a ==> a[id] == b[id]
    {
      if id in a {
        assert nodes[a[id]].body.index == id;
      }
      if id in b {
        assert nodes[b[id]].body.index == id;
      }
    }
  }

  ghost predicate Checkable(s: Snapshot, o: ModelOptions, rule: ClassRule) {
    SnapshotValid(s, o) && Closed(s, rule)
  }
}
