// ApplyDelta: a record table with tombstones, an index and running totals that
// refines the plain list of DeltaState, and a virtual byte layout.
module DeltaApply {
  import opened Results
  import opened SchemaDefinitions
  import opened SchemaNodes
  import opened SchemaReport
  import opened ModelChecks
  import opened ModelLinks
  import opened DeltaState
  import opened RecordLayout
  import opened DeltaOutcome

  datatype Table = Table(records: seq<Record>, indices: map<nat, nat>, fields: nat, values: nat)

  // Records without the erased ones.
  function Live(records: seq<Record>): seq<Record> {
    if records == [] then []
    else Live(records[..|records| - 1]) + (if records[|records| - 1].Id() == 0 then [] else [records[|records| - 1]])
  }

  // The index names exactly the live records, and the totals are theirs.
  ghost predicate IndexIs(records: seq<Record>, indices: map<nat, nat>) {
    && (forall id :: id in indices ==> id != 0 && indices[id] < |records| && records[indices[id]].Id() == id)
    && (forall k :: 0 <= k < |records| && records[k].Id() != 0 ==>
          records[k].Id() in indices && indices[records[k].Id()] == k)
  }

  ghost predicate TableIs(t: Table) {
    && IndexIs(t.records, t.indices)
    && t.fields == RecordFields(Live(t.records)) && t.values == RecordValues(Live(t.records))
  }

  lemma {:induction false} LiveConcat(a: seq<Record>, b: seq<Record>)
    ensures Live(a + b) == Live(a) + Live(b)
  {
    if b == [] {
      assert a + b == a;
    } else {
      LiveConcat(a, b[..|b| - 1]);
      assert (a + b)[..|a + b| - 1] == a + b[..|b| - 1];
    }
  }

  lemma LiveAround(records: seq<Record>, k: nat, x: Record)
    requires k < |records|
    ensures Live(records[k := x])
         == Live(records[..k]) + ((if x.Id() == 0 then [] else [x]) + Live(records[k + 1..]))
  {
    var a, b := records[..k], records[k + 1..];
    assert records[k := x] == a + ([x] + b);
    LiveConcat(a, [x] + b);
    LiveConcat([x], b);
    assert [x][..0] == [];
  }

  lemma {:induction false} LiveMember(records: seq<Record>, p: nat) returns (k: nat)
    requires p < |Live(records)|
    ensures k < |records| && records[k] == Live(records)[p] && |Live(records[..k])| == p && records[k].Id() != 0
  {
    var n := |records| - 1;
    var shorter := records[..n];
    if p < |Live(shorter)| {
      k := LiveMember(shorter, p);
      assert shorter[..k] == records[..k];
    } else {
      k := n;
    }
  }

  lemma LiveDistinct(t: Table)
    requires TableIs(t)
    ensures IdsDistinct(Live(t.records))
  {
    var live := Live(t.records);
    forall i: nat, j: nat | i < j < |live|
      ensures live[i].Id() != live[j].Id()
    {
      var k := LiveMember(t.records, i);
      var l := LiveMember(t.records, j);
    }
    forall i: nat | i < |live|
      ensures live[i].Id() != 0
    {
      var k := LiveMember(t.records, i);
    }
  }

  // Where an indexed record is in the live list.
  lemma LivePosition(t: Table, id: nat)
    requires TableIs(t)
    ensures id in t.indices ==>
      && Position(Live(t.records), id) == Some(|Live(t.records[..t.indices[id]])|)
      && Live(t.records)[|Live(t.records[..t.indices[id]])|] == t.records[t.indices[id]]
    ensures id !in t.indices && id != 0 ==> Position(Live(t.records), id) == None
  {
    var live := Live(t.records);
    if id in t.indices {
      var k := t.indices[id];
      LiveAround(t.records, k, t.records[k]);
      assert t.records[k := t.records[k]] == t.records;
      LiveDistinct(t);
      PositionIs(live, |Live(t.records[..k])|);
    } else if id != 0 {
      var p := Position(live, id);
      if p.Some? {
        var k := LiveMember(t.records, p.value);
      }
    }
  }

  // The table has as many entries as there are live records.
  lemma {:induction false} IndexSize(t: Table)
    requires TableIs(t)
    ensures |t.indices| == |Live(t.records)|
  {
    LiveDistinct(t);
    var ids := Ids(Live(t.records));
    forall id
      ensures id in t.indices.Keys <==> id in ids
    {
      LivePosition(t, id);
      if id in ids {
        var p :| 0 <= p < |ids| && ids[p] == id;
        var k := LiveMember(t.records, p);
      }
      if id in t.indices {
        assert ids[Position(Live(t.records), id).value] == id;
      }
    }
    DistinctCount(ids, t.indices.Keys);
  }

  lemma {:induction false} DistinctCount(ids: seq<nat>, s: set<nat>)
    requires forall j, k :: 0 <= j < k < |ids| ==> ids[j] != ids[k]
    requires forall id :: id in s <==> id in ids
    ensures |s| == |ids|
  {
    if ids == [] {
      assert s == {};
    } else {
      var last, shorter := ids[|ids| - 1], ids[..|ids| - 1];
      assert ids == shorter + [last];
      DistinctCount(shorter, s - {last});
    }
  }

  // ---------------------------------------------------------------- source nodes

  lemma {:induction false} SourceStops(n: DecodedNode, fields: seq<DecodedField>, i: nat, maxValues: nat)
    requires i <= |fields| && SourceValues(n, fields[..i], maxValues).Err?
    ensures SourceValues(n, fields, maxValues) == SourceValues(n, fields[..i], maxValues)
  {
    if i == |fields| {
      assert fields[..i] == fields;
    } else {
      assert fields[..|fields| - 1][..i] == fields[..i];
      SourceStops(n, fields[..|fields| - 1], i, maxValues);
    }
  }

  method CountSourceValues(n: DecodedNode, maxValues: nat) returns (r: Result<nat>)
    ensures r == SourceValues(n, n.body.fields, maxValues)
  {
    var fields := n.body.fields;
    var added: nat := 0;
    for i := 0 to |fields|
      invariant SourceValues(n, fields[..i], maxValues) == Ok(added) && added <= maxValues
    {
      var f := fields[i];
      assert fields[..i + 1][..i] == fields[..i];
      if !FieldInRange(n, f) {
        SourceStops(n, fields, i + 1, maxValues);
        return Err(InvalidRecord);
      }
      if |f.values| > maxValues - added {
        SourceStops(n, fields, i + 1, maxValues);
        return Err(ResourceLimit);
      }
      added := added + |f.values|;
    }
    assert fields[..|fields|] == fields;
    return Ok(added);
  }

  function PrependScalars(values: seq<ScalarValue>, r: Result<seq<ScalarValue>>): Result<seq<ScalarValue>> {
    match r
    case Err(error) => Err(error)
    case Ok(rest) => Ok(values + rest)
  }

  lemma ScalarPrepended(values: seq<ScalarValue>, v: ScalarValue, r: Result<seq<ScalarValue>>)
    ensures PrependScalars(values + [v], r) == PrependScalars(values, PrependScalars([v], r))
    ensures PrependScalars([], r) == r
  {
    if r.Ok? {
      assert values + [v] + r.value == values + ([v] + r.value);
      assert [] + r.value == r.value;
    }
  }

  // Pointer values are replaced one by one through the mapping table.
  method ConvertPointers(f: DecodedField, mappings: map<(nat, nat), nat>) returns (r: Result<seq<ScalarValue>>)
    requires |f.statuses| == |f.values|
    ensures r == RemapValues(f.values, f.statuses, mappings)
  {
    hide RemapValue;
    var values: seq<ScalarValue> := [];
    ScalarPrepended([], Null, RemapValues(f.values, f.statuses, mappings));
    assert f.values[0..] == f.values && f.statuses[0..] == f.statuses;
    for j := 0 to |f.values|
      invariant |values| == j
      invariant RemapValues(f.values, f.statuses, mappings)
             == PrependScalars(values, RemapValues(f.values[j..], f.statuses[j..], mappings))
    {
      assert f.values[j..][1..] == f.values[j + 1..] && f.statuses[j..][1..] == f.statuses[j + 1..];
      var v := RemapValue(f.values[j], f.statuses[j], mappings);
      if v.Err? {
        return Err(v.error);
      }
      ScalarPrepended(values, v.value, RemapValues(f.values[j + 1..], f.statuses[j + 1..], mappings));
      values := values + [v.value];
    }
    assert values + [] == values;
    return Ok(values);
  }

  method ConvertOne(f: DecodedField, t: FieldType, mappings: map<(nat, nat), nat>) returns (r: Result<DecodedField>)
    ensures r == ConvertField(f, t, mappings)
  {
    hide RemapValues, SignedValue;
    if t == Pointer {
      if |f.statuses| != |f.values| {
        return Err(InvalidRecord);
      }
      var values :- ConvertPointers(f, mappings);
      return Ok(f.(values := values, statuses := []));
    }
    if f.statuses != [] {
      return Err(InvalidRecord);
    }
    var values := f.values;
    for j := 0 to |values|
      invariant |values| == |f.values|
      invariant forall k :: 0 <= k < j ==> values[k] == SignedValue(f.values[k], t)
      invariant forall k :: j <= k < |values| ==> values[k] == f.values[k]
    {
      values := values[j := SignedValue(values[j], t)];
    }
    assert values == seq(|f.values|, k requires 0 <= k < |f.values| => SignedValue(f.values[k], t));
    return Ok(f.(values := values, statuses := []));
  }

  lemma {:induction false} ConvertedPrefix(fields: seq<DecodedField>, defs: seq<FieldDefinition>,
                                           mappings: map<(nat, nat), nat>, done: seq<DecodedField>, i: nat)
    requires |fields| == |defs| && i == |done| <= |fields|
    requires forall k :: 0 <= k < i ==> ConvertField(fields[k], defs[k].fieldType, mappings) == Ok(done[k])
    ensures i == |fields| ==> ConvertFields(fields, defs, mappings) == Ok(done)
    ensures i < |fields| && ConvertField(fields[i], defs[i].fieldType, mappings).Err? ==>
      ConvertFields(fields, defs, mappings) == Err(ConvertField(fields[i], defs[i].fieldType, mappings).error)
    decreases |fields|
  {
    hide ConvertField;
    if i > 0 {
      ConvertedPrefix(fields[1..], defs[1..], mappings, done[1..], i - 1);
      assert done == [done[0]] + done[1..];
    }
  }

  method ConvertNode(c: Source, n: DecodedNode, t: TypeDefinition, target: nat) returns (r: Result<Record>)
    requires |n.body.fields| == |t.fields|
    ensures r == Converted(c, n, t, target)
  {
    hide ConvertField;
    var done: seq<DecodedField> := [];
    for i := 0 to |n.body.fields|
      invariant |done| == i
      invariant forall k :: 0 <= k < i ==> ConvertField(n.body.fields[k], t.fields[k].fieldType, c.mappings) == Ok(done[k])
    {
      ConvertedPrefix(n.body.fields, t.fields, c.mappings, done, i);
      var f :- ConvertOne(n.body.fields[i], t.fields[i].fieldType, c.mappings);
      done := done + [f];
    }
    ConvertedPrefix(n.body.fields, t.fields, c.mappings, done, |done|);
    return Ok(Record(t, n.(framed := false, body := n.body.(index := target, fields := done))));
  }

  // ---------------------------------------------------------------- one operation on the table

  function Tombstone(r: Record): Record {
    r.(node := r.node.(body := r.node.body.(index := 0)))
  }

  function EraseAt(t: Table, id: nat): Table
    requires id in t.indices && t.indices[id] < |t.records|
    requires var removed := t.records[t.indices[id]].node.body.fields; |removed| <= t.fields && ValueTotal(removed) <= t.values
  {
    var k := t.indices[id];
    var fields := t.records[k].node.body.fields;
    Table(t.records[k := Tombstone(t.records[k])], t.indices - {id}, t.fields - |fields|, t.values - ValueTotal(fields))
  }

  // Totals can be taken back: nothing wraps around.
  lemma Removable(t: Table, id: nat)
    requires TableIs(t) && id in t.indices
    ensures var k := t.indices[id];
      && |t.records[k].node.body.fields| <= t.fields && ValueTotal(t.records[k].node.body.fields) <= t.values
      && RecordFields(Without(Live(t.records), Position(Live(t.records), id))) == t.fields - |t.records[k].node.body.fields|
      && RecordValues(Without(Live(t.records), Position(Live(t.records), id)))
         == t.values - ValueTotal(t.records[k].node.body.fields)
  {
    hide ValueTotal, RecordFields, RecordValues;
    LivePosition(t, id);
    WithoutTotals(Live(t.records), Position(Live(t.records), id).value);
  }

  lemma Erased(t: Table, id: nat)
    requires TableIs(t) && id in t.indices
    requires var removed := t.records[t.indices[id]].node.body.fields; |removed| <= t.fields && ValueTotal(removed) <= t.values
    ensures TableIs(EraseAt(t, id))
    ensures Live(EraseAt(t, id).records) == Without(Live(t.records), Position(Live(t.records), id))
  {
    hide ValueTotal, RecordFields, RecordValues, IndexIs, Live, Without;
    var k := t.indices[id];
    Removable(t, id);
    LivePosition(t, id);
    IndexKnown(t.records, t.indices, id);
    IndexErased(t.records, t.indices, id);
    LiveErased(t.records, k);
  }

  lemma IndexKnown(records: seq<Record>, indices: map<nat, nat>, id: nat)
    requires IndexIs(records, indices)
    ensures id in indices ==> id != 0 && indices[id] < |records| && records[indices[id]].Id() == id
  {
  }

  lemma IndexErased(records: seq<Record>, indices: map<nat, nat>, id: nat)
    requires IndexIs(records, indices) && id in indices
    ensures IndexIs(records[indices[id] := Tombstone(records[indices[id]])], indices - {id})
  {
  }

  lemma LiveErased(records: seq<Record>, k: nat)
    requires k < |records| && records[k].Id() != 0
    ensures |Live(records[..k])| < |Live(records)|
    ensures Live(records[k := Tombstone(records[k])]) == Without(Live(records), Some(|Live(records[..k])|))
  {
    hide Live;
    LiveAround(records, k, records[k]);
    LiveAround(records, k, Tombstone(records[k]));
    assert records[k := records[k]] == records;
    var a, b := Live(records[..k]), Live(records[k + 1..]);
    assert Live(records) == a + ([records[k]] + b);
    assert Without(Live(records), Some(|a|)) == a + b;
    assert [] + b == b;
  }

  // The table after a record is placed under its ID.
  function PlaceAt(t: Table, record: Record, fields: nat, values: nat): Table
    requires record.Id() in t.indices ==> t.indices[record.Id()] < |t.records|
  {
    if record.Id() in t.indices
    then Table(t.records[t.indices[record.Id()] := record], t.indices, fields, values)
    else Table(t.records + [record], t.indices[record.Id() := |t.records|], fields, values)
  }

  lemma PlacedInTable(t: Table, record: Record, fields: nat, values: nat)
    requires TableIs(t) && record.Id() != 0
    requires var p := Position(Live(t.records), record.Id());
      && fields == RecordFields(Without(Live(t.records), p)) + |record.node.body.fields|
      && values == RecordValues(Without(Live(t.records), p)) + ValueTotal(record.node.body.fields)
    ensures TableIs(PlaceAt(t, record, fields, values))
    ensures Live(PlaceAt(t, record, fields, values).records)
         == Placed(Live(t.records), Position(Live(t.records), record.Id()), record)
  {
    hide ValueTotal, RecordFields, RecordValues, IndexIs, Live, Without;
    var id := record.Id();
    LivePosition(t, id);
    PlacedTotals(Live(t.records), Position(Live(t.records), id), record);
    IndexKnown(t.records, t.indices, id);
    IndexPlaced(t.records, t.indices, record);
    if id in t.indices {
      LiveReplaced(t.records, t.indices[id], record);
    } else {
      LiveAppended(t.records, record);
    }
  }

  lemma IndexPlaced(records: seq<Record>, indices: map<nat, nat>, record: Record)
    requires IndexIs(records, indices) && record.Id() != 0
    ensures record.Id() in indices ==>
      indices[record.Id()] < |records| && IndexIs(records[indices[record.Id()] := record], indices)
    ensures record.Id() !in indices ==> IndexIs(records + [record], indices[record.Id() := |records|])
  {
    var more := records + [record];
    assert forall k :: 0 <= k < |records| ==> more[k] == records[k];
    assert more[|records|] == record;
  }

  lemma LiveReplaced(records: seq<Record>, k: nat, record: Record)
    requires k < |records| && records[k].Id() != 0 && record.Id() != 0
    ensures |Live(records[..k])| < |Live(records)|
    ensures Live(records[k := record]) == Live(records)[|Live(records[..k])| := record]
  {
    hide Live;
    LiveAround(records, k, records[k]);
    LiveAround(records, k, record);
    assert records[k := records[k]] == records;
    var a, b := Live(records[..k]), Live(records[k + 1..]);
    assert Live(records) == a + ([records[k]] + b);
    assert Live(records)[|a| := record] == a + ([record] + b);
  }

  lemma LiveAppended(records: seq<Record>, record: Record)
    requires record.Id() != 0
    ensures Live(records + [record]) == Live(records) + [record]
  {
    assert (records + [record])[..|records|] == records;
  }

  // One operation; agrees with the step on plain lists in outcome and result.
  method Operate(c: Source, t: Table, changed: set<int>, used: set<int>, op: Operation) returns (r: Result<Table>)
    requires TableIs(t) && WithinState(c.options, Live(t.records))
    ensures r.Ok? ==> TableIs(r.value) && Step(c, Live(t.records), changed, used, op) == Ok(Live(r.value.records))
    ensures r.Err? ==> Step(c, Live(t.records), changed, used, op) == Err(r.error)
  {
    hide TableIs, ValueTotal, RecordFields, RecordValues, SourceDefinition, SourceValues, Converted, Live;
    if op.target == 0 || op.target in changed {
      return Err(InvalidOptions);
    }
    LivePosition(t, op.target);
    TableFacts(t, op.target);
    var present := op.target in t.indices;
    if op.kind == Erase {
      if !present {
        return Err(InvalidRecord);
      }
      Removable(t, op.target);
      Erased(t, op.target);
      return Ok(EraseAt(t, op.target));
    }
    if op.kind != Create && op.kind != Replace {
      return Err(InvalidOptions);
    }
    if (op.kind == Create) != !present {
      return Err(InvalidRecord);
    }
    if op.occurrence >= |c.delta.report.deltaNodes| || op.occurrence in used {
      return Err(InvalidOptions);
    }
    var n := c.delta.report.deltaNodes[op.occurrence];
    var definition :- SourceDefinition(c.delta, n);
    if present && t.records[t.indices[op.target]].node.nodeType != n.nodeType {
      return Err(InvalidRecord);
    }
    if |n.body.fields| > c.options.maxFields {
      return Err(ResourceLimit);
    }
    SourceFields(c.delta, n);
    var added :- CountSourceValues(n, c.options.maxValues);
    var fields, values := t.fields, t.values;
    if present {
      Removable(t, op.target);
      fields := fields - |t.records[t.indices[op.target]].node.body.fields|;
      values := values - ValueTotal(t.records[t.indices[op.target]].node.body.fields);
    }
    IndexSize(t);
    assert fields == RecordFields(Without(Live(t.records), Position(Live(t.records), op.target)));
    assert values == RecordValues(Without(Live(t.records), Position(Live(t.records), op.target)));
    if |n.body.fields| > c.options.maxFields - fields || added > c.options.maxValues - values
       || (!present && |t.indices| >= c.options.maxNodes) {
      return Err(ResourceLimit);
    }
    var record :- ConvertNode(c, n, definition, op.target);
    ConvertedTotals(c, n, definition, op.target, c.options.maxValues);
    PlacedInTable(t, record, fields + |n.body.fields|, values + added);
    return Ok(PlaceAt(t, record, fields + |n.body.fields|, values + added));
  }

  lemma TableFacts(t: Table, id: nat)
    requires TableIs(t)
    ensures id in t.indices ==> t.indices[id] < |t.records|
    ensures t.fields == RecordFields(Live(t.records)) && t.values == RecordValues(Live(t.records))
  {
  }

  lemma SourceFields(delta: Snapshot, n: DecodedNode)
    ensures SourceDefinition(delta, n).Ok? ==> |n.body.fields| == |SourceDefinition(delta, n).value.fields|
  {
  }

  lemma ConvertedTotals(c: Source, n: DecodedNode, t: TypeDefinition, target: nat, maxValues: nat)
    requires |n.body.fields| == |t.fields| && Converted(c, n, t, target).Ok? && SourceValues(n, n.body.fields, maxValues).Ok?
    ensures var record := Converted(c, n, t, target).value;
      && record.Id() == target && |record.node.body.fields| == |n.body.fields|
      && ValueTotal(record.node.body.fields) == SourceValues(n, n.body.fields, maxValues).value
  {
    hide ValueTotal, ConvertFields, SourceValues;
    ConvertedValues(n.body.fields, t.fields, c.mappings);
    SourceTotal(n, n.body.fields, maxValues);
  }

  // All operations; the running table refines the plain list.
  method Operations(c: Source, base: Table, ops: seq<Operation>) returns (r: Result<Table>)
    requires TableIs(base) && WithinState(c.options, Live(base.records))
    ensures r.Ok? ==> TableIs(r.value) && Steps(c, Live(base.records), {}, {}, ops) == Ok(Live(r.value.records))
    ensures r.Err? ==> Steps(c, Live(base.records), {}, {}, ops) == Err(r.error)
  {
    hide TableIs, Live, Step, RecordFields, RecordValues;
    var t := base;
    var changed: set<int>, used: set<int> := {}, {};
    assert ops[0..] == ops;
    for i := 0 to |ops|
      invariant TableIs(t) && WithinState(c.options, Live(t.records))
      invariant Steps(c, Live(base.records), {}, {}, ops) == Steps(c, Live(t.records), changed, used, ops[i..])
    {
      assert ops[i..][0] == ops[i] && ops[i..][1..] == ops[i + 1..];
      OneStepWithin(c, Live(t.records), changed, used, ops[i]);
      var next := Operate(c, t, changed, used, ops[i]);
      if next.Err? {
        return Err(next.error);
      }
      changed := changed + {ops[i].target};
      used := UsedBy(ops[i], used);
      t := next.value;
    }
    return Ok(t);
  }

  lemma OneStepWithin(c: Source, live: seq<Record>, changed: set<int>, used: set<int>, op: Operation)
    requires WithinState(c.options, live)
    ensures Step(c, live, changed, used, op).Ok? ==> WithinState(c.options, Step(c, live, changed, used, op).value)
  {
    hide Step, WithinState;
    if Step(c, live, changed, used, op).Ok? {
      var ops := [op];
      assert Steps(c, live, changed, used, ops) == Step(c, live, changed, used, op) by {
        assert ops[1..] == [];
      }
      StepsWithin(c, live, changed, used, ops);
    }
  }

  // ---------------------------------------------------------------- the base records

  function BaseRecords(schemas: seq<ResolvedSchema>, nodes: seq<DecodedNode>): (records: seq<Record>)
    requires UsesKnown(nodes, |schemas|)
    ensures |records| == |nodes|
  {
    seq(|nodes|, k requires 0 <= k < |nodes| => Record(schemas[nodes[k].schemaIndex].definition, nodes[k]))
  }

  lemma {:induction false} BaseTotals(schemas: seq<ResolvedSchema>, nodes: seq<DecodedNode>)
    requires UsesKnown(nodes, |schemas|) && forall k :: 0 <= k < |nodes| ==> nodes[k].body.index != 0
    ensures var records := BaseRecords(schemas, nodes);
      && Live(records) == records
      && RecordFields(records) == NodeFields(nodes) && RecordValues(records) == NodeValues(nodes)
  {
    hide ValueTotal;
    if nodes != [] {
      var shorter := nodes[..|nodes| - 1];
      BaseTotals(schemas, shorter);
      var records := BaseRecords(schemas, nodes);
      assert records[..|nodes| - 1] == BaseRecords(schemas, shorter);
    }
  }

  lemma SnapshotFacts(s: Snapshot, o: ModelOptions)
    requires SnapshotValid(s, o)
    ensures UsesKnown(s.report.nodes, |s.report.schemas|) && IndicesDistinct(s.report.nodes)
    ensures forall k :: 0 <= k < |s.report.nodes| ==> s.report.nodes[k].body.index != 0
    ensures NodeFields(s.report.nodes) <= o.maxFields && NodeValues(s.report.nodes) <= o.maxValues
    ensures |s.report.nodes| <= o.maxNodes
  {
    hide FieldValid, ValidFields, HasLength, NodeInRange, NodeFields, NodeValues, ReferenceTotal;
    var nodes := s.report.nodes;
    assert nodes[..|nodes|] == nodes;
    forall k | 0 <= k < |nodes|
      ensures nodes[k].schemaIndex < |s.report.schemas| && nodes[k].body.index != 0
    {
      assert NodeValid(s, nodes[k]);
    }
  }

  lemma IndexAppended(records: seq<Record>, indices: map<nat, nat>, record: Record)
    requires IndexIs(records, indices) && record.Id() != 0
    requires forall k :: 0 <= k < |records| ==> records[k].Id() != record.Id()
    ensures record.Id() !in indices && IndexIs(records + [record], indices[record.Id() := |records|])
  {
    IndexPlaced(records, indices, record);
  }

  method LoadBase(s: Snapshot, o: ModelOptions) returns (t: Table)
    requires SnapshotValid(s, o)
    ensures UsesKnown(s.report.nodes, |s.report.schemas|)
    ensures t.records == BaseRecords(s.report.schemas, s.report.nodes) == Live(t.records)
    ensures TableIs(t) && WithinState(o, Live(t.records))
  {
    hide SnapshotValid, ValueTotal, NodeFields, NodeValues, IndexIs, Live, RecordFields, RecordValues;
    SnapshotFacts(s, o);
    var nodes, schemas := s.report.nodes, s.report.schemas;
    var records: seq<Record> := [];
    var indices: map<nat, nat> := map[];
    var fields: nat, values: nat := 0, 0;
    NoRecords(schemas, nodes);
    for k := 0 to |nodes|
      invariant records == BaseRecords(schemas, nodes[..k]) && IndexIs(records, indices)
      invariant fields == NodeFields(nodes[..k]) && values == NodeValues(nodes[..k])
    {
      var n := nodes[k];
      var record := Record(schemas[n.schemaIndex].definition, n);
      forall j | 0 <= j < |records|
        ensures records[j].Id() != record.Id()
      {
        assert records[j].node == nodes[..k][j];
      }
      IndexAppended(records, indices, record);
      NodeTotals(nodes, k);
      assert BaseRecords(schemas, nodes[..k + 1]) == records + [record];
      indices := indices[n.body.index := |records|];
      records := records + [record];
      fields := fields + |n.body.fields|;
      values := values + ValueTotal(n.body.fields);
    }
    assert nodes[..|nodes|] == nodes;
    BaseTotals(schemas, nodes);
    t := Table(records, indices, fields, values);
  }

  lemma NoRecords(schemas: seq<ResolvedSchema>, nodes: seq<DecodedNode>)
    requires UsesKnown(nodes, |schemas|)
    ensures BaseRecords(schemas, nodes[..0]) == [] && IndexIs([], map[])
    ensures NodeFields(nodes[..0]) == 0 && NodeValues(nodes[..0]) == 0
  {
  }

  lemma NodeTotals(nodes: seq<DecodedNode>, k: nat)
    requires k < |nodes|
    ensures NodeFields(nodes[..k + 1]) == NodeFields(nodes[..k]) + |nodes[k].body.fields|
    ensures NodeValues(nodes[..k + 1]) == NodeValues(nodes[..k]) + ValueTotal(nodes[k].body.fields)
  {
    hide ValueTotal;
    assert nodes[..k + 1][..k] == nodes[..k];
  }

  // ---------------------------------------------------------------- emitting

  // Offsets of one node's fields; fails when an address overflows.
  method LayFields(fields: seq<DecodedField>, start: nat) returns (r: Result<(seq<DecodedField>, nat)>)
    requires start <= UINT64_MAX
    ensures r.Ok? <==> start + FieldSpans(fields) <= UINT64_MAX
    ensures r.Ok? ==> r.value == (LaidFields(fields, start), start + FieldSpans(fields))
    ensures r.Err? ==> r.error == ResourceLimit
  {
    hide FieldSpans, LaidFields;
    var laid := fields;
    var cursor := start;
    NoFieldSpans(fields, start);
    for i := 0 to |fields|
      invariant |laid| == |fields| && cursor == start + FieldSpans(fields[..i]) <= UINT64_MAX
      invariant laid[..i] == LaidFields(fields[..i], start) && laid[i..] == fields[i..]
    {
      FieldSpansGrow(fields, i);
      var f := laid[i];
      if cursor == UINT64_MAX || |f.values| > (UINT64_MAX - cursor - 1) / 8 {
        return Err(ResourceLimit);
      }
      LaidOne(fields, start, i);
      laid := laid[i := f.(offset := cursor, size := 1 + 8 * |f.values|)];
      assert laid[..i + 1] == laid[..i] + [laid[i]];
      cursor := cursor + laid[i].size;
    }
    assert laid[..|fields|] == laid && fields[..|fields|] == fields;
    return Ok((laid, cursor));
  }

  lemma NoFieldSpans(fields: seq<DecodedField>, start: nat)
    ensures FieldSpans(fields[..0]) == 0 && LaidFields(fields[..0], start) == []
  {
  }

  lemma LaidOne(fields: seq<DecodedField>, start: nat, i: nat)
    requires i < |fields|
    ensures LaidFields(fields[..i + 1], start)
         == LaidFields(fields[..i], start)
            + [fields[i].(offset := start + FieldSpans(fields[..i]), size := FieldSpan(fields[i]))]
  {
    assert fields[..i + 1][..i] == fields[..i];
  }

  lemma {:induction false} NotFitting(records: seq<Record>, k: nat)
    requires k < |records|
    ensures Spans(records[..k]) > UINT64_MAX - 8 ==> !AddressesFit(records)
    ensures Spans(records[..k]) + Span(records[k]) > UINT64_MAX ==> !AddressesFit(records)
  {
    hide Span;
    SpansGrow(records, k);
  }

  lemma {:induction false} LivePrefix(records: seq<Record>, k: nat) returns (rest: seq<Record>)
    requires k <= |records|
    ensures Live(records) == Live(records[..k]) + rest
  {
    assert records == records[..k] + records[k..];
    LiveConcat(records[..k], records[k..]);
    rest := Live(records[k..]);
  }

  // The live records with fresh addresses, in table order.
  method Emit(base: Snapshot, records: seq<Record>) returns (r: Result<Snapshot>)
    ensures r.Ok? <==> AddressesFit(Live(records))
    ensures r.Ok? ==> r.value == Emitted(base, Live(records))
    ensures r.Err? ==> r.error == ResourceLimit
  {
    hide Live, Spans, FieldSpans, LaidFields, LaidNodes, AddressesFit;
    var nodes: seq<DecodedNode> := [];
    var schemas: seq<ResolvedSchema> := [];
    var cursor: nat := 0;
    NothingLaid(records);
    for k := 0 to |records|
      invariant cursor == Spans(Live(records[..k])) && AddressesFitUpTo(Live(records[..k]))
      invariant nodes == LaidNodes(Live(records[..k])) && schemas == LaidSchemas(Live(records[..k]))
    {
      ghost var before := Live(records[..k]);
      LiveStep(records, k);
      if records[k].Id() != 0 {
        ghost var rest := LivePrefix(records, k + 1);
        EmitStep(before, records[k], Live(records), rest);
        if cursor > UINT64_MAX - 8 {
          return Err(ResourceLimit);
        }
        var laid := LayFields(records[k].node.body.fields, cursor + 4);
        if laid.Err? {
          return Err(laid.error);
        }
        var n := records[k].node;
        nodes := nodes + [n.(offset := cursor, size := laid.value.1 - cursor, schemaIndex := |schemas|,
                             body := n.body.(fields := laid.value.0))];
        schemas := schemas + [ResolvedSchema(records[k].definition, Full, 0, 0, [])];
        cursor := laid.value.1;
      }
    }
    assert records[..|records|] == records;
    FitsFinally(Live(records));
    if cursor > UINT64_MAX - 4 {
      return Err(ResourceLimit);
    }
    return Ok(Snapshot(base.kind, 0, cursor + 4,
                       Report(true, cursor, Some(cursor), 4, cursor + 4, 0, None, [], schemas, nodes, [], None)));
  }

  predicate AddressesFitUpTo(records: seq<Record>) {
    forall k :: 0 <= k < |records| ==> Spans(records[..k]) <= UINT64_MAX - 8
  }

  lemma FitsFinally(records: seq<Record>)
    ensures AddressesFit(records) <==> AddressesFitUpTo(records) && Spans(records) <= UINT64_MAX - 4
  {
  }

  lemma NothingLaid(records: seq<Record>)
    ensures Live(records[..0]) == [] && Spans([]) == 0 && LaidNodes([]) == [] && LaidSchemas([]) == []
    ensures AddressesFitUpTo([])
  {
  }

  lemma LiveStep(records: seq<Record>, k: nat)
    requires k < |records|
    ensures records[k].Id() == 0 ==> Live(records[..k + 1]) == Live(records[..k])
    ensures records[k].Id() != 0 ==> Live(records[..k + 1]) == Live(records[..k]) + [records[k]]
  {
    assert records[..k + 1][..k] == records[..k];
    assert Live(records[..k]) + [] == Live(records[..k]);
  }

  lemma EmitStep(before: seq<Record>, record: Record, all: seq<Record>, rest: seq<Record>)
    requires AddressesFitUpTo(before) && all == before + [record] + rest
    ensures LaidNodes(before + [record]) == LaidNodes(before) + [LaidNode(record, Spans(before), |before|)]
    ensures LaidSchemas(before + [record]) == LaidSchemas(before) + [ResolvedSchema(record.definition, Full, 0, 0, [])]
    ensures Spans(before + [record]) == Spans(before) + Span(record)
    ensures Spans(before) <= UINT64_MAX - 8 ==> AddressesFitUpTo(before + [record])
    ensures Spans(before) > UINT64_MAX - 8 || Spans(before) + Span(record) > UINT64_MAX ==> !AddressesFit(all)
  {
    hide Span, AddressesFit, AddressesFitUpTo, LaidNode, LaidNodes, Spans, LaidSchemas;
    LaidMore(before, record);
    SchemasMore(before, record);
    assert all[..|before|] == before && all[|before|] == record;
    NotFitting(all, |before|);
    if Spans(before) <= UINT64_MAX - 8 {
      FitsMore(before, record);
    }
  }

  lemma SchemasMore(before: seq<Record>, record: Record)
    ensures LaidSchemas(before + [record]) == LaidSchemas(before) + [ResolvedSchema(record.definition, Full, 0, 0, [])]
  {
  }

  lemma LaidMore(before: seq<Record>, record: Record)
    ensures LaidNodes(before + [record]) == LaidNodes(before) + [LaidNode(record, Spans(before), |before|)]
    ensures Spans(before + [record]) == Spans(before) + Span(record)
  {
    hide Span, LaidNode;
    assert (before + [record])[..|before|] == before;
  }

  lemma FitsMore(before: seq<Record>, record: Record)
    requires AddressesFitUpTo(before) && Spans(before) <= UINT64_MAX - 8
    ensures AddressesFitUpTo(before + [record])
  {
    hide Spans;
    var more := before + [record];
    forall k | 0 <= k < |more|
      ensures Spans(more[..k]) <= UINT64_MAX - 8
    {
      assert more[..k] == before[..k];
      if k == |before| {
        assert before[..k] == before;
      }
    }
  }

  // ---------------------------------------------------------------- applying a delta

  predicate MappingValid(m: ReferenceMapping) {
    m.wireIndex != 0 && m.status <= 1 && m.target != 0
  }

  predicate MappingsValid(references: seq<ReferenceMapping>) {
    && (forall k :: 0 <= k < |references| ==> MappingValid(references[k]))
    && forall j, k :: 0 <= j < k < |references| ==>
         references[j].wireIndex != references[k].wireIndex || references[j].status != references[k].status
  }

  function MappingTable(references: seq<ReferenceMapping>): map<(nat, nat), nat> {
    if references == [] then map[]
    else
      var m := references[|references| - 1];
      MappingTable(references[..|references| - 1])[(m.wireIndex, m.status) := m.target]
  }

  lemma {:induction false} MappingKeys(references: seq<ReferenceMapping>, key: (nat, nat))
    ensures key in MappingTable(references) <==>
      exists k :: 0 <= k < |references| && (references[k].wireIndex, references[k].status) == key
  {
    if references != [] {
      var shorter := references[..|references| - 1];
      MappingKeys(shorter, key);
      assert forall k :: 0 <= k < |shorter| ==> shorter[k] == references[k];
    }
  }

  method IndexMappings(references: seq<ReferenceMapping>) returns (r: Result<map<(nat, nat), nat>>)
    ensures r.Ok? <==> MappingsValid(references)
    ensures r.Ok? ==> r.value == MappingTable(references)
    ensures r.Err? ==> r.error == InvalidOptions
  {
    var table: map<(nat, nat), nat> := map[];
    for k := 0 to |references|
      invariant table == MappingTable(references[..k]) && MappingsValid(references[..k])
    {
      var m := references[k];
      MappingKeys(references[..k], (m.wireIndex, m.status));
      assert references[..k + 1][..k] == references[..k];
      if !MappingValid(m) || (m.wireIndex, m.status) in table {
        if MappingValid(m) {
          var j :| 0 <= j < k && (references[..k][j].wireIndex, references[..k][j].status) == (m.wireIndex, m.status);
          assert references[j].wireIndex == references[k].wireIndex;
        }
        return Err(InvalidOptions);
      }
      table := table[(m.wireIndex, m.status) := m.target];
    }
    assert references[..|references|] == references;
    return Ok(table);
  }

  predicate DeltaReady(delta: Snapshot) {
    delta.kind == Deltas && Complete(delta) && delta.report.deltaPrefix.Some?
  }

  predicate InputsFit(base: DeltaState, delta: Snapshot, plan: Plan, o: ModelOptions) {
    && plan.baseRevision == base.revision && plan.targetRevision != base.revision && DeltaReady(delta)
    && |plan.operations| <= o.maxNodes && |delta.report.deltaNodes| <= o.maxNodes
    && |plan.references| <= o.maxReferences && |delta.report.schemas| <= o.maxFields
    && MappingsValid(plan.references)
  }

  // The records after the plan, on the plain list.
  function Planned(base: DeltaState, delta: Snapshot, plan: Plan, o: ModelOptions): Result<seq<Record>>
    requires UsesKnown(base.snapshot.report.nodes, |base.snapshot.report.schemas|)
  {
    Steps(Source(delta, MappingTable(plan.references), o),
          BaseRecords(base.snapshot.report.schemas, base.snapshot.report.nodes), {}, {}, plan.operations)
  }

  // Every source node that is put in place fits its definition.
  ghost predicate SourcesShaped(c: Source, ops: seq<Operation>) {
    forall i :: 0 <= i < |ops| && ops[i].kind != Erase ==>
      RecordFor(c, ops[i]).Some? && RecordShaped(RecordFor(c, ops[i]).value)
  }

  // The inputs fit, every operation finds its target and source, the sources
  // fit their definitions, and the planned records have addresses, a definition
  // each within the limit, and references that stay inside.
  ghost predicate Applicable(base: DeltaState, delta: Snapshot, plan: Plan, o: ModelOptions, rule: ClassRule)
    requires UsesKnown(base.snapshot.report.nodes, |base.snapshot.report.schemas|)
  {
    && InputsFit(base, delta, plan, o)
    && SourcesShaped(Source(delta, MappingTable(plan.references), o), plan.operations)
    && var planned := Planned(base, delta, plan, o);
       && planned.Ok? && AddressesFit(planned.value) && |planned.value| <= o.maxFields
       && RecordReferences(planned.value) <= o.maxReferences && RecordsClosed(planned.value, rule)
  }

  lemma {:induction false} OperationFound(ops: seq<Operation>, id: nat)
    ensures OperationOn(ops, id).Some? ==>
      exists i :: 0 <= i < |ops| && ops[i] == OperationOn(ops, id).value && ops[i].target == id
  {
    if ops != [] && ops[0].target != id {
      OperationFound(ops[1..], id);
      if i :| 0 <= i < |ops[1..]| && Some(ops[1..][i]) == OperationOn(ops[1..], id) && ops[1..][i].target == id {
        assert ops[i + 1] == ops[1..][i];
      }
    }
  }

  // Every operation of a plan that can be planned is the one on its target.
  lemma {:induction false} OperationAt(c: Source, live: seq<Record>, changed: set<int>, used: set<int>,
                                       ops: seq<Operation>, i: nat)
    requires IdsDistinct(live) && Steps(c, live, changed, used, ops).Ok? && i < |ops|
    ensures ops[i].target !in changed && OperationOn(ops, ops[i].target) == Some(ops[i])
    ensures ops[i].kind != Erase ==> RecordFor(c, ops[i]).Some? && RecordFor(c, ops[i]).value.Id() == ops[i].target
    decreases |ops|
  {
    hide Step, Lookup, RecordFor, IdsDistinct;
    var next := Step(c, live, changed, used, ops[0]).value;
    StepFresh(c, live, changed, used, ops[0]);
    StepLooksUp(c, live, changed, used, ops[0], 0);
    if i == 0 {
      RecordForId(c, ops[0]);
    } else {
      OperationAt(c, next, changed + {ops[0].target}, UsedBy(ops[0], used), ops[1..], i - 1);
    }
  }

  lemma RecordForId(c: Source, op: Operation)
    ensures RecordFor(c, op).Some? ==> RecordFor(c, op).value.Id() == op.target
  {
    hide ConvertFields, SourceDefinition;
    if op.kind != Erase && op.occurrence < |c.delta.report.deltaNodes| {
      SourceFields(c.delta, c.delta.report.deltaNodes[op.occurrence]);
    }
  }

  lemma BaseShaped(s: Snapshot, o: ModelOptions)
    requires SnapshotValid(s, o)
    ensures UsesKnown(s.report.nodes, |s.report.schemas|)
    ensures forall k :: 0 <= k < |s.report.nodes| ==> RecordShaped(BaseRecords(s.report.schemas, s.report.nodes)[k])
  {
    hide FieldShaped, ValidFields, HasLength, NodeInRange, FieldInRange, NodeFields, NodeValues, ReferenceTotal;
    SnapshotFacts(s, o);
    forall k | 0 <= k < |s.report.nodes|
      ensures RecordShaped(BaseRecords(s.report.schemas, s.report.nodes)[k])
    {
      assert NodeValid(s, s.report.nodes[k]);
      NodeShape(s, s.report.nodes[k]);
    }
  }

  // The planned records are well shaped exactly when the sources put in place
  // are: the others come from a valid base.
  lemma ShapesPlanned(c: Source, live: seq<Record>, ops: seq<Operation>)
    requires IdsDistinct(live) && Steps(c, live, {}, {}, ops).Ok?
    requires forall k :: 0 <= k < |live| ==> RecordShaped(live[k])
    ensures (forall k :: 0 <= k < |Steps(c, live, {}, {}, ops).value| ==> RecordShaped(Steps(c, live, {}, {}, ops).value[k]))
       <==> SourcesShaped(c, ops)
  {
    hide RecordShaped, Steps, RecordFor, IdsDistinct;
    var after := Steps(c, live, {}, {}, ops).value;
    if SourcesShaped(c, ops) {
      forall k | 0 <= k < |after|
        ensures RecordShaped(after[k])
      {
        PlannedFrom(c, live, ops, k);
      }
    }
    if forall k :: 0 <= k < |after| ==> RecordShaped(after[k]) {
      forall i | 0 <= i < |ops| && ops[i].kind != Erase
        ensures RecordFor(c, ops[i]).Some? && RecordShaped(RecordFor(c, ops[i]).value)
      {
        OperationAt(c, live, {}, {}, ops, i);
        StepsUpdateMap(c, live, {}, {}, ops, ops[i].target);
      }
    }
  }

  // Where a planned record comes from.
  lemma PlannedFrom(c: Source, live: seq<Record>, ops: seq<Operation>, k: nat)
    requires IdsDistinct(live) && Steps(c, live, {}, {}, ops).Ok? && k < |Steps(c, live, {}, {}, ops).value|
    ensures var record := Steps(c, live, {}, {}, ops).value[k];
      || (exists j :: 0 <= j < |live| && live[j] == record)
      || (exists i :: 0 <= i < |ops| && ops[i].kind != Erase && RecordFor(c, ops[i]) == Some(record))
  {
    hide Steps, IdsDistinct;
    var after := Steps(c, live, {}, {}, ops).value;
    var id := after[k].Id();
    StepsUpdateMap(c, live, {}, {}, ops, id);
    PositionIs(after, k);
    OperationFound(ops, id);
    match OperationOn(ops, id)
    case None =>
      assert live[Position(live, id).value] == after[k];
    case Some(op) =>
      assert RecordFor(c, op) == Some(after[k]);
      var i :| 0 <= i < |ops| && ops[i] == op && ops[i].target == id;
  }

  // The final check of the emitted snapshot passes exactly on applicable plans.
  lemma ApplicableIff(base: DeltaState, delta: Snapshot, plan: Plan, o: ModelOptions, rule: ClassRule)
    requires SnapshotValid(base.snapshot, o) && UsesKnown(base.snapshot.report.nodes, |base.snapshot.report.schemas|)
    ensures Applicable(base, delta, plan, o, rule)
       <==> && InputsFit(base, delta, plan, o) && Planned(base, delta, plan, o).Ok?
            && AddressesFit(Planned(base, delta, plan, o).value)
            && Checkable(Emitted(base.snapshot, Planned(base, delta, plan, o).value), o, rule)
  {
    hide SnapshotValid, SourcesShaped, RecordShaped, Steps, AddressesFit, RecordsClosed, RecordReferences, RecordFields,
         RecordValues, BaseRecords, MappingTable, InputsFit, IdsDistinct, Checkable;
    var c := Source(delta, MappingTable(plan.references), o);
    var before := BaseRecords(base.snapshot.report.schemas, base.snapshot.report.nodes);
    var planned := Planned(base, delta, plan, o);
    if planned.Ok? {
      BaseDistinct(base.snapshot, o);
      BaseShaped(base.snapshot, o);
      BaseWithin(base.snapshot, o);
      StepsWithin(c, before, {}, {}, plan.operations);
      StepsUpdateMap(c, before, {}, {}, plan.operations, 0);
      ShapesPlanned(c, before, plan.operations);
      CheckableIff(base.snapshot, planned.value, o, rule);
    }
  }

  lemma BaseWithin(s: Snapshot, o: ModelOptions)
    requires SnapshotValid(s, o)
    ensures UsesKnown(s.report.nodes, |s.report.schemas|)
    ensures WithinState(o, BaseRecords(s.report.schemas, s.report.nodes))
    ensures OptionsValid(o) && (s.kind == Transmit || s.kind == PartitionStream)
  {
    hide NodesValid, NodeFields, NodeValues, RecordFields, RecordValues, Live;
    SnapshotFacts(s, o);
    BaseTotals(s.report.schemas, s.report.nodes);
  }

  lemma BaseDistinct(base: Snapshot, o: ModelOptions)
    requires SnapshotValid(base, o)
    ensures UsesKnown(base.report.nodes, |base.report.schemas|)
    ensures IdsDistinct(BaseRecords(base.report.schemas, base.report.nodes))
  {
    hide SnapshotValid;
    SnapshotFacts(base, o);
    var nodes, records := base.report.nodes, BaseRecords(base.report.schemas, base.report.nodes);
    forall j, k | 0 <= j < k < |records|
      ensures records[j].Id() != records[k].Id()
    {
      assert nodes[j].body.index != nodes[k].body.index;
    }
  }

  method CreateDeltaState(base: Snapshot, revision: nat, o: ModelOptions, rule: ClassRule) returns (r: Result<DeltaState>)
    ensures r.Ok? <==> Checkable(base, o, rule)
    ensures r.Ok? ==> r.value == DeltaState(revision, base)
  {
    hide SnapshotValid, Closed;
    var checked :- Checked(base, o, rule);
    return Ok(DeltaState(revision, base));
  }

  // Succeeds exactly on applicable plans; the new state is the planned list,
  // freshly laid out, valid and closed under references again.
  method ApplyDelta(base: DeltaState, delta: Snapshot, plan: Plan, o: ModelOptions, rule: ClassRule)
    returns (r: Result<DeltaState>)
    ensures r.Ok? ==> Checkable(base.snapshot, o, rule)
    ensures Checkable(base.snapshot, o, rule) ==>
      && UsesKnown(base.snapshot.report.nodes, |base.snapshot.report.schemas|)
      && (r.Ok? <==> Applicable(base, delta, plan, o, rule))
    ensures r.Ok? ==>
      && UsesKnown(base.snapshot.report.nodes, |base.snapshot.report.schemas|)
      && r.value == DeltaState(plan.targetRevision, Emitted(base.snapshot, Planned(base, delta, plan, o).value))
  {
    hide SnapshotValid, Closed, TableIs, Live, Steps, AddressesFit, Emitted, MappingsValid, MappingTable, DeltaReady,
         RecordFields, RecordValues, BaseRecords, SourcesShaped, RecordsClosed, RecordReferences;
    var checked :- Checked(base.snapshot, o, rule);
    SnapshotFacts(base.snapshot, o);
    if plan.baseRevision != base.revision || plan.targetRevision == base.revision {
      return Err(InvalidOptions);
    }
    if !DeltaReady(delta) {
      return Err(InvalidRecord);
    }
    if |plan.operations| > o.maxNodes || |delta.report.deltaNodes| > o.maxNodes
       || |plan.references| > o.maxReferences || |delta.report.schemas| > o.maxFields {
      return Err(ResourceLimit);
    }
    var mappings :- IndexMappings(plan.references);
    var table := LoadBase(base.snapshot, o);
    var applied :- Operations(Source(delta, mappings, o), table, plan.operations);
    var snapshot :- Emit(base.snapshot, applied.records);
    ApplicableIff(base, delta, plan, o, rule);
    var valid :- Checked(snapshot, o, rule);
    return Ok(DeltaState(plan.targetRevision, snapshot));
  }

  // ---------------------------------------------------------------- what a state contains

  function ContentOf(s: Snapshot, id: nat): Option<Record>
    requires UsesKnown(s.report.nodes, |s.report.schemas|)
  {
    Bare(Lookup(BaseRecords(s.report.schemas, s.report.nodes), id))
  }

  function Bare(r: Option<Record>): Option<Record> {
    match r
    case None => None
    case Some(record) => Some(Content(record))
  }

  function NodeIds(s: Snapshot): seq<nat> {
    seq(|s.report.nodes|, k requires 0 <= k < |s.report.nodes| => s.report.nodes[k].body.index)
  }

  lemma {:induction false} SamePlaces(a: seq<Record>, b: seq<Record>, id: nat)
    requires |a| == |b| && forall k :: 0 <= k < |a| ==> Content(a[k]) == Content(b[k])
    ensures Position(a, id) == Position(b, id) && Bare(Lookup(a, id)) == Bare(Lookup(b, id))
  {
    hide Placeless;
    if a != [] {
      assert Content(a[|a| - 1]).Id() == a[|a| - 1].Id() && Content(b[|a| - 1]).Id() == b[|a| - 1].Id();
      SamePlaces(a[..|a| - 1], b[..|a| - 1], id);
    }
  }

  lemma EmittedContent(base: Snapshot, records: seq<Record>, id: nat)
    ensures var s := Emitted(base, records);
      && UsesKnown(s.report.nodes, |s.report.schemas|)
      && ContentOf(s, id) == Bare(Lookup(records, id)) && NodeIds(s) == Ids(records)
  {
    hide Spans, LaidNodes, LaidSchemas, Lookup, Content;
    var s := Emitted(base, records);
    EmittedIds(base, records);
    forall k: nat | k < |records|
      ensures s.report.nodes[k].schemaIndex == k
      ensures Content(Record(s.report.schemas[k].definition, s.report.nodes[k])) == Content(records[k])
    {
      EmittedKeeps(base, records, k);
    }
    SamePlaces(BaseRecords(s.report.schemas, s.report.nodes), records, id);
  }

  // The new snapshot holds, under every index, the node of the operation on it,
  // or else the base node; survivors keep the base order and creations follow
  // in plan order.
  lemma AppliedIsMapUpdate(base: DeltaState, delta: Snapshot, plan: Plan, o: ModelOptions, rule: ClassRule, id: nat)
    requires Checkable(base.snapshot, o, rule) && UsesKnown(base.snapshot.report.nodes, |base.snapshot.report.schemas|)
    requires Applicable(base, delta, plan, o, rule)
    ensures var c := Source(delta, MappingTable(plan.references), o);
      var after := Emitted(base.snapshot, Planned(base, delta, plan, o).value);
      && UsesKnown(after.report.nodes, |after.report.schemas|)
      && ContentOf(after, id) == (match OperationOn(plan.operations, id)
           case None => ContentOf(base.snapshot, id)
           case Some(op) => Bare(RecordFor(c, op)))
      && NodeIds(after) == Kept(NodeIds(base.snapshot), plan.operations) + Created(plan.operations)
  {
    hide SnapshotValid, Closed, Steps, AddressesFit, Emitted, Lookup, RecordFor, Kept, Created, OperationOn,
         SourcesShaped, Content, RecordReferences, RecordsClosed;
    var c := Source(delta, MappingTable(plan.references), o);
    var before := BaseRecords(base.snapshot.report.schemas, base.snapshot.report.nodes);
    BaseDistinct(base.snapshot, o);
    StepsUpdateMap(c, before, {}, {}, plan.operations, id);
    StepsKeepOrder(c, before, {}, {}, plan.operations);
    EmittedContent(base.snapshot, Planned(base, delta, plan, o).value, id);
    assert Ids(before) == NodeIds(base.snapshot);
  }
}
