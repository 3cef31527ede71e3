// Applying a decoded delta to a snapshot: what it means, on plain lists.
module DeltaState {
  import opened Results
  import opened SchemaDefinitions
  import opened SchemaNodes
  import opened SchemaReport
  import opened ModelChecks

  datatype OperationKind = Create | Replace | Erase | OtherKind

  datatype Operation = Operation(kind: OperationKind, target: nat, occurrence: nat)

  datatype ReferenceMapping = ReferenceMapping(wireIndex: nat, status: nat, target: nat)

  datatype Plan = Plan(
    baseRevision: nat,
    targetRevision: nat,
    operations: seq<Operation>,
    references: seq<ReferenceMapping>)

  datatype DeltaState = DeltaState(revision: nat, snapshot: Snapshot)

  // A node with its own copy of its definition.
  datatype Record = Record(definition: TypeDefinition, node: DecodedNode) {
    function Id(): nat {
      node.body.index
    }
  }

  // What stays fixed while operations are applied. Mappings are keyed by wire
  // index and status.
  datatype Source = Source(delta: Snapshot, mappings: map<(nat, nat), nat>, options: ModelOptions)

  // ---------------------------------------------------------------- totals

  function RecordFields(records: seq<Record>): nat {
    if records == [] then 0 else RecordFields(records[..|records| - 1]) + |records[|records| - 1].node.body.fields|
  }

  function RecordValues(records: seq<Record>): nat {
    if records == [] then 0
    else RecordValues(records[..|records| - 1]) + ValueTotal(records[|records| - 1].node.body.fields)
  }

  lemma {:induction false} TotalsAdd(a: seq<Record>, b: seq<Record>)
    ensures RecordFields(a + b) == RecordFields(a) + RecordFields(b)
    ensures RecordValues(a + b) == RecordValues(a) + RecordValues(b)
  {
    hide ValueTotal;
    if b == [] {
      assert a + b == a;
    } else {
      TotalsAdd(a, b[..|b| - 1]);
      assert (a + b)[..|a + b| - 1] == a + b[..|b| - 1];
    }
  }

  // ---------------------------------------------------------------- converting a source node

  function RemapValue(v: ScalarValue, status: nat, mappings: map<(nat, nat), nat>): Result<ScalarValue> {
    if !v.Word? || v.w > UINT32_MAX || status > 1 then Err(InvalidRecord)
    else if v.w == 0 then Ok(v)
    else if (v.w, status) !in mappings then Err(UnsupportedFormat)
    else Ok(Word(mappings[(v.w, status)]))
  }

  // Words of integer fields take their signed meaning.
  function SignedValue(v: ScalarValue, t: FieldType): ScalarValue {
    if v.Word? && t == Integer && v.w <= UINT32_MAX then Signed(Wrapped(v.w, 0x8000_0000))
    else if v.Word? && t == Short && v.w <= UINT16_MAX then Signed(Wrapped(v.w, 0x8000))
    else v
  }

  function RemapValues(values: seq<ScalarValue>, statuses: seq<nat>, mappings: map<(nat, nat), nat>):
    (r: Result<seq<ScalarValue>>)
    requires |values| == |statuses|
    ensures r.Ok? ==> |r.value| == |values|
  {
    if values == [] then Ok([])
    else
      var first :- RemapValue(values[0], statuses[0], mappings);
      var rest :- RemapValues(values[1..], statuses[1..], mappings);
      Ok([first] + rest)
  }

  function ConvertField(f: DecodedField, t: FieldType, mappings: map<(nat, nat), nat>): (r: Result<DecodedField>)
    ensures r.Ok? ==> |r.value.values| == |f.values| && r.value.statuses == []
  {
    if t == Pointer then
      if |f.statuses| != |f.values| then Err(InvalidRecord)
      else
        var values :- RemapValues(f.values, f.statuses, mappings);
        Ok(f.(values := values, statuses := []))
    else if f.statuses != [] then Err(InvalidRecord)
    else Ok(f.(values := seq(|f.values|, i requires 0 <= i < |f.values| => SignedValue(f.values[i], t))))
  }

  function ConvertFields(fields: seq<DecodedField>, defs: seq<FieldDefinition>, mappings: map<(nat, nat), nat>):
    (r: Result<seq<DecodedField>>)
    requires |fields| == |defs|
    ensures r.Ok? ==> |r.value| == |fields|
  {
    if fields == [] then Ok([])
    else
      var first :- ConvertField(fields[0], defs[0].fieldType, mappings);
      var rest :- ConvertFields(fields[1..], defs[1..], mappings);
      Ok([first] + rest)
  }

  lemma {:induction false} ConvertedValues(fields: seq<DecodedField>, defs: seq<FieldDefinition>,
                                           mappings: map<(nat, nat), nat>)
    requires |fields| == |defs| && ConvertFields(fields, defs, mappings).Ok?
    ensures ValueTotal(ConvertFields(fields, defs, mappings).value) == ValueTotal(fields)
  {
    hide ConvertField;
    if fields != [] {
      ConvertedValues(fields[1..], defs[1..], mappings);
      var r := ConvertFields(fields, defs, mappings).value;
      TotalFront(r);
      TotalFront(fields);
    }
  }

  // ---------------------------------------------------------------- source checks

  // The value count of source fields with proper ranges.
  function SourceValues(n: DecodedNode, fields: seq<DecodedField>, maxValues: nat): Result<nat> {
    if fields == [] then Ok(0)
    else
      var before :- SourceValues(n, fields[..|fields| - 1], maxValues);
      var f := fields[|fields| - 1];
      if !FieldInRange(n, f) then Err(InvalidRecord)
      else if before + |f.values| > maxValues then Err(ResourceLimit)
      else Ok(before + |f.values|)
  }

  lemma {:induction false} SourceTotal(n: DecodedNode, fields: seq<DecodedField>, maxValues: nat)
    requires SourceValues(n, fields, maxValues).Ok?
    ensures SourceValues(n, fields, maxValues).value == ValueTotal(fields) <= maxValues || fields == []
    ensures SourceValues(n, fields, maxValues).value == ValueTotal(fields)
  {
    if fields != [] {
      SourceTotal(n, fields[..|fields| - 1], maxValues);
    }
  }

  function SourceDefinition(delta: Snapshot, n: DecodedNode): Result<TypeDefinition> {
    if !n.framed || n.schemaIndex >= |delta.report.schemas| then Err(UnsupportedFormat)
    else
      var t := delta.report.schemas[n.schemaIndex].definition;
      if n.body.index == 0 || n.nodeType != t.nodeType || |n.body.fields| != |t.fields| || !NodeInRange(delta, n)
      then Err(InvalidRecord)
      else Ok(t)
  }

  // The record a source node becomes under a new index.
  function Converted(c: Source, n: DecodedNode, t: TypeDefinition, target: nat): (r: Result<Record>)
    requires |n.body.fields| == |t.fields|
    ensures r.Ok? ==> r.value.Id() == target && |r.value.node.body.fields| == |n.body.fields|
  {
    var fields :- ConvertFields(n.body.fields, t.fields, c.mappings);
    Ok(Record(t, n.(framed := false, body := n.body.(index := target, fields := fields))))
  }

  // ---------------------------------------------------------------- one operation

  function Position(live: seq<Record>, id: nat): (p: Option<nat>)
    ensures p.Some? ==> p.value < |live| && live[p.value].Id() == id
    ensures p.None? ==> forall k :: 0 <= k < |live| ==> live[k].Id() != id
  {
    if live == [] then None
    else if live[|live| - 1].Id() == id then Some(|live| - 1)
    else Position(live[..|live| - 1], id)
  }

  function Without(live: seq<Record>, p: Option<nat>): seq<Record>
    requires p.Some? ==> p.value < |live|
  {
    if p.Some? then live[..p.value] + live[p.value + 1..] else live
  }

  function Placed(live: seq<Record>, p: Option<nat>, record: Record): seq<Record>
    requires p.Some? ==> p.value < |live|
  {
    if p.Some? then live[p.value := record] else live + [record]
  }

  // The record that a create or replace operation puts in place.
  function NewRecord(c: Source, live: seq<Record>, used: set<int>, op: Operation): Result<Record> {
    var p := Position(live, op.target);
    if op.kind != Create && op.kind != Replace then Err(InvalidOptions)
    else if (op.kind == Create) != p.None? then Err(InvalidRecord)
    else if op.occurrence >= |c.delta.report.deltaNodes| || op.occurrence in used then Err(InvalidOptions)
    else
      var n := c.delta.report.deltaNodes[op.occurrence];
      var t :- SourceDefinition(c.delta, n);
      if p.Some? && live[p.value].node.nodeType != n.nodeType then Err(InvalidRecord)
      else if |n.body.fields| > c.options.maxFields then Err(ResourceLimit)
      else
        var values :- SourceValues(n, n.body.fields, c.options.maxValues);
        var others := Without(live, p);
        if RecordFields(others) + |n.body.fields| > c.options.maxFields
           || RecordValues(others) + values > c.options.maxValues || (p.None? && |live| >= c.options.maxNodes)
        then Err(ResourceLimit)
        else Converted(c, n, t, op.target)
  }

  function Step(c: Source, live: seq<Record>, changed: set<int>, used: set<int>, op: Operation): Result<seq<Record>> {
    if op.target == 0 || op.target in changed then Err(InvalidOptions)
    else if op.kind == Erase then
      var p := Position(live, op.target);
      if p.None? then Err(InvalidRecord) else Ok(Without(live, p))
    else
      var record :- NewRecord(c, live, used, op);
      Ok(Placed(live, Position(live, op.target), record))
  }

  function UsedBy(op: Operation, used: set<int>): set<int> {
    if op.kind == Erase then used else used + {op.occurrence}
  }

  // All operations, on a list of live records without tombstones, tables or
  // running totals.
  function Steps(c: Source, live: seq<Record>, changed: set<int>, used: set<int>, ops: seq<Operation>): Result<seq<Record>>
    decreases |ops|
  {
    if ops == [] then Ok(live)
    else
      var next :- Step(c, live, changed, used, ops[0]);
      Steps(c, next, changed + {ops[0].target}, UsedBy(ops[0], used), ops[1..])
  }

  // ---------------------------------------------------------------- the map update

  ghost predicate IdsDistinct(live: seq<Record>) {
    && (forall k :: 0 <= k < |live| ==> live[k].Id() != 0)
    && (forall j, k :: 0 <= j < k < |live| ==> live[j].Id() != live[k].Id())
  }

  function Lookup(live: seq<Record>, id: nat): Option<Record> {
    var p := Position(live, id);
    if p.None? then None else Some(live[p.value])
  }

  function OperationOn(ops: seq<Operation>, id: nat): Option<Operation> {
    if ops == [] then None
    else if ops[0].target == id then Some(ops[0])
    else OperationOn(ops[1..], id)
  }

  // The source node under the operation's target; depends on nothing else.
  function RecordFor(c: Source, op: Operation): Option<Record> {
    if op.kind == Erase || op.occurrence >= |c.delta.report.deltaNodes| then None
    else
      var n := c.delta.report.deltaNodes[op.occurrence];
      match SourceDefinition(c.delta, n)
      case Err(_) => None
      case Ok(t) =>
        match Converted(c, n, t, op.target)
        case Err(_) => None
        case Ok(record) => Some(record)
  }

  lemma PositionIs(live: seq<Record>, p: nat)
    requires IdsDistinct(live) && p < |live|
    ensures Position(live, live[p].Id()) == Some(p)
  {
  }

  lemma StepLooksUp(c: Source, live: seq<Record>, changed: set<int>, used: set<int>, op: Operation, id: nat)
    requires IdsDistinct(live) && Step(c, live, changed, used, op).Ok?
    ensures var next := Step(c, live, changed, used, op).value;
      && IdsDistinct(next)
      && Lookup(next, id) == (if id == op.target then RecordFor(c, op) else Lookup(live, id))
      && (op.kind != Erase ==> RecordFor(c, op).Some?)
  {
    hide SourceDefinition, SourceValues, Converted, RecordFields, RecordValues;
    var next := Step(c, live, changed, used, op).value;
    var p := Position(live, op.target);
    if op.kind == Erase {
      Removed(live, p.value, id);
    } else {
      var record := RecordFor(c, op).value;
      assert next == Placed(live, p, record);
      PlacedLookup(live, p, record, id);
    }
  }

  lemma Removed(live: seq<Record>, p: nat, id: nat)
    requires IdsDistinct(live) && p < |live|
    ensures var next := Without(live, Some(p));
      IdsDistinct(next) && Lookup(next, id) == if id == live[p].Id() then None else Lookup(live, id)
  {
    hide Position;
    var next := Without(live, Some(p));
    assert forall k :: 0 <= k < p ==> next[k] == live[k];
    assert forall k :: p <= k < |next| ==> next[k] == live[k + 1];
    var q, r := Position(live, id), Position(next, id);
    if q.Some? && q.value != p {
      PositionIs(next, if q.value < p then q.value else q.value - 1);
    }
    if r.Some? {
      PositionIs(live, if r.value < p then r.value else r.value + 1);
    }
  }

  lemma PlacedLookup(live: seq<Record>, p: Option<nat>, record: Record, id: nat)
    requires IdsDistinct(live) && p == Position(live, record.Id()) && record.Id() != 0
    ensures var next := Placed(live, p, record);
      IdsDistinct(next) && Lookup(next, id) == if id == record.Id() then Some(record) else Lookup(live, id)
  {
    var next := Placed(live, p, record);
    var q, r := Position(live, id), Position(next, id);
    if p.Some? {
      PositionIs(next, p.value);
    } else {
      assert forall k :: 0 <= k < |live| ==> next[k] == live[k];
      PositionIs(next, |live|);
    }
    if q.Some? && id != record.Id() {
      PositionIs(next, q.value);
    }
    if r.Some? && id != record.Id() {
      PositionIs(live, r.value);
    }
  }

  lemma {:induction false} NotTwice(c: Source, live: seq<Record>, changed: set<int>, used: set<int>, ops: seq<Operation>,
                                    id: nat)
    requires Steps(c, live, changed, used, ops).Ok? && id in changed
    ensures OperationOn(ops, id) == None
    decreases |ops|
  {
    hide Step;
    if ops != [] {
      assert ops[0].target != id by {
        StepFresh(c, live, changed, used, ops[0]);
      }
      NotTwice(c, Step(c, live, changed, used, ops[0]).value, changed + {ops[0].target}, UsedBy(ops[0], used), ops[1..], id);
    }
  }

  lemma StepFresh(c: Source, live: seq<Record>, changed: set<int>, used: set<int>, op: Operation)
    requires Step(c, live, changed, used, op).Ok?
    ensures op.target !in changed && op.target != 0
  {
  }

  // The result is the base map with the plan's operations applied.
  lemma {:induction false} StepsUpdateMap(c: Source, live: seq<Record>, changed: set<int>, used: set<int>,
                                          ops: seq<Operation>, id: nat)
    requires IdsDistinct(live) && Steps(c, live, changed, used, ops).Ok?
    ensures var after := Steps(c, live, changed, used, ops).value;
      && IdsDistinct(after)
      && Lookup(after, id) == match OperationOn(ops, id)
           case None => Lookup(live, id)
           case Some(op) => RecordFor(c, op)
    decreases |ops|
  {
    hide Step, Lookup, RecordFor, IdsDistinct;
    if ops != [] {
      var next := Step(c, live, changed, used, ops[0]).value;
      var more := changed + {ops[0].target};
      StepLooksUp(c, live, changed, used, ops[0], id);
      StepsUpdateMap(c, next, more, UsedBy(ops[0], used), ops[1..], id);
      if ops[0].target == id {
        NotTwice(c, next, more, UsedBy(ops[0], used), ops[1..], id);
      }
    }
  }

  // ---------------------------------------------------------------- order

  function Ids(live: seq<Record>): seq<nat> {
    seq(|live|, k requires 0 <= k < |live| => live[k].Id())
  }

  function Kept(ids: seq<nat>, ops: seq<Operation>): seq<nat> {
    if ids == [] then [] else KeptId(ids[0], ops) + Kept(ids[1..], ops)
  }

  function KeptId(id: nat, ops: seq<Operation>): seq<nat> {
    var op := OperationOn(ops, id);
    if op.Some? && op.value.kind == Erase then [] else [id]
  }

  function Created(ops: seq<Operation>): seq<nat> {
    if ops == [] then []
    else (if ops[0].kind == Create then [ops[0].target] else []) + Created(ops[1..])
  }

  lemma {:induction false} KeptConcat(a: seq<nat>, b: seq<nat>, ops: seq<Operation>)
    ensures Kept(a + b, ops) == Kept(a, ops) + Kept(b, ops)
  {
    hide KeptId;
    if a == [] {
      assert a + b == b;
    } else {
      KeptConcat(a[1..], b, ops);
      assert (a + b)[1..] == a[1..] + b && (a + b)[0] == a[0];
      var first := KeptId(a[0], ops);
      assert first + (Kept(a[1..], ops) + Kept(b, ops)) == (first + Kept(a[1..], ops)) + Kept(b, ops);
    }
  }

  lemma {:induction false} KeptUnaffected(ids: seq<nat>, ops: seq<Operation>)
    requires ops != []
    requires forall k :: 0 <= k < |ids| && ids[k] == ops[0].target ==>
      ops[0].kind != Erase && OperationOn(ops[1..], ids[k]) == None
    ensures Kept(ids, ops) == Kept(ids, ops[1..])
  {
    if ids != [] {
      KeptUnaffected(ids[1..], ops);
    }
  }

  lemma EraseOrder(a: seq<nat>, b: seq<nat>, ops: seq<Operation>)
    requires ops != [] && ops[0].kind == Erase && OperationOn(ops[1..], ops[0].target) == None
    requires ops[0].target !in a && ops[0].target !in b
    ensures Kept(a + b, ops[1..]) == Kept(a + ([ops[0].target] + b), ops)
  {
    hide Kept, KeptId, OperationOn;
    var t := ops[0].target;
    KeptConcat(a, [t] + b, ops);
    KeptConcat([t], b, ops);
    KeptConcat(a, b, ops[1..]);
    KeptUnaffected(a, ops);
    KeptUnaffected(b, ops);
    KeptOne(t, ops);
    ErasedId(ops);
    assert [] + Kept(b, ops) == Kept(b, ops);
  }

  lemma KeptOne(id: nat, ops: seq<Operation>)
    ensures Kept([id], ops) == KeptId(id, ops)
  {
    assert [id][1..] == [] && Kept([], ops) == [];
  }

  lemma ErasedId(ops: seq<Operation>)
    requires ops != [] && ops[0].kind == Erase
    ensures KeptId(ops[0].target, ops) == []
  {
  }

  lemma PlaceOrder(ids: seq<nat>, ops: seq<Operation>)
    requires ops != [] && ops[0].kind != Erase && OperationOn(ops[1..], ops[0].target) == None
    ensures Kept(ids, ops[1..]) == Kept(ids, ops)
    ensures Kept(ids + [ops[0].target], ops[1..]) == Kept(ids, ops) + [ops[0].target]
  {
    hide Kept;
    var t := ops[0].target;
    KeptConcat(ids, [t], ops[1..]);
    KeptUnaffected(ids, ops);
    KeptOne(t, ops[1..]);
  }

  lemma IdsWithout(live: seq<Record>, p: nat)
    requires IdsDistinct(live) && p < |live|
    ensures var a, b := Ids(live[..p]), Ids(live[p + 1..]);
      && Ids(live) == a + ([live[p].Id()] + b) && Ids(Without(live, Some(p))) == a + b
      && live[p].Id() !in a && live[p].Id() !in b
  {
  }

  lemma IdsPlaced(live: seq<Record>, p: Option<nat>, record: Record)
    requires p.Some? ==> p.value < |live| && live[p.value].Id() == record.Id()
    ensures Ids(Placed(live, p, record)) == if p.Some? then Ids(live) else Ids(live) + [record.Id()]
  {
  }

  lemma {:induction false} StepOrder(c: Source, live: seq<Record>, changed: set<int>, used: set<int>, ops: seq<Operation>)
    requires IdsDistinct(live) && ops != [] && Step(c, live, changed, used, ops[0]).Ok?
    requires OperationOn(ops[1..], ops[0].target) == None
    ensures var next := Step(c, live, changed, used, ops[0]).value;
      Kept(Ids(next), ops[1..]) == Kept(Ids(live), ops) + (if ops[0].kind == Create then [ops[0].target] else [])
  {
    hide NewRecord, Kept, OperationOn, Ids, Without, Placed, Position, IdsDistinct;
    var op := ops[0];
    var p := Position(live, op.target);
    NewRecordFacts(c, live, used, op);
    if op.kind == Erase {
      IdsWithout(live, p.value);
      EraseOrder(Ids(live[..p.value]), Ids(live[p.value + 1..]), ops);
    } else {
      PlaceOrder(Ids(live), ops);
      IdsPlaced(live, p, NewRecord(c, live, used, op).value);
    }
  }

  lemma NewRecordFacts(c: Source, live: seq<Record>, used: set<int>, op: Operation)
    ensures var r := NewRecord(c, live, used, op);
      r.Ok? ==>
        && r.value.Id() == op.target && (op.kind == Create <==> Position(live, op.target).None?)
        && (op.kind == Create || op.kind == Replace)
  {
    hide SourceDefinition, SourceValues, RecordFields, RecordValues, ConvertFields;
  }

  // Survivors keep the base order; creations follow in plan order.
  lemma {:induction false} StepsKeepOrder(c: Source, live: seq<Record>, changed: set<int>, used: set<int>,
                                          ops: seq<Operation>)
    requires IdsDistinct(live) && Steps(c, live, changed, used, ops).Ok?
    ensures Ids(Steps(c, live, changed, used, ops).value) == Kept(Ids(live), ops) + Created(ops)
    decreases |ops|
  {
    hide Step, IdsDistinct, Lookup, RecordFor, Ids, Kept, OperationOn, UsedBy;
    if ops == [] {
      KeptAll(Ids(live));
      assert Kept(Ids(live), []) + [] == Ids(live);
    } else {
      var next := Step(c, live, changed, used, ops[0]).value;
      var more := changed + {ops[0].target};
      StepLooksUp(c, live, changed, used, ops[0], 0);
      NotTwice(c, next, more, UsedBy(ops[0], used), ops[1..], ops[0].target);
      StepOrder(c, live, changed, used, ops);
      StepsKeepOrder(c, next, more, UsedBy(ops[0], used), ops[1..]);
      var first := if ops[0].kind == Create then [ops[0].target] else [];
      assert Kept(Ids(live), ops) + first + Created(ops[1..]) == Kept(Ids(live), ops) + (first + Created(ops[1..]));
    }
  }

  lemma {:induction false} KeptAll(ids: seq<nat>)
    ensures Kept(ids, []) == ids
  {
    if ids != [] {
      KeptAll(ids[1..]);
    }
  }

  // ---------------------------------------------------------------- budgets

  predicate WithinState(o: ModelOptions, live: seq<Record>) {
    |live| <= o.maxNodes && RecordFields(live) <= o.maxFields && RecordValues(live) <= o.maxValues
  }

  lemma WithoutTotals(live: seq<Record>, p: nat)
    requires p < |live|
    ensures RecordFields(Without(live, Some(p))) + |live[p].node.body.fields| == RecordFields(live)
    ensures RecordValues(Without(live, Some(p))) + ValueTotal(live[p].node.body.fields) == RecordValues(live)
  {
    hide ValueTotal, RecordFields, RecordValues;
    var a, x, b := live[..p], live[p], live[p + 1..];
    assert live == a + ([x] + b);
    TotalsAdd(a, [x] + b);
    TotalsAdd([x], b);
    TotalsAdd(a, b);
    OneTotal(x);
  }

  lemma OneTotal(x: Record)
    ensures RecordFields([x]) == |x.node.body.fields| && RecordValues([x]) == ValueTotal(x.node.body.fields)
  {
    hide ValueTotal;
    assert RecordFields([x][..0]) == 0 && RecordValues([x][..0]) == 0;
  }

  lemma PlacedTotals(live: seq<Record>, p: Option<nat>, record: Record)
    requires p.Some? ==> p.value < |live|
    ensures RecordFields(Placed(live, p, record)) == RecordFields(Without(live, p)) + |record.node.body.fields|
    ensures RecordValues(Placed(live, p, record)) == RecordValues(Without(live, p)) + ValueTotal(record.node.body.fields)
  {
    hide ValueTotal;
    OneTotal(record);
    if p.Some? {
      var a, b := live[..p.value], live[p.value + 1..];
      assert Placed(live, p, record) == a + ([record] + b);
      TotalsAdd(a, [record] + b);
      TotalsAdd([record], b);
      TotalsAdd(a, b);
    } else {
      TotalsAdd(live, [record]);
    }
  }

  lemma NewRecordTotals(c: Source, live: seq<Record>, used: set<int>, op: Operation)
    requires NewRecord(c, live, used, op).Ok?
    ensures var record, p := NewRecord(c, live, used, op).value, Position(live, op.target);
      && RecordFields(Without(live, p)) + |record.node.body.fields| <= c.options.maxFields
      && RecordValues(Without(live, p)) + ValueTotal(record.node.body.fields) <= c.options.maxValues
      && (p.None? ==> |live| < c.options.maxNodes)
  {
    hide RecordFields, RecordValues, ValueTotal, ConvertFields, SourceValues;
    var n := c.delta.report.deltaNodes[op.occurrence];
    var t := SourceDefinition(c.delta, n).value;
    SourceTotal(n, n.body.fields, c.options.maxValues);
    ConvertedValues(n.body.fields, t.fields, c.mappings);
  }

  // No operation leaves the budgets.
  lemma {:induction false} StepsWithin(c: Source, live: seq<Record>, changed: set<int>, used: set<int>, ops: seq<Operation>)
    requires WithinState(c.options, live) && Steps(c, live, changed, used, ops).Ok?
    ensures WithinState(c.options, Steps(c, live, changed, used, ops).value)
    decreases |ops|
  {
    hide NewRecord, RecordFields, RecordValues;
    if ops != [] {
      var next := Step(c, live, changed, used, ops[0]).value;
      var p := Position(live, ops[0].target);
      if ops[0].kind == Erase {
        WithoutTotals(live, p.value);
      } else {
        var record := NewRecord(c, live, used, ops[0]).value;
        NewRecordTotals(c, live, used, ops[0]);
        PlacedTotals(live, p, record);
      }
      StepsWithin(c, next, changed + {ops[0].target}, UsedBy(ops[0], used), ops[1..]);
    }
  }
}
