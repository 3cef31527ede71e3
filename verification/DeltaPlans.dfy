// Which plans can be planned, operation by operation on the base records.
module DeltaPlans {
  import opened Results
  import opened SchemaDefinitions
  import opened SchemaNodes
  import opened SchemaReport
  import opened ModelChecks
  import opened DeltaState
  import opened DeltaApply
  import opened AppliedNodes

  // A framed node under its own definition, in range, whose pointers resolve.
  ghost predicate SourceFits(delta: Snapshot, n: DecodedNode, references: seq<ReferenceMapping>) {
    && n.framed && n.body.index != 0 && n.schemaIndex < |delta.report.schemas| && NodeInRange(delta, n)
    && var t := delta.report.schemas[n.schemaIndex].definition;
       && n.nodeType == t.nodeType && |n.body.fields| == |t.fields|
       && forall i :: 0 <= i < |t.fields| ==>
            FieldInRange(n, n.body.fields[i]) && FieldConverts(t.fields[i].fieldType, n.body.fields[i], references)
  }

  predicate IsId(live: seq<Record>, k: nat, id: nat)
    requires k < |live|
  {
    live[k].Id() == id
  }

  ghost predicate Holds(live: seq<Record>, id: nat) {
    exists k: nat :: k < |live| && IsId(live, k, id)
  }

  predicate TypeKept(live: seq<Record>, id: nat, nodeType: nat) {
    forall k: nat :: k < |live| && IsId(live, k, id) ==> live[k].node.nodeType == nodeType
  }

  // A new index for a creation, a known one otherwise; an unused source that
  // fits and, for a replacement, has the type of the node it replaces.
  ghost predicate OperationFits(delta: Snapshot, references: seq<ReferenceMapping>, live: seq<Record>, changed: set<int>,
                                used: set<int>, op: Operation) {
    && op.target != 0 && op.target !in changed && (op.kind == Create <==> !Holds(live, op.target))
    && (op.kind != Erase ==>
          && (op.kind == Create || op.kind == Replace)
          && op.occurrence < |delta.report.deltaNodes| && op.occurrence !in used
          && SourceFits(delta, delta.report.deltaNodes[op.occurrence], references)
          && (op.kind == Replace ==> TypeKept(live, op.target, delta.report.deltaNodes[op.occurrence].nodeType)))
  }

  // No index changed twice and no source used twice.
  predicate Apart(a: Operation, b: Operation) {
    a.target != b.target && (a.kind != Erase && b.kind != Erase ==> a.occurrence != b.occurrence)
  }

  ghost predicate PlanFits(delta: Snapshot, references: seq<ReferenceMapping>, live: seq<Record>, changed: set<int>,
                           used: set<int>, ops: seq<Operation>) {
    && (forall i :: 0 <= i < |ops| ==> OperationFits(delta, references, live, changed, used, ops[i]))
    && (forall i, j :: 0 <= i < j < |ops| ==> Apart(ops[i], ops[j]))
  }

  // ---------------------------------------------------------------- sources

  lemma {:induction false} ValuesInRange(n: DecodedNode, fields: seq<DecodedField>, maxValues: nat)
    ensures SourceValues(n, fields, maxValues).Ok? ==> forall i :: 0 <= i < |fields| ==> FieldInRange(n, fields[i])
    ensures (forall i :: 0 <= i < |fields| ==> FieldInRange(n, fields[i])) && ValueTotal(fields) <= maxValues ==>
      SourceValues(n, fields, maxValues) == Ok(ValueTotal(fields))
  {
    hide FieldInRange;
    if fields != [] {
      var before := fields[..|fields| - 1];
      ValuesInRange(n, before, maxValues);
      assert forall i :: 0 <= i < |before| ==> before[i] == fields[i];
    }
  }

  lemma SourceMeans(c: Source, n: DecodedNode, references: seq<ReferenceMapping>, target: nat)
    requires MappingsValid(references) && c.mappings == MappingTable(references)
    ensures var t := SourceDefinition(c.delta, n);
      && (t.Ok? ==> |n.body.fields| == |t.value.fields|)
      && (t.Ok? && Converted(c, n, t.value, target).Ok? && SourceValues(n, n.body.fields, c.options.maxValues).Ok? ==>
            SourceFits(c.delta, n, references))
      && (SourceFits(c.delta, n, references) ==>
            && t.Ok? && Converted(c, n, t.value, target).Ok?
            && forall i :: 0 <= i < |n.body.fields| ==> FieldInRange(n, n.body.fields[i]))
  {
    hide NodeInRange, FieldInRange, FieldConverts, MappingsValid, MappingTable, ConvertFields, SourceValues, FieldMoved;
    ValuesInRange(n, n.body.fields, c.options.maxValues);
    if n.schemaIndex < |c.delta.report.schemas| {
      var t := c.delta.report.schemas[n.schemaIndex].definition;
      if |n.body.fields| == |t.fields| {
        FieldsMean(n.body.fields, t.fields, references);
      }
    }
  }

  // ---------------------------------------------------------------- one step

  lemma HoldsPosition(live: seq<Record>, id: nat)
    ensures Position(live, id).Some? <==> Holds(live, id)
  {
    var p := Position(live, id);
    if p.Some? {
      assert IsId(live, p.value, id);
    }
  }

  lemma TypeOfPosition(live: seq<Record>, id: nat, nodeType: nat)
    requires IdsDistinct(live)
    ensures Position(live, id).Some? ==>
      (live[Position(live, id).value].node.nodeType == nodeType <==> TypeKept(live, id, nodeType))
  {
    var p := Position(live, id);
    if p.Some? {
      assert IsId(live, p.value, id);
    }
  }

  lemma StepFits(c: Source, references: seq<ReferenceMapping>, live: seq<Record>, changed: set<int>, used: set<int>,
                 op: Operation)
    requires MappingsValid(references) && c.mappings == MappingTable(references) && IdsDistinct(live)
    requires Step(c, live, changed, used, op).Ok?
    ensures OperationFits(c.delta, references, live, changed, used, op)
  {
    hide Position, Holds, TypeKept, SourceFits, SourceDefinition, SourceValues, Converted, RecordFields, RecordValues,
      IdsDistinct, MappingsValid, MappingTable;
    HoldsPosition(live, op.target);
    if op.kind != Erase {
      var n := c.delta.report.deltaNodes[op.occurrence];
      SourceMeans(c, n, references, op.target);
      TypeOfPosition(live, op.target, n.nodeType);
    }
  }

  // What is left to check after an operation does not depend on it.
  lemma StillFits(c: Source, references: seq<ReferenceMapping>, live: seq<Record>, changed: set<int>, used: set<int>,
                  op: Operation, other: Operation)
    requires IdsDistinct(live) && Step(c, live, changed, used, op).Ok?
    ensures OperationFits(c.delta, references, Step(c, live, changed, used, op).value, changed + {op.target},
                          UsedBy(op, used), other)
       <==> OperationFits(c.delta, references, live, changed, used, other) && Apart(op, other)
  {
    hide Position, Holds, TypeKept, SourceFits, Step, IdsDistinct;
    var next := Step(c, live, changed, used, op).value;
    if op.target != other.target {
      SameHoldings(c, live, changed, used, op, other.target);
      if other.occurrence < |c.delta.report.deltaNodes| {
        SameType(c, live, changed, used, op, other.target, c.delta.report.deltaNodes[other.occurrence].nodeType);
      }
    }
  }

  lemma SameHoldings(c: Source, live: seq<Record>, changed: set<int>, used: set<int>, op: Operation, id: nat)
    requires IdsDistinct(live) && Step(c, live, changed, used, op).Ok? && id != op.target
    ensures Holds(Step(c, live, changed, used, op).value, id) <==> Holds(live, id)
  {
    hide Step, Holds, IdsDistinct, Position;
    StepLooksUp(c, live, changed, used, op, id);
    HoldsPosition(live, id);
    HoldsPosition(Step(c, live, changed, used, op).value, id);
  }

  lemma SameType(c: Source, live: seq<Record>, changed: set<int>, used: set<int>, op: Operation, id: nat, nodeType: nat)
    requires IdsDistinct(live) && Step(c, live, changed, used, op).Ok? && id != op.target
    ensures TypeKept(Step(c, live, changed, used, op).value, id, nodeType) <==> TypeKept(live, id, nodeType)
  {
    var next := Step(c, live, changed, used, op).value;
    StepLooksUp(c, live, changed, used, op, id);
    TypeOfPosition(live, id, nodeType);
    TypeOfPosition(next, id, nodeType);
    hide Step, IdsDistinct, RecordFor;
    if Position(live, id).None? {
      assert Position(next, id).None?;
    }
  }

  // ---------------------------------------------------------------- all steps

  lemma {:induction false} StepsFit(c: Source, references: seq<ReferenceMapping>, live: seq<Record>, changed: set<int>,
                                    used: set<int>, ops: seq<Operation>)
    requires MappingsValid(references) && c.mappings == MappingTable(references) && IdsDistinct(live)
    requires Steps(c, live, changed, used, ops).Ok?
    ensures PlanFits(c.delta, references, live, changed, used, ops)
    decreases |ops|
  {
    hide Step, OperationFits, IdsDistinct, MappingsValid, MappingTable, Lookup, RecordFor;
    if ops != [] {
      var next := Step(c, live, changed, used, ops[0]).value;
      StepFits(c, references, live, changed, used, ops[0]);
      StepLooksUp(c, live, changed, used, ops[0], 0);
      StepsFit(c, references, next, changed + {ops[0].target}, UsedBy(ops[0], used), ops[1..]);
      forall i: nat | 1 <= i < |ops|
        ensures OperationFits(c.delta, references, live, changed, used, ops[i]) && Apart(ops[0], ops[i])
      {
        assert ops[1..][i - 1] == ops[i];
        StillFits(c, references, live, changed, used, ops[0], ops[i]);
      }
      forall i, j | 0 <= i < j < |ops|
        ensures Apart(ops[i], ops[j])
      {
        if i > 0 {
          assert ops[1..][i - 1] == ops[i] && ops[1..][j - 1] == ops[j];
        }
      }
    }
  }

  // Fields and values that the operations put in place.
  function PlacedFields(delta: Snapshot, ops: seq<Operation>): nat {
    if ops == [] then 0
    else (if ops[0].kind != Erase && ops[0].occurrence < |delta.report.deltaNodes|
          then |delta.report.deltaNodes[ops[0].occurrence].body.fields| else 0) + PlacedFields(delta, ops[1..])
  }

  function PlacedValues(delta: Snapshot, ops: seq<Operation>): nat {
    if ops == [] then 0
    else (if ops[0].kind != Erase && ops[0].occurrence < |delta.report.deltaNodes|
          then ValueTotal(delta.report.deltaNodes[ops[0].occurrence].body.fields) else 0) + PlacedValues(delta, ops[1..])
  }

  // Room for everything at once.
  predicate Roomy(o: ModelOptions, delta: Snapshot, live: seq<Record>, ops: seq<Operation>) {
    && RecordFields(live) + PlacedFields(delta, ops) <= o.maxFields
    && RecordValues(live) + PlacedValues(delta, ops) <= o.maxValues
    && |live| + |ops| <= o.maxNodes
  }

  lemma ConvertedTotals(c: Source, n: DecodedNode, t: TypeDefinition, target: nat)
    requires |n.body.fields| == |t.fields| && Converted(c, n, t, target).Ok?
    ensures |Converted(c, n, t, target).value.node.body.fields| == |n.body.fields|
    ensures ValueTotal(Converted(c, n, t, target).value.node.body.fields) == ValueTotal(n.body.fields)
  {
    hide ConvertFields, ValueTotal;
    ConvertedValues(n.body.fields, t.fields, c.mappings);
  }

  lemma StepGoes(c: Source, references: seq<ReferenceMapping>, live: seq<Record>, changed: set<int>, used: set<int>,
                 op: Operation, fields: nat, values: nat)
    requires MappingsValid(references) && c.mappings == MappingTable(references) && IdsDistinct(live)
    requires OperationFits(c.delta, references, live, changed, used, op)
    requires fields == PlacedFields(c.delta, [op]) && values == PlacedValues(c.delta, [op])
    requires RecordFields(live) + fields <= c.options.maxFields && RecordValues(live) + values <= c.options.maxValues
    requires |live| < c.options.maxNodes
    ensures var next := Step(c, live, changed, used, op);
      && next.Ok? && |next.value| <= |live| + 1
      && RecordFields(next.value) <= RecordFields(live) + fields && RecordValues(next.value) <= RecordValues(live) + values
  {
    hide Position, Holds, TypeKept, SourceFits, SourceDefinition, SourceValues, Converted, RecordFields, RecordValues,
      IdsDistinct, MappingsValid, MappingTable, ValueTotal, FieldInRange;
    HoldsPosition(live, op.target);
    var p := Position(live, op.target);
    if p.Some? {
      WithoutTotals(live, p.value);
    }
    if op.kind != Erase {
      var n := c.delta.report.deltaNodes[op.occurrence];
      SourceMeans(c, n, references, op.target);
      TypeOfPosition(live, op.target, n.nodeType);
      ValuesInRange(n, n.body.fields, c.options.maxValues);
      var t := SourceDefinition(c.delta, n).value;
      ConvertedTotals(c, n, t, op.target);
      PlacedTotals(live, p, Converted(c, n, t, op.target).value);
    }
  }

  lemma {:induction false} StepsGo(c: Source, references: seq<ReferenceMapping>, live: seq<Record>, changed: set<int>,
                                   used: set<int>, ops: seq<Operation>)
    requires MappingsValid(references) && c.mappings == MappingTable(references) && IdsDistinct(live)
    requires PlanFits(c.delta, references, live, changed, used, ops) && Roomy(c.options, c.delta, live, ops)
    ensures Steps(c, live, changed, used, ops).Ok?
    decreases |ops|
  {
    hide Step, OperationFits, IdsDistinct, MappingsValid, MappingTable, Lookup, RecordFor, RecordFields, RecordValues,
      ValueTotal;
    if ops != [] {
      assert [ops[0]][1..] == [] && PlacedFields(c.delta, []) == 0 && PlacedValues(c.delta, []) == 0;
      StepGoes(c, references, live, changed, used, ops[0], PlacedFields(c.delta, [ops[0]]),
               PlacedValues(c.delta, [ops[0]]));
      var next := Step(c, live, changed, used, ops[0]).value;
      StepLooksUp(c, live, changed, used, ops[0], 0);
      forall i: nat | i < |ops[1..]|
        ensures OperationFits(c.delta, references, next, changed + {ops[0].target}, UsedBy(ops[0], used), ops[1..][i])
      {
        assert Apart(ops[0], ops[i + 1]);
        StillFits(c, references, live, changed, used, ops[0], ops[1..][i]);
      }
      StepsGo(c, references, next, changed + {ops[0].target}, UsedBy(ops[0], used), ops[1..]);
    }
  }

  // A plan with room is planned exactly when every operation fits the base.
  lemma PlannedIff(base: DeltaState, delta: Snapshot, plan: Plan, o: ModelOptions)
    requires SnapshotValid(base.snapshot, o) && UsesKnown(base.snapshot.report.nodes, |base.snapshot.report.schemas|)
    requires MappingsValid(plan.references)
    ensures var live := BaseRecords(base.snapshot.report.schemas, base.snapshot.report.nodes);
      && (Planned(base, delta, plan, o).Ok? ==> PlanFits(delta, plan.references, live, {}, {}, plan.operations))
      && (PlanFits(delta, plan.references, live, {}, {}, plan.operations) && Roomy(o, delta, live, plan.operations) ==>
            Planned(base, delta, plan, o).Ok?)
  {
    hide SnapshotValid, Steps, PlanFits, Roomy, MappingsValid, MappingTable, IdsDistinct;
    BaseDistinct(base.snapshot, o);
    var live := BaseRecords(base.snapshot.report.schemas, base.snapshot.report.nodes);
    var c := Source(delta, MappingTable(plan.references), o);
    if Steps(c, live, {}, {}, plan.operations).Ok? {
      StepsFit(c, plan.references, live, {}, {}, plan.operations);
    }
    if PlanFits(delta, plan.references, live, {}, {}, plan.operations) && Roomy(o, delta, live, plan.operations) {
      StepsGo(c, plan.references, live, {}, {}, plan.operations);
    }
  }
}
