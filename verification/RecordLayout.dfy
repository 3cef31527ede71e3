// The virtual byte layout given to the records of a state.
module RecordLayout {
  import opened Results
  import opened SchemaDefinitions
  import opened SchemaNodes
  import opened SchemaReport
  import opened ModelChecks
  import opened DeltaState

  const UINT64_MAX := 0xffff_ffff_ffff_ffff

  function FieldSpan(f: DecodedField): nat {
    1 + 8 * |f.values|
  }

  function FieldSpans(fields: seq<DecodedField>): nat {
    if fields == [] then 0 else FieldSpans(fields[..|fields| - 1]) + FieldSpan(fields[|fields| - 1])
  }

  function Span(record: Record): nat {
    4 + FieldSpans(record.node.body.fields)
  }

  function Spans(records: seq<Record>): nat {
    if records == [] then 0 else Spans(records[..|records| - 1]) + Span(records[|records| - 1])
  }

  function LaidFields(fields: seq<DecodedField>, start: nat): (laid: seq<DecodedField>)
    ensures |laid| == |fields|
  {
    if fields == [] then []
    else
      var before, f := fields[..|fields| - 1], fields[|fields| - 1];
      LaidFields(before, start) + [f.(offset := start + FieldSpans(before), size := FieldSpan(f))]
  }

  function LaidNode(record: Record, start: nat, schemaIndex: nat): DecodedNode {
    record.node.(offset := start, size := Span(record), schemaIndex := schemaIndex,
                 body := record.node.body.(fields := LaidFields(record.node.body.fields, start + 4)))
  }

  function LaidNodes(records: seq<Record>): (nodes: seq<DecodedNode>)
    ensures |nodes| == |records|
  {
    if records == [] then []
    else
      var before := records[..|records| - 1];
      LaidNodes(before) + [LaidNode(records[|records| - 1], Spans(before), |before|)]
  }

  function LaidSchemas(records: seq<Record>): (schemas: seq<ResolvedSchema>)
    ensures |schemas| == |records|
  {
    seq(|records|, k requires 0 <= k < |records| => ResolvedSchema(records[k].definition, Full, 0, 0, []))
  }

  function Emitted(base: Snapshot, records: seq<Record>): Snapshot {
    var end := Spans(records);
    Snapshot(base.kind, 0, end + 4,
             Report(true, end, Some(end), 4, end + 4, 0, None, [], LaidSchemas(records), LaidNodes(records), [], None))
  }

  // Nothing overflows while the addresses are handed out.
  predicate AddressesFit(records: seq<Record>) {
    && (forall k :: 0 <= k < |records| ==> Spans(records[..k]) <= UINT64_MAX - 8)
    && Spans(records) <= UINT64_MAX - 4
  }

  lemma {:induction false} SpansGrow(records: seq<Record>, k: nat)
    requires k <= |records|
    ensures Spans(records[..k]) <= Spans(records)
    ensures k < |records| ==> Spans(records[..k + 1]) == Spans(records[..k]) + Span(records[k]) <= Spans(records)
  {
    hide Span;
    if k == |records| {
      assert records[..k] == records;
    } else {
      var shorter := records[..|records| - 1];
      SpansGrow(shorter, k);
      assert shorter[..k] == records[..k];
      assert records[..k + 1][..k] == records[..k];
      if k + 1 < |records| {
        assert shorter[..k + 1] == records[..k + 1];
      } else {
        assert records[..k + 1] == records;
      }
    }
  }

  lemma {:induction false} FieldSpansGrow(fields: seq<DecodedField>, k: nat)
    requires k < |fields|
    ensures FieldSpans(fields[..k + 1]) == FieldSpans(fields[..k]) + FieldSpan(fields[k]) <= FieldSpans(fields)
  {
    var shorter := fields[..|fields| - 1];
    assert fields[..k + 1][..k] == fields[..k];
    if k + 1 < |fields| {
      FieldSpansGrow(shorter, k);
      assert shorter[..k] == fields[..k] && shorter[..k + 1] == fields[..k + 1];
    } else {
      assert fields[..k + 1] == fields;
    }
  }

  lemma {:induction false} LaidFieldAt(fields: seq<DecodedField>, start: nat, k: nat)
    requires k < |fields|
    ensures LaidFields(fields, start)[k]
         == fields[k].(offset := start + FieldSpans(fields[..k]), size := FieldSpan(fields[k]))
  {
    hide FieldSpan, FieldSpans;
    if k < |fields| - 1 {
      var shorter := fields[..|fields| - 1];
      LaidFieldAt(shorter, start, k);
      assert shorter[..k] == fields[..k];
    }
  }

  lemma {:induction false} LaidNodeAt(records: seq<Record>, k: nat)
    requires k < |records|
    ensures LaidNodes(records)[k] == LaidNode(records[k], Spans(records[..k]), k)
  {
    hide LaidNode, Spans;
    if k < |records| - 1 {
      var shorter := records[..|records| - 1];
      LaidNodeAt(shorter, k);
      assert shorter[..k] == records[..k];
    }
  }

  // The emitted nodes tile [0, decodedEnd), their fields stay inside them, and
  // every byte-range check of the validation passes.
  lemma EmittedRanges(base: Snapshot, records: seq<Record>)
    ensures var s := Emitted(base, records);
      var nodes := s.report.nodes;
      && Complete(s)
      && (forall k :: 0 <= k < |nodes| ==> NodeInRange(s, nodes[k]))
      && (forall k, i :: 0 <= k < |nodes| && 0 <= i < |nodes[k].body.fields| ==>
            FieldInRange(nodes[k], nodes[k].body.fields[i]))
      && (nodes == [] ==> s.report.decodedEnd == 0)
      && (nodes != [] ==>
            nodes[0].offset == 0 && nodes[|nodes| - 1].offset + nodes[|nodes| - 1].size == s.report.decodedEnd)
      && (forall k :: 0 <= k < |nodes| - 1 ==> nodes[k].offset + nodes[k].size == nodes[k + 1].offset)
  {
    hide FieldSpan, FieldSpans, LaidFields, Spans;
    var s := Emitted(base, records);
    var nodes := s.report.nodes;
    NoSpans(records);
    forall k: nat | k < |nodes|
      ensures NodeInRange(s, nodes[k]) && nodes[k].offset == Spans(records[..k]) && nodes[k].size == Span(records[k])
      ensures nodes[k].offset + nodes[k].size == Spans(records[..k + 1])
      ensures forall i :: 0 <= i < |nodes[k].body.fields| ==> FieldInRange(nodes[k], nodes[k].body.fields[i])
    {
      LaidNodeAt(records, k);
      SpansGrow(records, k);
      var fields := records[k].node.body.fields;
      forall i: nat | i < |fields|
        ensures FieldInRange(nodes[k], nodes[k].body.fields[i])
      {
        LaidFieldAt(fields, nodes[k].offset + 4, i);
        FieldSpansGrow(fields, i);
      }
    }
    assert records[..|records|] == records;
  }

  lemma NoSpans(records: seq<Record>)
    ensures Spans(records[..0]) == 0 && Spans([]) == 0
  {
  }

  // Fields one after the other from `start` on: a byte and eight for each value.
  predicate FieldsTile(fields: seq<DecodedField>, start: nat, end: nat) {
    && (forall i :: 0 <= i < |fields| ==> fields[i].size == 1 + 8 * |fields[i].values|)
    && (forall i :: 0 <= i < |fields| ==>
          fields[i].offset == if i == 0 then start else fields[i - 1].offset + fields[i - 1].size)
    && end == if fields == [] then start else fields[|fields| - 1].offset + fields[|fields| - 1].size
  }

  // The places of a whole snapshot: nodes from zero on, four bytes each before
  // its fields, four bytes of terminator at the end.
  ghost predicate Tiled(s: Snapshot) {
    var nodes := s.report.nodes;
    && (forall k :: 0 <= k < |nodes| ==>
          && FieldsTile(nodes[k].body.fields, nodes[k].offset + 4, nodes[k].offset + nodes[k].size)
          && nodes[k].offset == if k == 0 then 0 else nodes[k - 1].offset + nodes[k - 1].size)
    && s.report.decodedEnd
       == (if nodes == [] then 0 else nodes[|nodes| - 1].offset + nodes[|nodes| - 1].size)
    && s.report.terminatorOffset == Some(s.report.decodedEnd) && s.report.terminatorSize == 4
    && s.byteSize == s.report.decodedEnd + 4 && s.bodyOffset == 0
  }

  lemma LaidTile(fields: seq<DecodedField>, start: nat)
    ensures FieldsTile(LaidFields(fields, start), start, start + FieldSpans(fields))
  {
    hide FieldSpans;
    var laid := LaidFields(fields, start);
    NoFields(fields);
    forall i: nat | i < |fields|
      ensures laid[i].size == 1 + 8 * |laid[i].values|
      ensures laid[i].offset == start + FieldSpans(fields[..i])
      ensures laid[i].offset + laid[i].size == start + FieldSpans(fields[..i + 1])
    {
      LaidFieldAt(fields, start, i);
      FieldSpansGrow(fields, i);
    }
    assert fields[..|fields|] == fields;
  }

  lemma NoFields(fields: seq<DecodedField>)
    ensures FieldSpans(fields[..0]) == 0 && FieldSpans([]) == 0
  {
  }

  lemma EmittedTiled(base: Snapshot, records: seq<Record>)
    ensures Tiled(Emitted(base, records))
  {
    hide FieldSpan, FieldSpans, LaidFields, Spans, FieldsTile;
    var s := Emitted(base, records);
    EmittedRanges(base, records);
    forall k: nat | k < |records|
      ensures FieldsTile(s.report.nodes[k].body.fields, s.report.nodes[k].offset + 4,
                         s.report.nodes[k].offset + s.report.nodes[k].size)
    {
      LaidNodeAt(records, k);
      LaidTile(records[k].node.body.fields, s.report.nodes[k].offset + 4);
    }
  }

  // ---------------------------------------------------------------- content

  function Placeless(fields: seq<DecodedField>): (r: seq<DecodedField>)
    ensures |r| == |fields|
  {
    seq(|fields|, i requires 0 <= i < |fields| => fields[i].(offset := 0, size := 0))
  }

  // A record without the places of its node and fields.
  function Content(r: Record): Record {
    r.(node := r.node.(offset := 0, size := 0, schemaIndex := 0,
                       body := r.node.body.(fields := Placeless(r.node.body.fields))))
  }

  // Emitting changes nothing but the layout.
  lemma EmittedKeeps(base: Snapshot, records: seq<Record>, k: nat)
    requires k < |records|
    ensures var r := Emitted(base, records).report;
      && r.nodes[k].schemaIndex == k
      && Content(Record(r.schemas[k].definition, r.nodes[k])) == Content(records[k])
  {
    hide LaidFields, Spans, FieldSpans;
    LaidNodeAt(records, k);
    var fields := records[k].node.body.fields;
    var laid := LaidFields(fields, Spans(records[..k]) + 4);
    forall i: nat | i < |fields|
      ensures Placeless(laid)[i] == Placeless(fields)[i]
    {
      LaidFieldAt(fields, Spans(records[..k]) + 4, i);
    }
    assert Placeless(laid) == Placeless(fields);
  }
}
