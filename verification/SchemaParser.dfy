// The sequential parser: definitions at first use, nodes, delta packets and a
// terminator, under independent budgets.
module SchemaParser {
  import opened Results
  import opened BinaryReader
  import opened SchemaDefinitions
  import opened SchemaNodes
  import opened DeltaPackets
  import opened SchemaReport
  import opened SchemaState
  import opened SchemaSteps
  import opened SchemaPrefix
  import opened SchemaGrammar

  datatype Catalog = Catalog(schemaKey: Bytes, baseTypes: seq<TypeDefinition>, absentTypes: seq<nat>)

  // ---------------------------------------------------------------- the catalog

  function FieldTotal(types: seq<TypeDefinition>): nat {
    if types == [] then 0 else FieldTotal(types[..|types| - 1]) + |types[|types| - 1].fields|
  }

  lemma {:induction false} FieldTotalGrows(types: seq<TypeDefinition>, n: nat)
    requires n <= |types|
    ensures FieldTotal(types[..n]) <= FieldTotal(types)
  {
    if n == |types| {
      assert types[..n] == types;
    } else {
      var shorter := types[..|types| - 1];
      FieldTotalGrows(shorter, n);
      assert shorter[..n] == types[..n];
    }
  }

  predicate TypesDistinct(types: seq<TypeDefinition>) {
    forall i, j :: 0 <= i < j < |types| ==> types[i].nodeType != types[j].nodeType
  }

  ghost predicate CatalogValid(c: Catalog, limits: Limits) {
    && |c.baseTypes| + |c.absentTypes| <= limits.maxTypes && FieldTotal(c.baseTypes) <= limits.maxTotalFields
    && (forall i :: 0 <= i < |c.baseTypes| ==> Validated(c.baseTypes[i], limits.maxFieldsPerType).Ok?)
    && TypesDistinct(c.baseTypes)
    && (forall i :: 0 <= i < |c.absentTypes| ==> 2 <= c.absentTypes[i] <= 32767)
    && (forall i, j :: 0 <= i < j < |c.absentTypes| ==> c.absentTypes[i] != c.absentTypes[j])
    && (forall i, j :: 0 <= i < |c.absentTypes| && 0 <= j < |c.baseTypes| ==>
          c.absentTypes[i] != c.baseTypes[j].nodeType)
  }

  ghost predicate CatalogIs(c: Catalog, bases: map<nat, TypeDefinition>, absent: set<nat>) {
    && (forall t :: t in bases ==> bases[t] in c.baseTypes && bases[t].nodeType == t)
    && (forall i :: 0 <= i < |c.baseTypes| ==> c.baseTypes[i].nodeType in bases)
    && (forall t :: t in absent <==> t in c.absentTypes)
  }

  method IndexBases(c: Catalog, limits: Limits) returns (r: Result<map<nat, TypeDefinition>>)
    ensures r.Ok? <==>
      && FieldTotal(c.baseTypes) <= limits.maxTotalFields && TypesDistinct(c.baseTypes)
      && forall i :: 0 <= i < |c.baseTypes| ==> Validated(c.baseTypes[i], limits.maxFieldsPerType).Ok?
    ensures r.Ok? ==> CatalogIs(c.(absentTypes := []), r.value, {})
  {
    hide Validated, BasesIndexed, TypesDistinct, FieldTotal;
    var bases: map<nat, TypeDefinition> := map[];
    var fields := 0;
    NoBases(c.baseTypes);
    for i := 0 to |c.baseTypes|
      invariant fields == FieldTotal(c.baseTypes[..i]) <= limits.maxTotalFields
      invariant forall k :: 0 <= k < i ==> Validated(c.baseTypes[k], limits.maxFieldsPerType).Ok?
      invariant BasesIndexed(c.baseTypes[..i], bases)
    {
      var t := c.baseTypes[i];
      var checked :- Validate(t, limits.maxFieldsPerType);
      BaseStep(c.baseTypes, i, bases);
      if t.nodeType in bases {
        return Err(InvalidSchema);
      }
      bases := bases[t.nodeType := t];
      fields := fields + |t.fields|;
      if fields > limits.maxTotalFields {
        return Err(ResourceLimit);
      }
    }
    assert c.baseTypes[..|c.baseTypes|] == c.baseTypes;
    BasesFinal(c, bases);
    return Ok(bases);
  }

  ghost predicate BasesIndexed(types: seq<TypeDefinition>, bases: map<nat, TypeDefinition>) {
    && TypesDistinct(types)
    && (forall t :: t in bases ==> bases[t] in types && bases[t].nodeType == t)
    && (forall i :: 0 <= i < |types| ==> types[i].nodeType in bases)
  }

  lemma NoBases(types: seq<TypeDefinition>)
    ensures BasesIndexed(types[..0], map[]) && FieldTotal(types[..0]) == 0
  {
  }

  lemma BasesFinal(c: Catalog, bases: map<nat, TypeDefinition>)
    requires BasesIndexed(c.baseTypes, bases)
    ensures TypesDistinct(c.baseTypes) && CatalogIs(c.(absentTypes := []), bases, {})
  {
  }

  lemma BaseStep(types: seq<TypeDefinition>, i: nat, bases: map<nat, TypeDefinition>)
    requires i < |types| && BasesIndexed(types[..i], bases)
    ensures FieldTotal(types[..i + 1]) == FieldTotal(types[..i]) + |types[i].fields| <= FieldTotal(types)
    ensures types[i].nodeType in bases ==> !TypesDistinct(types)
    ensures types[i].nodeType !in bases ==> BasesIndexed(types[..i + 1], bases[types[i].nodeType := types[i]])
  {
    hide BasesIndexed, TypesDistinct;
    assert types[..i + 1][..i] == types[..i];
    FieldTotalGrows(types, i + 1);
    assert types[..i + 1] == types[..i] + [types[i]];
    if types[i].nodeType in bases {
      BaseRepeats(types, i, bases);
    } else {
      BaseGrows(types[..i], types[i], bases);
    }
  }

  lemma BaseRepeats(types: seq<TypeDefinition>, i: nat, bases: map<nat, TypeDefinition>)
    requires i < |types| && BasesIndexed(types[..i], bases) && types[i].nodeType in bases
    ensures !TypesDistinct(types)
  {
    var k :| 0 <= k < i && types[..i][k] == bases[types[i].nodeType];
    assert types[k].nodeType == types[i].nodeType;
  }

  lemma BaseGrows(types: seq<TypeDefinition>, t: TypeDefinition, bases: map<nat, TypeDefinition>)
    requires BasesIndexed(types, bases) && t.nodeType !in bases
    ensures BasesIndexed(types + [t], bases[t.nodeType := t])
  {
    var more := types + [t];
    assert forall i :: 0 <= i < |types| ==> more[i] == types[i];
    assert more[|types|] == t;
    assert forall x :: x in types ==> x in more;
  }

  method IndexAbsent(c: Catalog, bases: map<nat, TypeDefinition>) returns (r: Result<set<int>>)
    ensures r.Ok? <==>
      && (forall i :: 0 <= i < |c.absentTypes| ==> 2 <= c.absentTypes[i] <= 32767 && c.absentTypes[i] !in bases)
      && forall i, j :: 0 <= i < j < |c.absentTypes| ==> c.absentTypes[i] != c.absentTypes[j]
    ensures r.Ok? ==> forall t :: t in r.value <==> t in c.absentTypes
  {
    var absent: set<int> := {};
    for i := 0 to |c.absentTypes|
      invariant forall t :: t in absent <==> t in c.absentTypes[..i]
      invariant forall k :: 0 <= k < i ==> 2 <= c.absentTypes[k] <= 32767 && c.absentTypes[k] !in bases
      invariant forall j, k :: 0 <= j < k < i ==> c.absentTypes[j] != c.absentTypes[k]
    {
      var t := c.absentTypes[i];
      if t < 2 || t > 32767 || t in bases || t in absent {
        return Err(InvalidSchema);
      }
      assert c.absentTypes[..i + 1] == c.absentTypes[..i] + [t];
      absent := absent + {t};
    }
    assert c.absentTypes[..|c.absentTypes|] == c.absentTypes;
    return Ok(absent);
  }

  // ---------------------------------------------------------------- one node

  // The definition of a type at its first use.
  method Resolve(cursor: Cursor, c: Context, s: State, t: nat) returns (r: Result<ResolvedSchema>)
    requires Ready(cursor.data, c, s) && Room(cursor.data, c, s, t) && t !in s.resolved
    requires cursor.pos == s.decodedEnd + 2
    modifies cursor`pos
    ensures r == SchemaAt(cursor.data, c, s, t)
    ensures r.Ok? ==> cursor.pos == s.decodedEnd + 2 + |PrintDefinition(r.value)|
  {
    hide DefinitionAt, Ready, Room;
    if |s.resolved| >= c.limits.maxTypes {
      return Err(ResourceLimit);
    }
    var base := BaseOf(c, t);
    if base.None? && t !in c.absent {
      return Err(UnsupportedSchema);
    }
    var schema;
    if c.header.hasBaseSchema {
      schema :- Definition(cursor, t, base, c.limits.maxFieldsPerType);
    } else {
      if base.None? {
        return Err(UnsupportedSchema);
      }
      schema := ResolvedSchema(base.value, Base, cursor.pos, 0, []);
    }
    if s.fields + |schema.definition.fields| > c.limits.maxTotalFields {
      return Err(ResourceLimit);
    }
    return Ok(schema);
  }

  method UpdatePrefix(data: Bytes, c: Context, s: State, n: DecodedNode, defs: seq<FieldDefinition>)
    returns (r: Result<(Option<DeltaPartition>, Option<DeltaPrefix>)>)
    requires |n.body.fields| == |defs|
    requires AwaitsPrefix(c, s) ==> n.nodeType == AwaitedType(s)
    requires s.partition.Some? ==> s.partition.value.offset <= n.offset
    ensures r == Administration(data, c, s, n, defs)
  {
    hide DeltaLayout;
    var partition, prefix := s.partition, s.prefix;
    if AwaitsPrefix(c, s) {
      if s.partition.None? {
        var read :- ReadDeltaPartition(data, n, defs);
        partition := Some(read);
      } else {
        var read :- ReadDeltaPrefix(data, s.partition.value, n, defs);
        prefix := Some(read);
      }
    }
    return Ok((partition, prefix));
  }

  // One node, whose type was just read at the end of the records.
  method ParseNode(cursor: Cursor, c: Context, s: State, t: nat) returns (r: Result<bool>, after: State)
    requires Ready(cursor.data, c, s) && Room(cursor.data, c, s, t) && cursor.pos == s.decodedEnd + 2
    modifies cursor`pos
    ensures r.Ok? <==> NodeAt(cursor.data, c, s, t).result.Ok?
    ensures r.Err? ==> NodeAt(cursor.data, c, s, t).result == Err(r.error)
    ensures after == NodeAt(cursor.data, c, s, t).state
    ensures r.Ok? ==> cursor.pos == after.decodedEnd
  {
    hide Consistent, PrefixAt, PrintBody, PrintDefinition, Print, AddSchema, AddNode, BodyAt, Administration,
         SchemaAt, PrintNode;
    ghost var data := cursor.data;
    after := s;
    ResolvedReady(data, c, s);
    if t !in s.resolved {
      SchemaReady(data, c, s, t);
      var resolved := Resolve(cursor, c, s, t);
      if resolved.Err? {
        return Err(resolved.error), after;
      }
      after := AddSchema(s, t, resolved.value);
      SchemaKept(s, t, resolved.value);
    }
    KnownFacts(data, c, s, after, t);
    var framed := c.header.deltas && after.prefix.Some?;
    if framed && (t == PARTITION_TYPE || t == MARK_NODE_TYPE) {
      return Err(UnsupportedFormat), after;
    }
    var schemaIndex := after.resolved[t];
    var defs := after.schemas[schemaIndex].definition.fields;
    var body := ReadBody(cursor, defs, framed, after.indices, c.limits.maxTotalFields - after.decodedFields,
                         c.limits.maxValues - after.values);
    if body.Err? {
      return Err(body.error), after;
    }
    var n := DecodedNode(t, schemaIndex, s.decodedEnd, cursor.pos - s.decodedEnd, framed, body.value);
    var administration := UpdatePrefix(cursor.data, c, after, n, defs);
    if administration.Err? {
      return Err(administration.error), after;
    }
    NodeEnd(after, n);
    after := AddNode(after, n).(partition := administration.value.0, prefix := administration.value.1);
    return Ok(true), after;
  }

  lemma NodeEnd(s: State, n: DecodedNode)
    ensures AddNode(s, n).decodedEnd == n.offset + n.size
  {
  }

  // ---------------------------------------------------------------- one packet

  method ParsePacket(cursor: Cursor, c: Context, s: State) returns (r: Result<State>)
    requires Ready(cursor.data, c, s)
    modifies cursor`pos
    ensures r.Ok? <==> PacketIn(cursor.data, c, s).Ok?
    ensures r.Err? ==> PacketIn(cursor.data, c, s) == Err(r.error)
    ensures r.Ok? ==> r.value == AddPacket(s, PacketIn(cursor.data, c, s).value) && cursor.pos == r.value.decodedEnd
  {
    hide Ready, PacketAt;
    PacketReady(cursor.data, c, s);
    if s.prefix.None? {
      return Err(InvalidRecord);
    }
    if |s.packets| >= c.limits.maxDeltaPackets || s.deltaEntries >= c.limits.maxDeltaEntries {
      return Err(ResourceLimit);
    }
    var p :- ReadPacket(cursor.data, s.decodedEnd, MaximumType(c), c.limits.maxDeltaEntries - s.deltaEntries, true);
    cursor.pos := s.decodedEnd + p.size;
    return Ok(AddPacket(s, p));
  }

  // ---------------------------------------------------------------- the main loop

  // The main loop. Ok carries the size of the terminator.
  method Decode(cursor: Cursor, c: Context, start: State) returns (r: Result<nat>, s: State)
    requires Ready(cursor.data, c, start) && cursor.pos == start.decodedEnd
    requires forall b :: b in c.bases ==> c.bases[b].nodeType == b
    modifies cursor`pos
    ensures Decoded(r, s) == DecodedFrom(cursor.data, c, start)
    ensures r.Ok? ==> cursor.pos == |cursor.data|
  {
    hide Consistent, ReadAt, IndexAt, PrintIndex, PrefixAt, Print, AwaitsPrefix, NodeAt, PacketIn, AddPacket;
    s := start;
    if !c.header.internalComplete || c.header.userFieldWords != Some(0) {
      return Err(UnsupportedSchema), s;
    }
    while true
      invariant Ready(cursor.data, c, s) && cursor.pos == s.decodedEnd
      invariant Run(cursor.data, c, start) == Run(cursor.data, c, s)
      decreases |cursor.data| - cursor.pos
    {
      StepReady(cursor.data, c, s);
      var at := cursor.pos;
      var nodeType := cursor.Read(2);
      if nodeType.Err? {
        return Err(nodeType.error), s;
      }
      var t := nodeType.value;
      ReadIff(cursor.data, at, 2, t);
      ReadFits(cursor.data, at, 2);
      if t == 1 {
        var index := cursor.Index();
        if index.Err? {
          return Err(index.error), s;
        }
        if c.header.deltas && index.value == 0 && |cursor.data| - at == 8 && PrefixAt(TERMINATOR, cursor.data, cursor.pos) {
          if s.prefix.None? {
            return Err(InvalidRecord), s;
          }
          cursor.pos := |cursor.data|;
          return Ok(8), s;
        }
        if c.header.deltas && index.value == 0 && cursor.pos != |cursor.data| {
          var packet := ParsePacket(cursor, c, s);
          if packet.Err? {
            return Err(packet.error), s;
          }
          s := packet.value;
        } else {
          if index.value != 0 || cursor.pos != |cursor.data| {
            return Err(InvalidRecord), s;
          }
          if AwaitsPrefix(c, s) {
            return Err(InvalidRecord), s;
          }
          return Ok(cursor.pos - at), s;
        }
      } else {
        if t < 2 || t > 32767 || (c.header.maxType.Some? && t > c.header.maxType.value) {
          return Err(InvalidRecord), s;
        }
        if AwaitsPrefix(c, s) && t != AwaitedType(s) {
          return Err(UnsupportedFormat), s;
        }
        if |s.nodes| + |s.deltaNodes| >= c.limits.maxNodes {
          return Err(ResourceLimit), s;
        }
        NodeAtReady(cursor.data, c, s, t);
        var node, after := ParseNode(cursor, c, s, t);
        s := after;
        if node.Err? {
          return Err(node.error), s;
        }
      }
    }
  }

  // ---------------------------------------------------------------- the report

  // What is reported about a decoding: complete, or stopped after its last
  // complete record.
  function ReportOf(data: Bytes, d: Decoded): Report
    requires d.state.decodedEnd <= |data|
  {
    var end := if d.result.Ok? then |data| else d.state.decodedEnd;
    Report(
      d.result.Ok?, d.state.decodedEnd, if d.result.Ok? then Some(d.state.decodedEnd) else None,
      if d.result.Ok? then d.result.value else 0, end, |data| - end, d.state.prefix, d.state.packets, d.state.schemas,
      d.state.nodes, d.state.deltaNodes, if d.result.Ok? then None else Some(d.result.error))
  }

  function Initial(c: Context): State {
    State([], [], [], [], None, None, map[], {}, 0, 0, 0, 0, c.header.bodyOffset)
  }

  ghost predicate BasesNamed(c: Context) {
    forall b :: b in c.bases ==> c.bases[b].nodeType == b
  }

  // The report of the records that follow each other in the body, if the body
  // starts inside the data.
  ghost predicate IsReport(data: Bytes, c: Context, r: Report) {
    c.header.bodyOffset <= |data| && BasesNamed(c) &&
    Ready(data, c, Initial(c)) &&
    var d := DecodedFrom(data, c, Initial(c));
    d.state.decodedEnd <= |data| && r == ReportOf(data, d)
  }

  // All counters stay within their limits.
  predicate WithinBudgets(l: Limits, r: Report) {
    && |r.nodes| + |r.deltaNodes| <= l.maxNodes && |r.schemas| <= l.maxTypes
    && SchemaFields(r.schemas) <= l.maxTotalFields
    && NodeFields(r.nodes) + NodeFields(r.deltaNodes) <= l.maxTotalFields
    && NodeValues(r.nodes) + NodeValues(r.deltaNodes) <= l.maxValues
    && |r.packets| <= l.maxDeltaPackets && EntryTotal(r.packets) <= l.maxDeltaEntries
  }

  // Node indices are distinct and not null, and every schema is the base
  // definition or was read relative to it.
  predicate WellFormedRecords(c: Context, r: Report) {
    && (forall k :: 0 <= k < |r.nodes| ==> r.nodes[k].body.index != 0)
    && (forall j, k :: 0 <= j < k < |r.nodes| ==> r.nodes[j].body.index != r.nodes[k].body.index)
    && (forall k :: 0 <= k < |r.schemas| ==> SchemaOrigin(c, r.schemas[k]))
  }

  // Only delta streams have a prefix. It is known as soon as two nodes are, and
  // describes them: the partition at the start of the body and the mark it
  // names, right behind it. No further node is read without status framing:
  // whatever node follows, also directly, is a delta node.
  ghost predicate PrefixReported(data: Bytes, c: Context, r: Report) {
    if !c.header.deltas then r.deltaPrefix == None
    else
      && (r.deltaPrefix.None? ==> |r.nodes| < 2 && r.deltaNodes == [] && r.packets == [] && !r.complete)
      && (r.deltaPrefix.Some? ==>
            |r.nodes| == 2 && StartsWith(data, r.schemas, r.nodes, c.header.bodyOffset, r.deltaPrefix.value))
  }

  // The decoded records tile the range from the body to decodedEnd and print
  // back to it; a complete report prints back to all bytes, an incomplete one
  // stops at its last complete record.
  ghost predicate Lossless(data: Bytes, first: nat, r: Report) {
    && first <= r.decodedEnd <= |data|
    && Replay(r.schemas, r.nodes, r.deltaNodes, r.packets, first, r.decodedEnd) == Some(data[first..r.decodedEnd])
    && r.uninterpretedOffset + r.uninterpretedSize == |data|
    && if r.complete then
         && PrintReport(r, first) == Some(data[first..]) && r.diagnostic == None
         && r.terminatorOffset == Some(r.decodedEnd) && r.decodedEnd + r.terminatorSize == |data|
         && (r.terminatorSize == 4 || r.terminatorSize == 8) && r.uninterpretedOffset == |data|
       else
         r.uninterpretedOffset == r.decodedEnd && r.diagnostic.Some?
  }

  lemma ReportLossless(data: Bytes, c: Context, s: State, r: Report)
    requires Consistent(data, c, s)
    requires r.decodedEnd == s.decodedEnd && r.schemas == s.schemas && r.nodes == s.nodes
    requires r.deltaNodes == s.deltaNodes && r.packets == s.packets
    requires r.uninterpretedOffset + r.uninterpretedSize == |data|
    requires if r.complete then
               && PrefixAt(PrintTerminator(r.terminatorSize), data, s.decodedEnd) && r.diagnostic == None
               && r.terminatorOffset == Some(s.decodedEnd) && s.decodedEnd + r.terminatorSize == |data|
               && (r.terminatorSize == 4 || r.terminatorSize == 8) && r.uninterpretedOffset == |data|
             else r.uninterpretedOffset == s.decodedEnd && r.diagnostic.Some?
    ensures Lossless(data, c.header.bodyOffset, r)
    ensures WithinBudgets(c.limits, r) && WellFormedRecords(c, r)
  {
    hide Replay, SchemaOrigin, PrefixAt;
    if r.complete {
      Appended(data, c.header.bodyOffset, s.decodedEnd, PrintTerminator(r.terminatorSize));
      assert |PrintTerminator(r.terminatorSize)| == r.terminatorSize;
      assert data[c.header.bodyOffset..|data|] == data[c.header.bodyOffset..];
    }
  }

  // ---------------------------------------------------------------- parsing

  ghost predicate Accepted(data: Bytes, header: Result<Header>, catalog: Catalog, limits: Limits) {
    && limits.Valid() && |data| <= limits.maxInputBytes && header.Ok?
    && catalog.schemaKey == header.value.schema && CatalogValid(catalog, limits)
  }

  // The header comes from the header reader, which ends within the input.
  method Parse(data: Bytes, header: Result<Header>, catalog: Catalog, limits: Limits)
    returns (r: Result<Report>, ghost c: Context)
    requires header.Ok? ==> header.value.bodyOffset <= |data|
    ensures r.Ok? <==> Accepted(data, header, catalog, limits)
    ensures r.Ok? ==>
      && c.header == header.value && c.limits == limits && CatalogIs(catalog, c.bases, c.absent)
      && IsReport(data, c, r.value)
      && Lossless(data, header.value.bodyOffset, r.value) && WithinBudgets(limits, r.value)
      && WellFormedRecords(c, r.value) && PrefixReported(data, c, r.value)
  {
    hide Consistent, DecodedFrom, Lossless, WithinBudgets, WellFormedRecords, Validated, FieldTotal, PrefixAt,
         PrintTerminator, PrefixReported;
    c := Context(Header([], false, false, None, false, None, 0), map[], {}, limits);
    if !limits.Valid() {
      return Err(InvalidOptions), c;
    }
    if |data| > limits.maxInputBytes {
      return Err(ResourceLimit), c;
    }
    if header.Err? {
      return Err(header.error), c;
    }
    if catalog.schemaKey != header.value.schema {
      return Err(InvalidSchema), c;
    }
    if |catalog.baseTypes| + |catalog.absentTypes| > limits.maxTypes {
      return Err(ResourceLimit), c;
    }
    var bases := IndexBases(catalog, limits);
    if bases.Err? {
      return Err(bases.error), c;
    }
    var absent := IndexAbsent(catalog, bases.value);
    CatalogReady(catalog, bases.value);
    if absent.Err? {
      return Err(absent.error), c;
    }
    var types: set<nat> := absent.value;
    var context := Context(header.value, bases.value, types, limits);
    c := context;
    var cursor := new Cursor(data, header.value.bodyOffset);
    var start := Initial(context);
    NothingYet(data, context, start);
    var decoded, s := Decode(cursor, context, start);
    DecodedReady(data, context);
    StateWithin(data, context, s);
    var report := ReportOf(data, Decoded(decoded, s));
    ReportLossless(data, context, s, report);
    ReportPrefix(data, context, report);
    return Ok(report), c;
  }

  lemma DecodedReady(data: Bytes, c: Context)
    requires Ready(data, c, Initial(c)) && BasesNamed(c)
    ensures var d := DecodedFrom(data, c, Initial(c));
      && Consistent(data, c, d.state) && (d.result.Ok? ==> Ends(data, c, d.state, d.result.value))
  {
    hide Consistent, Ends, Run;
    RunConsistent(data, c, Initial(c));
  }

  // Every report of a delta stream that knows a prefix starts with the two nodes
  // the prefix describes, and every complete one does.
  lemma ReportPrefix(data: Bytes, c: Context, r: Report)
    requires IsReport(data, c, r)
    ensures PrefixReported(data, c, r)
  {
    hide Consistent, Run, FirstNode, SecondNode, PrefixAt, PrintTerminator;
    var start := Initial(c);
    NothingStarted(data, c, start);
    RunStarted(data, c, start);
    DecodedReady(data, c);
  }

  // A report is complete exactly when the header allows decoding and the body is
  // a sequence of records ended by a terminator; it then reports that sequence.
  lemma CompleteIff(data: Bytes, c: Context, r: Report)
    requires IsReport(data, c, r)
    ensures r.complete
       <==> && c.header.internalComplete && c.header.userFieldWords == Some(0)
            && exists states, end, size :: Reaches(data, c, states, Initial(c), end) && Ends(data, c, end, size)
    ensures forall states, end, size ::
      r.complete && Reaches(data, c, states, Initial(c), end) && Ends(data, c, end, size) ==>
        r == ReportOf(data, Decoded(Ok(size), end))
  {
    hide Consistent, Ends, Run, Reaches, ReportOf;
    var start := Initial(c);
    var run := Run(data, c, start);
    if run.result.Ok? {
      RunIff(data, c, start, run.state, run.result.value);
    }
    ReportKind(data, DecodedFrom(data, c, start));
    forall states, end, size: nat | Reaches(data, c, states, start, end) && Ends(data, c, end, size)
      ensures run == Decoded(Ok(size), end)
    {
      RunIff(data, c, start, end, size);
    }
  }

  lemma ReportKind(data: Bytes, d: Decoded)
    requires d.state.decodedEnd <= |data|
    ensures ReportOf(data, d).complete <==> d.result.Ok?
  {
  }

  // An incomplete report stops where no record follows and nothing ends the
  // stream, unless the header forbids decoding.
  lemma IncompleteStops(data: Bytes, c: Context, r: Report) returns (states: seq<State>, stop: State)
    requires IsReport(data, c, r) && !r.complete
    requires c.header.internalComplete && c.header.userFieldWords == Some(0)
    ensures Reaches(data, c, states, Initial(c), stop) && r.decodedEnd == stop.decodedEnd
    ensures forall next :: !Follows(data, c, stop, next)
    ensures forall size :: !Ends(data, c, stop, size)
  {
    hide Consistent, Ends, Run, Reaches, Follows;
    states, stop := RunStops(data, c, Initial(c));
  }

  lemma CatalogReady(c: Catalog, bases: map<nat, TypeDefinition>)
    requires CatalogIs(c.(absentTypes := []), bases, {})
    ensures forall t :: t in bases ==> bases[t].nodeType == t
    ensures forall t :: t in bases <==> exists j :: 0 <= j < |c.baseTypes| && c.baseTypes[j].nodeType == t
  {
    forall t | t in bases
      ensures exists j :: 0 <= j < |c.baseTypes| && c.baseTypes[j].nodeType == t
    {
      var j :| 0 <= j < |c.baseTypes| && c.baseTypes[j] == bases[t];
    }
  }
}
