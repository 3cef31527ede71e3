// One record of the body at a time: what follows the records read so far.
module SchemaSteps {
  import opened Results
  import opened BinaryReader
  import opened SchemaDefinitions
  import opened SchemaNodes
  import opened DeltaPackets
  import opened SchemaReport
  import opened SchemaState

  // ---------------------------------------------------------------- delta administration

  const PARTITION_TYPE := 3

  const MARK_NODE_TYPE := 4

  function Ascii(s: string): Bytes {
    seq(|s|, i requires 0 <= i < |s| => (s[i] as int) % 256)
  }

  function PointerNamed(name: string): FieldDefinition {
    FieldDefinition(Ascii(name), Pointer, 4, 0, true)
  }

  function IntegerNamed(name: string): FieldDefinition {
    FieldDefinition(Ascii(name), Integer, 0, 0, true)
  }

  function DeltaLayout(t: nat): seq<FieldDefinition> {
    if t == PARTITION_TYPE then [PointerNamed("current_pmark"), IntegerNamed("highest_id")]
    else [
           PointerNamed("preceding"), PointerNamed("first_following"), PointerNamed("next_sibling"),
           PointerNamed("prev_sibling"), IntegerNamed("n_new_nodes"), IntegerNamed("n_del_nodes"),
           IntegerNamed("n_copy_mod_nodes"), IntegerNamed("delta_key"),
           FieldDefinition(Ascii("delta_is_forward"), Logical, 0, 0, true), IntegerNamed("identifier")
         ]
  }

  // A reference as stored; only asked of pointer fields.
  function DeltaReference(f: DecodedField): nat {
    if f.values != [] && f.values[0].Word? then f.values[0].w else 0
  }

  function DeltaFlag(f: DecodedField): bool {
    f.values != [] && f.values[0] == Flag(true)
  }

  // IDs and counts keep their bits, even those of the unset value.
  function DeltaWord(data: Bytes, f: DecodedField): Result<nat> {
    ReadAt(data, f.offset, 4)
  }

  function ReadDeltaPartition(data: Bytes, n: DecodedNode, defs: seq<FieldDefinition>): Result<DeltaPartition>
    requires |n.body.fields| == |defs| && n.nodeType == PARTITION_TYPE
  {
    if defs != DeltaLayout(n.nodeType) then Err(UnsupportedSchema)
    else
      var highest :- DeltaWord(data, n.body.fields[1]);
      var mark := DeltaReference(n.body.fields[0]);
      if mark == 0 || mark == n.body.index then Err(InvalidRecord)
      else Ok(DeltaPartition(n.offset, n.body.index, mark, highest))
  }

  function ReadDeltaPrefix(data: Bytes, partition: DeltaPartition, n: DecodedNode, defs: seq<FieldDefinition>):
    Result<DeltaPrefix>
    requires |n.body.fields| == |defs| && n.nodeType == MARK_NODE_TYPE && partition.offset <= n.offset
  {
    if defs != DeltaLayout(n.nodeType) then Err(UnsupportedSchema)
    else if n.body.index != partition.currentMark then Err(InvalidRecord)
    else
      var f := n.body.fields;
      var newNodes :- DeltaWord(data, f[4]);
      var deletedNodes :- DeltaWord(data, f[5]);
      var modifiedNodes :- DeltaWord(data, f[6]);
      var deltaKey :- DeltaWord(data, f[7]);
      var identifier :- DeltaWord(data, f[9]);
      var links := Links(n.body.index, DeltaReference(f[0]), DeltaReference(f[1]), DeltaReference(f[2]),
                         DeltaReference(f[3]));
      var counts := Counts(newNodes, deletedNodes, modifiedNodes, deltaKey, DeltaFlag(f[8]), identifier);
      Ok(DeltaPrefix(partition.offset, n.offset + n.size - partition.offset, partition, Mark(n.offset, links, counts)))
  }

  // A delta stream starts with a partition and its current mark.
  predicate AwaitsPrefix(c: Context, s: State) {
    c.header.deltas && s.prefix.None?
  }

  function AwaitedType(s: State): nat {
    if s.partition.Some? then MARK_NODE_TYPE else PARTITION_TYPE
  }

  function MaximumType(c: Context): nat {
    if c.header.maxType.Some? then c.header.maxType.value else 32767
  }

  lemma TerminatorBytes(data: Bytes, pos: nat)
    ensures ReadAt(data, pos, 2) == Ok(1) && IndexAt(data, pos + 2) == Ok(0) <==> PrefixAt(TERMINATOR, data, pos)
    ensures PrefixAt(TERMINATOR, data, pos) && PrefixAt(TERMINATOR, data, pos + 4)
       <==> PrefixAt(TERMINATOR + TERMINATOR, data, pos)
    ensures |PrintIndex(0)| == 2
  {
    hide ReadAt, IndexAt, PrefixAt;
    ReadIff(data, pos, 2, 1);
    IndexIff(data, pos + 2, 0);
    PrefixSplit(Print(2, 1), PrintIndex(0), data, pos);
    PrefixSplit(TERMINATOR, TERMINATOR, data, pos);
    assert Print(1, 0) == [0] by {
      assert Print(0, 0) == [];
    }
    assert Print(2, 1) + PrintIndex(0) == TERMINATOR;
  }

  // The prefix records required before anything else in a delta stream.
  function Administration(data: Bytes, c: Context, s: State, n: DecodedNode, defs: seq<FieldDefinition>):
    Result<(Option<DeltaPartition>, Option<DeltaPrefix>)>
    requires |n.body.fields| == |defs|
    requires AwaitsPrefix(c, s) ==> n.nodeType == AwaitedType(s)
    requires s.partition.Some? ==> s.partition.value.offset <= n.offset
  {
    if !AwaitsPrefix(c, s) then Ok((s.partition, s.prefix))
    else if s.partition.None? then
      var partition :- ReadDeltaPartition(data, n, defs);
      Ok((Some(partition), s.prefix))
    else
      var prefix :- ReadDeltaPrefix(data, s.partition.value, n, defs);
      Ok((s.partition, Some(prefix)))
  }

  lemma PartitionBefore(data: Bytes, c: Context, s: State, n: DecodedNode, defs: seq<FieldDefinition>)
    requires |n.body.fields| == |defs|
    requires AwaitsPrefix(c, s) ==> n.nodeType == AwaitedType(s)
    requires s.partition.Some? ==> s.partition.value.offset <= n.offset
    ensures var r := Administration(data, c, s, n, defs);
      r.Ok? && r.value.0.Some? ==> r.value.0.value.offset <= n.offset
  {
    hide DeltaLayout, ReadDeltaPrefix;
  }

  // ---------------------------------------------------------------- one node

  // The definition of a type at its first use.
  function SchemaAt(data: Bytes, c: Context, s: State, t: nat): Result<ResolvedSchema> {
    var base := BaseOf(c, t);
    if |s.resolved| >= c.limits.maxTypes then Err(ResourceLimit)
    else if base.None? && t !in c.absent then Err(UnsupportedSchema)
    else
      var schema :-
        if c.header.hasBaseSchema then DefinitionAt(data, s.decodedEnd + 2, t, base, c.limits.maxFieldsPerType)
        else if base.None? then Err(UnsupportedSchema)
        else Ok(ResolvedSchema(base.value, Base, s.decodedEnd + 2, 0, []));
      if s.fields + |schema.definition.fields| > c.limits.maxTotalFields then Err(ResourceLimit) else Ok(schema)
  }

  // Room for a node of type t after the records of s.
  ghost predicate Room(data: Bytes, c: Context, s: State, t: nat) {
    && s.decodedEnd + 2 <= |data| && PrefixAt(Print(2, t), data, s.decodedEnd)
    && |s.nodes| + |s.deltaNodes| < c.limits.maxNodes && (AwaitsPrefix(c, s) ==> t == AwaitedType(s))
    && forall b :: b in c.bases ==> c.bases[b].nodeType == b
  }

  function Framed(c: Context, s: State): bool {
    c.header.deltas && s.prefix.Some?
  }

  function SchemaOf(s: State, t: nat): seq<FieldDefinition>
    requires t in s.resolved && s.resolved[t] < |s.schemas|
  {
    s.schemas[s.resolved[t]].definition.fields
  }

  // The body after type and definition, which end at `pos`.
  function BodyIn(data: Bytes, c: Context, s: State, t: nat, pos: nat): (r: Result<Body>)
    requires t in s.resolved && s.resolved[t] < |s.schemas|
    requires s.decodedFields <= c.limits.maxTotalFields && s.values <= c.limits.maxValues
    ensures r.Ok? ==> |r.value.fields| == |SchemaOf(s, t)|
  {
    if Framed(c, s) && (t == PARTITION_TYPE || t == MARK_NODE_TYPE) then Err(UnsupportedFormat)
    else
      BodyAt(data, pos, SchemaOf(s, t), Framed(c, s), s.indices, c.limits.maxTotalFields - s.decodedFields,
             c.limits.maxValues - s.values)
  }

  function NodeOf(c: Context, s: State, t: nat, pos: nat, body: Body): (n: DecodedNode)
    requires t in s.resolved && s.resolved[t] < |s.schemas| && s.decodedEnd <= pos
    ensures n.offset == s.decodedEnd && n.body == body && n.nodeType == t && n.schemaIndex == s.resolved[t]
    ensures n.framed == Framed(c, s)
  {
    DecodedNode(t, s.resolved[t], s.decodedEnd, pos + |PrintBody(body, SchemaOf(s, t), Framed(c, s))| - s.decodedEnd,
                Framed(c, s), body)
  }

  // The state after a node whose type is resolved in s.
  ghost function NodeIn(data: Bytes, c: Context, s: State, t: nat, pos: nat): Result<State>
    requires Consistent(data, c, s) && Room(data, c, s, t) && t in s.resolved && s.decodedEnd <= pos
  {
    ResolvedKnown(c, s);
    Budgets(c, s);
    var body :- BodyIn(data, c, s, t, pos);
    var n := NodeOf(c, s, t, pos, body);
    var administration :- Administration(data, c, s, n, SchemaOf(s, t));
    Ok(AddNode(s, n).(partition := administration.0, prefix := administration.1))
  }

  datatype Outcome = Outcome(result: Result<Option<nat>>, state: State)

  // One node; a definition stays known even if its node fails.
  ghost function NodeAt(data: Bytes, c: Context, s: State, t: nat): Outcome
    requires Ready(data, c, s) && Room(data, c, s, t)
  {
    if t in s.resolved then Continued(s, NodeIn(data, c, s, t, s.decodedEnd + 2))
    else
      var schema := SchemaAt(data, c, s, t);
      if schema.Err? then Outcome(Err(schema.error), s)
      else
        SchemaReady(data, c, s, t);
        var known := AddSchema(s, t, schema.value);
        Continued(known, NodeIn(data, c, known, t, s.decodedEnd + 2 + |PrintDefinition(schema.value)|))
  }

  function Continued(s: State, next: Result<State>): Outcome {
    match next
    case Err(error) => Outcome(Err(error), s)
    case Ok(after) => Outcome(Ok(None), after)
  }

  lemma SchemaReady(data: Bytes, c: Context, s: State, t: nat)
    requires Ready(data, c, s) && Room(data, c, s, t) && t !in s.resolved
    ensures var schema := SchemaAt(data, c, s, t);
      schema.Ok? ==>
        var known := AddSchema(s, t, schema.value);
        && Consistent(data, c, known) && Room(data, c, known, t) && t in known.resolved
        && known.resolved[t] == |s.schemas| && known.schemas == s.schemas + [schema.value]
        && known.decodedEnd == s.decodedEnd
        && schema.value.offset == s.decodedEnd + 2
        && PrefixAt(PrintDefinition(schema.value), data, s.decodedEnd + 2)
        && s.decodedEnd + 2 + |PrintDefinition(schema.value)| <= |data|
  {
    hide DefinitionAt, PrintDefinition, PrefixAt, Consistent, AddSchema, SchemaOrigin, SchemaAt;
    var r := SchemaAt(data, c, s, t);
    if r.Ok? {
      SchemaFound(data, c, s, t, r.value);
      SchemaCount(data, c, s);
      SchemaAdded(data, c, s, t, r.value);
      SchemaKnown(s, t, r.value);
      SchemaKept(s, t, r.value);
      SchemasAppended(s, t, r.value);
      PrefixFits(PrintDefinition(r.value), data, s.decodedEnd + 2);
    }
  }

  lemma SchemaCount(data: Bytes, c: Context, s: State)
    requires Consistent(data, c, s)
    ensures |s.resolved| == |s.schemas|
  {
    hide Replay, NodesGood, PacketsGood;
  }

  lemma SchemasAppended(s: State, t: nat, schema: ResolvedSchema)
    ensures AddSchema(s, t, schema).schemas == s.schemas + [schema]
  {
  }

  lemma SchemaFound(data: Bytes, c: Context, s: State, t: nat, schema: ResolvedSchema)
    requires s.decodedEnd + 2 <= |data| && SchemaAt(data, c, s, t) == Ok(schema)
    requires forall b :: b in c.bases ==> c.bases[b].nodeType == b
    ensures |s.resolved| < c.limits.maxTypes
    ensures SchemaOrigin(c, schema) && schema.definition.nodeType == t && schema.offset == s.decodedEnd + 2
    ensures s.fields + |schema.definition.fields| <= c.limits.maxTotalFields
    ensures PrefixAt(PrintDefinition(schema), data, s.decodedEnd + 2)
  {
    hide DefinitionAt, PrintDefinition, IsDefinition, PrefixAt;
    if c.header.hasBaseSchema {
      DefinitionIff(data, s.decodedEnd + 2, t, BaseOf(c, t), c.limits.maxFieldsPerType, schema);
      DefinitionFacts(schema, s.decodedEnd + 2, t, BaseOf(c, t), c.limits.maxFieldsPerType);
    } else {
      BasePrinted(data, schema, s.decodedEnd + 2);
    }
  }

  // A node leaves the records ready for the next one.
  lemma NodeInReady(data: Bytes, c: Context, s: State, t: nat, pos: nat)
    requires Consistent(data, c, s) && Room(data, c, s, t) && t in s.resolved
    requires s.decodedEnd + 2 <= pos <= |data| && s.resolved[t] < |s.schemas|
    requires var schema := s.schemas[s.resolved[t]];
      var definition := if schema.offset == s.decodedEnd + 2 then PrintDefinition(schema) else [];
      PrefixAt(definition, data, s.decodedEnd + 2) && pos == s.decodedEnd + 2 + |definition|
    requires forall k :: 0 <= k < |s.schemas| ==> s.schemas[k].offset <= s.decodedEnd + 2
    ensures var r := NodeIn(data, c, s, t, pos);
      r.Ok? ==> Ready(data, c, r.value) && r.value.decodedEnd > s.decodedEnd
  {
    hide Replay, SchemasGood, NodesGood, PacketsGood, PrefixAt, PrintBody, PrintDefinition, Print, PrintNode,
         AddNode, BodyAt, IsBody, ValueTotal, Administration;
    ResolvedKnown(c, s);
    Budgets(c, s);
    var body := BodyIn(data, c, s, t, pos);
    if body.Ok? {
      var defs, framed := SchemaOf(s, t), Framed(c, s);
      BodyIff(data, pos, defs, framed, s.indices, c.limits.maxTotalFields - s.decodedFields,
              c.limits.maxValues - s.values, body.value);
      BodyFits(body.value, pos, defs, framed, s.indices, c.limits.maxTotalFields - s.decodedFields,
               c.limits.maxValues - s.values);
      BodyWithin(data, pos, defs, framed, s.indices, c.limits.maxTotalFields - s.decodedFields,
                 c.limits.maxValues - s.values);
      var n := NodeOf(c, s, t, pos, body.value);
      NodePrinted(data, s.schemas, n);
      var administration := Administration(data, c, s, n, defs);
      if administration.Ok? {
        PartitionBefore(data, c, s, n, defs);
        NodeAdded(data, c, s, n);
        Finish(data, c, s, n, administration.value.0, administration.value.1);
      }
    }
  }

  lemma NodeAtReady(data: Bytes, c: Context, s: State, t: nat)
    requires Ready(data, c, s) && Room(data, c, s, t)
    ensures var o := NodeAt(data, c, s, t);
      && Consistent(data, c, o.state)
      && (o.result == Ok(None) ==> Ready(data, c, o.state) && o.state.decodedEnd > s.decodedEnd)
      && (o.result.Err? ==> o.state.decodedEnd == s.decodedEnd)
      && (o.result.Ok? ==> o.result.value == None)
  {
    hide Consistent, PrefixAt, PrintDefinition, AddSchema, NodeIn, SchemaAt;
    ResolvedReady(data, c, s);
    if t in s.resolved {
      PrefixEmpty(data, s.decodedEnd + 2);
      NodeInReady(data, c, s, t, s.decodedEnd + 2);
    } else {
      SchemaReady(data, c, s, t);
      var schema := SchemaAt(data, c, s, t);
      if schema.Ok? {
        NodeInReady(data, c, AddSchema(s, t, schema.value), t, s.decodedEnd + 2 + |PrintDefinition(schema.value)|);
      }
    }
  }

  lemma ResolvedReady(data: Bytes, c: Context, s: State)
    requires Ready(data, c, s)
    ensures forall t :: t in s.resolved ==> s.resolved[t] < |s.schemas|
  {
    hide Replay;
  }

  // ---------------------------------------------------------------- one packet

  function PacketIn(data: Bytes, c: Context, s: State): Result<Packet> {
    if s.prefix.None? then Err(InvalidRecord)
    else if |s.packets| >= c.limits.maxDeltaPackets || s.deltaEntries >= c.limits.maxDeltaEntries then Err(ResourceLimit)
    else PacketAt(data, s.decodedEnd, MaximumType(c), c.limits.maxDeltaEntries - s.deltaEntries, true)
  }

  lemma PacketReady(data: Bytes, c: Context, s: State)
    requires Ready(data, c, s)
    ensures var p := PacketIn(data, c, s);
      p.Ok? ==>
        && Ready(data, c, AddPacket(s, p.value)) && p.value.offset == s.decodedEnd && p.value.size > 0
        && AddPacket(s, p.value).decodedEnd == s.decodedEnd + p.value.size
  {
    hide Replay, PacketAt, IsPacket, PrintPacket, PrefixAt, SchemasGood, NodesGood, PacketsGood, Excluded;
    EntriesWithin(c, s);
    var r := PacketIn(data, c, s);
    if r.Ok? {
      var p, limit := r.value, c.limits.maxDeltaEntries - s.deltaEntries;
      PacketAccepted(data, s.decodedEnd, MaximumType(c), limit, true, p);
      PacketFacts(data, p, s.decodedEnd, MaximumType(c), limit);
      PacketAdded(data, c, s, p);
    }
  }

  // ---------------------------------------------------------------- one record

  // What type 1 announces: a packet, the trailer, or the end.
  ghost function MarkerAt(data: Bytes, c: Context, s: State): Outcome {
    var at := s.decodedEnd;
    match IndexAt(data, at + 2)
    case Err(error) => Outcome(Err(error), s)
    case Ok(index) =>
      var next := at + 2 + |PrintIndex(index)|;
      if c.header.deltas && index == 0 && |data| == at + 8 && PrefixAt(TERMINATOR, data, next) then
        Outcome(if s.prefix.None? then Err(InvalidRecord) else Ok(Some(8)), s)
      else if c.header.deltas && index == 0 && next != |data| then
        var p := PacketIn(data, c, s);
        if p.Err? then Outcome(Err(p.error), s) else Outcome(Ok(None), AddPacket(s, p.value))
      else if index != 0 || next != |data| || AwaitsPrefix(c, s) then Outcome(Err(InvalidRecord), s)
      else Outcome(Ok(Some(next - at)), s)
  }

  predicate TypeAllowed(c: Context, t: nat) {
    2 <= t <= 32767 && (c.header.maxType.Some? ==> t <= c.header.maxType.value)
  }

  // Ok(None) goes on in the new state; Ok(Some) is the size of the terminator.
  ghost function Step(data: Bytes, c: Context, s: State): Outcome
    requires Ready(data, c, s) && forall b :: b in c.bases ==> c.bases[b].nodeType == b
  {
    match ReadAt(data, s.decodedEnd, 2)
    case Err(error) => Outcome(Err(error), s)
    case Ok(t) =>
      ReadFits(data, s.decodedEnd, 2);
      ReadIff(data, s.decodedEnd, 2, t);
      if t == 1 then MarkerAt(data, c, s)
      else if !TypeAllowed(c, t) then Outcome(Err(InvalidRecord), s)
      else if AwaitsPrefix(c, s) && t != AwaitedType(s) then Outcome(Err(UnsupportedFormat), s)
      else if |s.nodes| + |s.deltaNodes| >= c.limits.maxNodes then Outcome(Err(ResourceLimit), s)
      else NodeAt(data, c, s, t)
  }

  lemma StepReady(data: Bytes, c: Context, s: State)
    requires Ready(data, c, s) && forall b :: b in c.bases ==> c.bases[b].nodeType == b
    ensures var o := Step(data, c, s);
      && Consistent(data, c, o.state)
      && (o.result == Ok(None) ==> Ready(data, c, o.state) && s.decodedEnd < o.state.decodedEnd <= |data|)
      && (o.result.Err? ==> o.state.decodedEnd == s.decodedEnd)
      && (o.result.Ok? && o.result.value.Some? ==> o.state == s && Ends(data, c, s, o.result.value.value))
  {
    hide Consistent, NodeAt, ReadAt, IndexAt, PrintIndex, PrefixAt, PacketIn, Print, AddPacket;
    ReadFits(data, s.decodedEnd, 2);
    var r := ReadAt(data, s.decodedEnd, 2);
    if r.Ok? {
      ReadIff(data, s.decodedEnd, 2, r.value);
      if r.value == 1 {
        PacketReady(data, c, s);
        MarkerEnds(data, c, s);
      } else if Room(data, c, s, r.value) {
        NodeAtReady(data, c, s, r.value);
      }
    }
    var o := Step(data, c, s);
    if o.result == Ok(None) {
      StateWithin(data, c, o.state);
    }
  }

  // The records are followed by a terminator of the given size, and nothing else.
  ghost predicate Ends(data: Bytes, c: Context, s: State, size: nat) {
    && (size == 4 || (size == 8 && c.header.deltas)) && s.decodedEnd + size == |data| && !AwaitsPrefix(c, s)
    && PrefixAt(PrintTerminator(size), data, s.decodedEnd)
  }

  lemma MarkerEnds(data: Bytes, c: Context, s: State)
    requires ReadAt(data, s.decodedEnd, 2) == Ok(1)
    ensures var o := MarkerAt(data, c, s);
      o.result.Ok? && o.result.value.Some? ==> o.state == s && Ends(data, c, s, o.result.value.value)
  {
    hide ReadAt, IndexAt, PacketIn, PrefixAt;
    if IndexAt(data, s.decodedEnd + 2) == Ok(0) {
      TerminatorBytes(data, s.decodedEnd);
    }
  }

  // ---------------------------------------------------------------- all records

  datatype Decoded = Decoded(result: Result<nat>, state: State)

  // Records until the terminator or the first failure; Ok carries the size of
  // the terminator.
  ghost function Run(data: Bytes, c: Context, s: State): Decoded
    requires Ready(data, c, s) && forall b :: b in c.bases ==> c.bases[b].nodeType == b
    decreases |data| - s.decodedEnd
  {
    StepReady(data, c, s);
    var o := Step(data, c, s);
    match o.result
    case Err(error) => Decoded(Err(error), o.state)
    case Ok(None) => Run(data, c, o.state)
    case Ok(Some(size)) => Decoded(Ok(size), o.state)
  }

  ghost function DecodedFrom(data: Bytes, c: Context, s: State): Decoded
    requires Ready(data, c, s) && forall b :: b in c.bases ==> c.bases[b].nodeType == b
  {
    if !c.header.internalComplete || c.header.userFieldWords != Some(0) then Decoded(Err(UnsupportedSchema), s)
    else Run(data, c, s)
  }

  lemma {:induction false} RunConsistent(data: Bytes, c: Context, s: State)
    requires Ready(data, c, s) && forall b :: b in c.bases ==> c.bases[b].nodeType == b
    ensures var r := Run(data, c, s);
      Consistent(data, c, r.state) && (r.result.Ok? ==> Ends(data, c, r.state, r.result.value))
    decreases |data| - s.decodedEnd
  {
    hide Consistent, Ends, Step;
    StepReady(data, c, s);
    var o := Step(data, c, s);
    if o.result == Ok(None) {
      RunConsistent(data, c, o.state);
    }
  }
}
