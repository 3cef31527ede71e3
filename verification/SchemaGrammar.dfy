// Which byte strings are complete bodies: sequences of printed records that
// follow each other, ended by a terminator. The parser accepts exactly these.
module SchemaGrammar {
  import opened Results
  import opened BinaryReader
  import opened SchemaDefinitions
  import opened SchemaNodes
  import opened DeltaPackets
  import opened PacketGrammar
  import opened SchemaReport
  import opened SchemaState
  import opened SchemaSteps
  import opened SchemaPrefix

  // ---------------------------------------------------------------- records that follow a state

  // A definition of type t that may be introduced by the next node.
  ghost predicate Introduces(c: Context, s: State, t: nat, schema: ResolvedSchema) {
    && |s.resolved| < c.limits.maxTypes && (BaseOf(c, t).Some? || t in c.absent)
    && schema.offset == s.decodedEnd + 2 && schema.definition.nodeType == t && SchemaOrigin(c, schema)
    && s.fields + |schema.definition.fields| <= c.limits.maxTotalFields
  }

  ghost predicate Knows(c: Context, s: State, t: nat, known: State) {
    if t in s.resolved then known == s
    else exists schema :: Introduces(c, s, t, schema) && known == AddSchema(s, t, schema)
  }

  function DefinitionBytes(known: State, n: DecodedNode): Bytes
    requires n.schemaIndex < |known.schemas|
  {
    var schema := known.schemas[n.schemaIndex];
    if schema.offset == n.offset + 2 then PrintDefinition(schema) else []
  }

  // Node n in the state `known`, which includes its definition.
  ghost predicate NodeBelongs(data: Bytes, c: Context, s: State, known: State, n: DecodedNode) {
    && TypeAllowed(c, n.nodeType) && |s.nodes| + |s.deltaNodes| < c.limits.maxNodes
    && (AwaitsPrefix(c, s) ==> n.nodeType == AwaitedType(s))
    && Knows(c, s, n.nodeType, known) && n.nodeType in known.resolved
    && n.schemaIndex == known.resolved[n.nodeType] < |known.schemas|
    && n.offset == s.decodedEnd && n.framed == Framed(c, s)
    && !(n.framed && (n.nodeType == PARTITION_TYPE || n.nodeType == MARK_NODE_TYPE))
    && known.decodedFields <= c.limits.maxTotalFields && known.values <= c.limits.maxValues
    && IsBody(n.body, n.offset + 2 + |DefinitionBytes(known, n)|, SchemaOf(known, n.nodeType), n.framed, known.indices,
              c.limits.maxTotalFields - known.decodedFields, c.limits.maxValues - known.values)
    && |n.body.fields| == |SchemaOf(known, n.nodeType)|
    && HasBytes(known.schemas, n) && PrefixAt(PrintNode(known.schemas, n), data, n.offset)
  }

  ghost predicate NodeFollows(data: Bytes, c: Context, s: State, known: State, n: DecodedNode, next: State) {
    && NodeBelongs(data, c, s, known, n)
    && Administered(data, c, known, n, SchemaOf(known, n.nodeType), next.partition, next.prefix)
    && next == AddNode(known, n).(partition := next.partition, prefix := next.prefix)
  }

  ghost predicate PacketFollows(data: Bytes, c: Context, s: State, p: Packet, next: State) {
    && c.header.deltas && s.prefix.Some?
    && |s.packets| < c.limits.maxDeltaPackets && s.deltaEntries < c.limits.maxDeltaEntries
    && PrefixAt(TERMINATOR, data, s.decodedEnd) && |data| != s.decodedEnd + 4
    && !(|data| == s.decodedEnd + 8 && PrefixAt(TERMINATOR + TERMINATOR, data, s.decodedEnd))
    && PacketStands(data, p, s.decodedEnd, MaximumType(c), c.limits.maxDeltaEntries - s.deltaEntries, true)
    && next == AddPacket(s, p)
  }

  ghost predicate Follows(data: Bytes, c: Context, s: State, next: State) {
    || (exists known, n :: NodeFollows(data, c, s, known, n, next))
    || (exists p :: PacketFollows(data, c, s, p, next))
  }

  // ---------------------------------------------------------------- nodes

  lemma SchemaIff(data: Bytes, c: Context, s: State, t: nat, schema: ResolvedSchema)
    requires Room(data, c, s, t)
    ensures SchemaAt(data, c, s, t) == Ok(schema)
       <==> Introduces(c, s, t, schema) && PrefixAt(PrintDefinition(schema), data, s.decodedEnd + 2)
  {
    hide DefinitionAt, PrintDefinition, IsDefinition, PrefixAt;
    if c.header.hasBaseSchema {
      DefinitionIff(data, s.decodedEnd + 2, t, BaseOf(c, t), c.limits.maxFieldsPerType, schema);
      if SchemaAt(data, c, s, t) == Ok(schema) {
        DefinitionFacts(schema, s.decodedEnd + 2, t, BaseOf(c, t), c.limits.maxFieldsPerType);
      }
    } else if schema.source == Base {
      BasePrinted(data, schema, s.decodedEnd + 2);
    }
  }

  // A known type: the node's bytes are its type, its definition if new, its body.
  lemma NodeBytes(data: Bytes, known: State, n: DecodedNode)
    requires n.schemaIndex < |known.schemas|
    ensures var definition := DefinitionBytes(known, n);
      var body := PrintBody(n.body, known.schemas[n.schemaIndex].definition.fields, n.framed);
      && (PrefixAt(PrintNode(known.schemas, n), data, n.offset) <==>
            && PrefixAt(Print(2, n.nodeType), data, n.offset) && PrefixAt(definition, data, n.offset + 2)
            && PrefixAt(body, data, n.offset + 2 + |definition|))
      && |PrintNode(known.schemas, n)| == 2 + |definition| + |body|
  {
    hide PrefixAt, PrintBody, PrintDefinition, Print;
    var definition := DefinitionBytes(known, n);
    var body := PrintBody(n.body, known.schemas[n.schemaIndex].definition.fields, n.framed);
    PrefixSplit(Print(2, n.nodeType), definition + body, data, n.offset);
    PrefixSplit(definition, body, data, n.offset + 2);
  }

  // The decoder finds exactly the bodies that belong.
  lemma BodyBelongs(data: Bytes, c: Context, s: State, known: State, n: DecodedNode, pos: nat)
    requires Consistent(data, c, known) && Room(data, c, s, n.nodeType) && TypeAllowed(c, n.nodeType)
    requires Knows(c, s, n.nodeType, known) && n.nodeType in known.resolved && n.offset == s.decodedEnd
    requires n.schemaIndex == known.resolved[n.nodeType] < |known.schemas|
    requires known.decodedFields <= c.limits.maxTotalFields && known.values <= c.limits.maxValues
    requires Framed(c, known) == Framed(c, s) && known.decodedEnd == s.decodedEnd
    requires pos == s.decodedEnd + 2 + |DefinitionBytes(known, n)| <= |data|
    requires PrefixAt(DefinitionBytes(known, n), data, s.decodedEnd + 2)
    ensures NodeBelongs(data, c, s, known, n)
       <==> BodyIn(data, c, known, n.nodeType, pos) == Ok(n.body) && n == NodeOf(c, known, n.nodeType, pos, n.body)
  {
    hide Consistent, PrefixAt, PrintBody, PrintDefinition, Print, PrintNode, BodyAt, IsBody, Knows;
    var defs, framed := SchemaOf(known, n.nodeType), Framed(c, s);
    BodyIff(data, pos, defs, framed, known.indices, c.limits.maxTotalFields - known.decodedFields,
            c.limits.maxValues - known.values, n.body);
    NodeBytes(data, known, n);
  }

  lemma NodeIff(data: Bytes, c: Context, s: State, t: nat, next: State)
    requires Ready(data, c, s) && Room(data, c, s, t) && TypeAllowed(c, t)
    ensures NodeAt(data, c, s, t) == Outcome(Ok(None), next)
       <==> exists known, n: DecodedNode :: n.nodeType == t && NodeFollows(data, c, s, known, n, next)
  {
    hide Consistent, PrefixAt, NodeBelongs, Administration, Administered, PrintDefinition, SchemaAt, AddNode;
    if NodeAt(data, c, s, t) == Outcome(Ok(None), next) {
      NodeFound(data, c, s, t, next);
    }
    forall known, n: DecodedNode | n.nodeType == t && NodeFollows(data, c, s, known, n, next)
      ensures NodeAt(data, c, s, t) == Outcome(Ok(None), next)
    {
      NodeDecodes(data, c, s, known, n, next);
    }
  }

  lemma NodeFound(data: Bytes, c: Context, s: State, t: nat, next: State)
    requires Ready(data, c, s) && Room(data, c, s, t) && TypeAllowed(c, t)
    requires NodeAt(data, c, s, t) == Outcome(Ok(None), next)
    ensures exists known, n: DecodedNode :: n.nodeType == t && NodeFollows(data, c, s, known, n, next)
  {
    hide Consistent, PrefixAt, NodeFollows, PrintDefinition, SchemaAt, AddSchema, NodeIn;
    if t in s.resolved {
      KnownFacts(data, c, s, s, t);
      PrefixEmpty(data, s.decodedEnd + 2);
      NodeInFollows(data, c, s, s, t, s.decodedEnd + 2, next);
    } else {
      SchemaReady(data, c, s, t);
      var schema := SchemaAt(data, c, s, t).value;
      NewFound(data, c, s, t, schema, next);
    }
  }

  lemma NewFound(data: Bytes, c: Context, s: State, t: nat, schema: ResolvedSchema, next: State)
    requires Ready(data, c, s) && Room(data, c, s, t) && TypeAllowed(c, t)
    requires t !in s.resolved && SchemaAt(data, c, s, t) == Ok(schema)
    requires Consistent(data, c, AddSchema(s, t, schema)) && Room(data, c, AddSchema(s, t, schema), t)
    requires NodeIn(data, c, AddSchema(s, t, schema), t, s.decodedEnd + 2 + |PrintDefinition(schema)|) == Ok(next)
    ensures exists known, n: DecodedNode :: n.nodeType == t && NodeFollows(data, c, s, known, n, next)
  {
    hide Consistent, PrefixAt, NodeFollows, PrintDefinition, SchemaAt, AddSchema, NodeIn, Introduces, Room;
    SchemaReady(data, c, s, t);
    SchemaIff(data, c, s, t, schema);
    var known := AddSchema(s, t, schema);
    SchemaKept(s, t, schema);
    KnownFacts(data, c, s, known, t);
    NodeInFollows(data, c, s, known, t, s.decodedEnd + 2 + |PrintDefinition(schema)|, next);
  }

  lemma KnownFacts(data: Bytes, c: Context, s: State, known: State, t: nat)
    requires Consistent(data, c, known)
    ensures known.decodedFields <= c.limits.maxTotalFields && known.values <= c.limits.maxValues
    ensures known.partition.Some? ==> known.partition.value.offset <= known.decodedEnd
    ensures t in known.resolved ==> known.resolved[t] < |known.schemas|
  {
    hide Replay;
  }

  lemma NodeInFollows(data: Bytes, c: Context, s: State, known: State, t: nat, pos: nat, next: State)
    requires Consistent(data, c, known) && Room(data, c, s, t) && TypeAllowed(c, t) && Room(data, c, known, t)
    requires Knows(c, s, t, known) && t in known.resolved && known.resolved[t] < |known.schemas|
    requires known.decodedFields <= c.limits.maxTotalFields && known.values <= c.limits.maxValues
    requires known.partition.Some? ==> known.partition.value.offset <= known.decodedEnd
    requires known.prefix == s.prefix && known.decodedEnd == s.decodedEnd
    requires var schema := known.schemas[known.resolved[t]];
      var definition := if schema.offset == s.decodedEnd + 2 then PrintDefinition(schema) else [];
      PrefixAt(definition, data, s.decodedEnd + 2) && pos == s.decodedEnd + 2 + |definition| <= |data|
    requires NodeIn(data, c, known, t, pos) == Ok(next)
    ensures exists known, n: DecodedNode :: n.nodeType == t && NodeFollows(data, c, s, known, n, next)
  {
    hide Consistent, PrefixAt, NodeBelongs, Administration, Administered, PrintDefinition, AddNode, Knows, PrintBody, BodyIn;
    var body := BodyIn(data, c, known, t, pos).value;
    var n := NodeOf(c, known, t, pos, body);
    BodyBelongs(data, c, s, known, n, pos);
    if AwaitsPrefix(c, known) {
      NodeInPrinted(data, c, known, t, pos, body, n);
    }
    AdministrationIff(data, c, known, n, SchemaOf(known, t), next.partition, next.prefix);
    assert NodeFollows(data, c, s, known, n, next);
  }

  lemma NodeDecodes(data: Bytes, c: Context, s: State, known: State, n: DecodedNode, next: State)
    requires Ready(data, c, s) && Room(data, c, s, n.nodeType) && TypeAllowed(c, n.nodeType)
    requires NodeFollows(data, c, s, known, n, next)
    ensures NodeAt(data, c, s, n.nodeType) == Outcome(Ok(None), next)
  {
    hide Consistent, PrefixAt, Administration, Administered, PrintDefinition, AddNode, SchemaAt, PrintBody, BodyIn, IsBody, AddSchema,
         SchemaOrigin, PrintNode, Print;
    var t := n.nodeType;
    NodeBytes(data, known, n);
    if t in s.resolved {
      ResolvedReady(data, c, s);
      PrefixFits([], data, s.decodedEnd + 2);
      BodyBelongs(data, c, s, s, n, s.decodedEnd + 2);
      NodeInDecodes(data, c, s, s, n, s.decodedEnd + 2, next);
    } else {
      var schema :| Introduces(c, s, t, schema) && known == AddSchema(s, t, schema);
      SchemaKnown(s, t, schema);
      SchemaKept(s, t, schema);
      SchemaIff(data, c, s, t, schema);
      SchemaReady(data, c, s, t);
      BodyBelongs(data, c, s, known, n, s.decodedEnd + 2 + |PrintDefinition(schema)|);
      NodeInDecodes(data, c, s, known, n, s.decodedEnd + 2 + |PrintDefinition(schema)|, next);
    }
  }

  lemma NodeInDecodes(data: Bytes, c: Context, s: State, known: State, n: DecodedNode, pos: nat, next: State)
    requires Consistent(data, c, known) && Room(data, c, known, n.nodeType) && n.offset == s.decodedEnd
    requires NodeFollows(data, c, s, known, n, next) && n.nodeType in known.resolved && known.decodedEnd == s.decodedEnd
    requires known.decodedEnd <= pos <= |data| && BodyIn(data, c, known, n.nodeType, pos) == Ok(n.body)
    requires n == NodeOf(c, known, n.nodeType, pos, n.body)
    ensures NodeIn(data, c, known, n.nodeType, pos) == Ok(next)
  {
    hide Consistent, PrefixAt, Administration, Administered, AddNode, PrintBody, BodyIn, NodeBelongs;
    KnownFacts(data, c, s, known, n.nodeType);
    if AwaitsPrefix(c, known) {
      NodeInPrinted(data, c, known, n.nodeType, pos, n.body, n);
    }
    AdministrationIff(data, c, known, n, SchemaOf(known, n.nodeType), next.partition, next.prefix);
  }

  // ---------------------------------------------------------------- one step

  // The parser's step and the grammar agree: it goes on exactly to the record
  // that follows, and stops exactly at a terminator.
  lemma StepIff(data: Bytes, c: Context, s: State, next: State, size: nat)
    requires Ready(data, c, s) && forall b :: b in c.bases ==> c.bases[b].nodeType == b
    ensures Step(data, c, s) == Outcome(Ok(None), next) <==> Follows(data, c, s, next)
    ensures Step(data, c, s).result == Ok(Some(size)) <==> Ends(data, c, s, size)
  {
    hide Consistent, ReadAt, IndexAt, PrefixAt, PacketIn, Print, NodeAt, NodeFollows, MarkerAt, PacketFollows;
    ReadFits(data, s.decodedEnd, 2);
    TerminatorBytes(data, s.decodedEnd);
    MarkerIff(data, c, s, next, size);
    var r := ReadAt(data, s.decodedEnd, 2);
    FollowingBytes(data, c, s, next, size);
    if r.Ok? && r.value != 1 {
      ReadIff(data, s.decodedEnd, 2, r.value);
      if TypeAllowed(c, r.value) && Room(data, c, s, r.value) {
        NodeIff(data, c, s, r.value, next);
        NodeAtReady(data, c, s, r.value);
      }
    }
  }

  // The first two bytes of whatever follows.
  lemma FollowingBytes(data: Bytes, c: Context, s: State, next: State, size: nat)
    ensures forall known, n :: NodeFollows(data, c, s, known, n, next) ==>
      ReadAt(data, s.decodedEnd, 2) == Ok(n.nodeType) && n.nodeType != 1 && TypeAllowed(c, n.nodeType)
      && |s.nodes| + |s.deltaNodes| < c.limits.maxNodes && (AwaitsPrefix(c, s) ==> n.nodeType == AwaitedType(s))
    ensures forall p :: PacketFollows(data, c, s, p, next) ==> ReadAt(data, s.decodedEnd, 2) == Ok(1)
    ensures Ends(data, c, s, size) ==> ReadAt(data, s.decodedEnd, 2) == Ok(1)
  {
    hide ReadAt, IndexAt, PrefixAt, Print, PrintNode, IsBody, Administration, Administered;
    TerminatorBytes(data, s.decodedEnd);
    forall known, n | NodeFollows(data, c, s, known, n, next)
      ensures ReadAt(data, s.decodedEnd, 2) == Ok(n.nodeType)
    {
      NodeBytes(data, known, n);
      TypeFits(n.nodeType);
      ReadIff(data, s.decodedEnd, 2, n.nodeType);
    }
  }

  lemma TypeFits(t: nat)
    requires t <= 32767
    ensures t < Power256(2)
  {
    Powers();
  }

  lemma MarkerIff(data: Bytes, c: Context, s: State, next: State, size: nat)
    requires Ready(data, c, s)
    ensures ReadAt(data, s.decodedEnd, 2) == Ok(1) ==>
      (MarkerAt(data, c, s) == Outcome(Ok(None), next) <==> exists p :: PacketFollows(data, c, s, p, next))
    ensures ReadAt(data, s.decodedEnd, 2) == Ok(1) ==>
      (MarkerAt(data, c, s).result == Ok(Some(size)) <==> Ends(data, c, s, size))
  {
    hide Consistent, ReadAt, IndexAt, PrefixAt, PacketAt, PacketStands;
    EntriesKept(data, c, s);
    TerminatorBytes(data, s.decodedEnd);
    var limit := c.limits.maxDeltaEntries - s.deltaEntries;
    forall p
      ensures PacketAt(data, s.decodedEnd, MaximumType(c), limit, true) == Ok(p)
         <==> PacketStands(data, p, s.decodedEnd, MaximumType(c), limit, true)
    {
      PacketIff(data, s.decodedEnd, MaximumType(c), limit, true, p);
    }
    if MarkerAt(data, c, s) == Outcome(Ok(None), next) && ReadAt(data, s.decodedEnd, 2) == Ok(1) {
      assert PacketFollows(data, c, s, PacketIn(data, c, s).value, next);
    }
  }

  lemma EntriesKept(data: Bytes, c: Context, s: State)
    requires Ready(data, c, s)
    ensures s.deltaEntries <= c.limits.maxDeltaEntries
  {
    hide Replay, SchemasGood, NodesGood;
  }

  // ---------------------------------------------------------------- complete bodies

  ghost predicate Records(data: Bytes, c: Context, states: seq<State>) {
    states != [] && forall i :: 0 <= i < |states| - 1 ==> Follows(data, c, states[i], states[i + 1])
  }

  ghost predicate Reaches(data: Bytes, c: Context, states: seq<State>, start: State, end: State) {
    Records(data, c, states) && states[0] == start && states[|states| - 1] == end
  }

  lemma {:induction false} RunFollows(data: Bytes, c: Context, start: State) returns (states: seq<State>, stop: State)
    requires Ready(data, c, start) && forall b :: b in c.bases ==> c.bases[b].nodeType == b
    ensures var r := Run(data, c, start);
      && Reaches(data, c, states, start, stop) && Ready(data, c, stop)
      && (r.result.Ok? ==> stop == r.state && Ends(data, c, stop, r.result.value))
      && (r.result.Err? ==> Step(data, c, stop) == Outcome(Err(r.result.error), r.state))
    decreases |data| - start.decodedEnd
  {
    hide Consistent, Step, Ends, Follows;
    StepReady(data, c, start);
    var o := Step(data, c, start);
    states, stop := [start], start;
    if o.result == Ok(None) {
      var rest;
      rest, stop := RunFollows(data, c, o.state);
      StepIff(data, c, start, o.state, 0);
      states := [start] + rest;
    }
  }

  lemma {:induction false} FollowedRun(data: Bytes, c: Context, states: seq<State>, start: State, end: State, size: nat)
    requires Ready(data, c, start) && forall b :: b in c.bases ==> c.bases[b].nodeType == b
    requires Reaches(data, c, states, start, end) && Ends(data, c, end, size)
    ensures Run(data, c, start) == Decoded(Ok(size), end)
    decreases |states|
  {
    hide Consistent, Step, Ends, Follows;
    StepReady(data, c, start);
    if |states| == 1 {
      StepIff(data, c, start, start, size);
    } else {
      StepIff(data, c, start, states[1], size);
      FollowedRun(data, c, states[1..], states[1], end, size);
    }
  }

  // Decoding completes exactly on sequences of records ended by a terminator,
  // and the sequence is unique.
  lemma RunIff(data: Bytes, c: Context, start: State, end: State, size: nat)
    requires Ready(data, c, start) && forall b :: b in c.bases ==> c.bases[b].nodeType == b
    ensures Run(data, c, start) == Decoded(Ok(size), end)
       <==> exists states :: Reaches(data, c, states, start, end) && Ends(data, c, end, size)
  {
    hide Consistent, Ends, Follows, Run, Records;
    if Run(data, c, start) == Decoded(Ok(size), end) {
      var states, stop := RunFollows(data, c, start);
    }
    forall states | Reaches(data, c, states, start, end) && Ends(data, c, end, size)
      ensures Run(data, c, start) == Decoded(Ok(size), end)
    {
      FollowedRun(data, c, states, start, end, size);
    }
  }

  // A failed decoding went as far as records follow each other: at its last
  // state no record follows and no terminator stands.
  lemma RunStops(data: Bytes, c: Context, start: State) returns (states: seq<State>, stop: State)
    requires Ready(data, c, start) && forall b :: b in c.bases ==> c.bases[b].nodeType == b
    requires Run(data, c, start).result.Err?
    ensures Reaches(data, c, states, start, stop)
    ensures Run(data, c, start).state.decodedEnd == stop.decodedEnd
    ensures forall next :: !Follows(data, c, stop, next)
    ensures forall size :: !Ends(data, c, stop, size)
  {
    hide Consistent, Ends, Follows, Run, Records, Step;
    states, stop := RunFollows(data, c, start);
    StepReady(data, c, stop);
    forall next ensures !Follows(data, c, stop, next) {
      StepIff(data, c, stop, next, 0);
    }
    forall size: nat ensures !Ends(data, c, stop, size) {
      StepIff(data, c, stop, stop, size);
    }
  }
}
