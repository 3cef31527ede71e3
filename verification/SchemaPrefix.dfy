// What a delta stream starts with: a partition and its current mark.
module SchemaPrefix {
  import opened Results
  import opened BinaryReader
  import opened SchemaDefinitions
  import opened SchemaNodes
  import opened DeltaPackets
  import opened SchemaReport
  import opened SchemaState
  import opened SchemaSteps

  // ---------------------------------------------------------------- the fields of both nodes

  // A 32-bit word as the field codec shows it.
  function CountOf(v: ScalarValue): nat {
    match v
    case Signed(i) => i % 0x1_0000_0000
    case _ => 0xffff8004
  }

  // The field's four bytes are the count, also where they stand for no value.
  ghost predicate PrintedCount(data: Bytes, f: DecodedField, count: nat) {
    && count < 0x1_0000_0000 && PrefixAt(Print(4, count), data, f.offset)
    && |f.values| == 1 && (f.values[0].Null? || f.values[0].Signed?) && count == CountOf(f.values[0])
  }

  predicate PointsAt(f: DecodedField, index: nat) {
    f.values == [Word(index)]
  }

  ghost predicate IsPartition(data: Bytes, n: DecodedNode, defs: seq<FieldDefinition>, p: DeltaPartition) {
    && n.nodeType == PARTITION_TYPE && defs == DeltaLayout(PARTITION_TYPE) && |n.body.fields| == 2
    && p.offset == n.offset && p.index == n.body.index
    && PointsAt(n.body.fields[0], p.currentMark) && p.currentMark != 0 && p.currentMark != p.index
    && PrintedCount(data, n.body.fields[1], p.highestId)
  }

  ghost predicate IsMarkNode(data: Bytes, n: DecodedNode, defs: seq<FieldDefinition>, m: Mark) {
    && n.nodeType == MARK_NODE_TYPE && defs == DeltaLayout(MARK_NODE_TYPE) && |n.body.fields| == 10
    && m.offset == n.offset && m.links.index == n.body.index
    && var f := n.body.fields;
       && PointsAt(f[0], m.links.preceding) && PointsAt(f[1], m.links.firstFollowing)
       && PointsAt(f[2], m.links.nextSibling) && PointsAt(f[3], m.links.prevSibling)
       && PrintedCount(data, f[4], m.counts.newNodes) && PrintedCount(data, f[5], m.counts.deletedNodes)
       && PrintedCount(data, f[6], m.counts.modifiedNodes) && PrintedCount(data, f[7], m.counts.deltaKey)
       && f[8].values == [Flag(m.counts.forward)] && PrintedCount(data, f[9], m.counts.identifier)
  }

  // The mark the partition names, and the bytes of both nodes.
  ghost predicate IsPrefix(data: Bytes, n: DecodedNode, defs: seq<FieldDefinition>, p: DeltaPartition, x: DeltaPrefix) {
    && IsMarkNode(data, n, defs, x.mark) && n.body.index == p.currentMark
    && x.partition == p && x.offset == p.offset && x.offset + x.size == n.offset + n.size
  }

  // The fields of a node that are not status-framed, as printed.
  ghost predicate Printed(data: Bytes, n: DecodedNode, defs: seq<FieldDefinition>) {
    exists pos, budget :: PrintedFrom(data, n.body.fields, defs, pos, n.body.variableLength, budget)
  }

  ghost predicate PrintedFrom(data: Bytes, fields: seq<DecodedField>, defs: seq<FieldDefinition>, pos: nat,
                              length: Option<nat>, budget: nat) {
    AreDecoded(fields, pos, defs, 0, length, false, budget) && PrefixAt(PrintDecoded(defs, false, fields), data, pos)
  }

  // ---------------------------------------------------------------- one field

  ghost predicate FieldPrinted(data: Bytes, f: DecodedField, defs: seq<FieldDefinition>, i: nat, length: Option<nat>)
    requires i < |defs|
  {
    IsDecodedField(f, f.offset, defs, i, length, false) && PrefixAt(PrintFieldValues(defs, false, f), data, f.offset)
  }

  lemma {:induction false} FieldAt(data: Bytes, fields: seq<DecodedField>, pos: nat, defs: seq<FieldDefinition>, i: nat,
                                   length: Option<nat>, budget: nat, k: nat)
    requires AreDecoded(fields, pos, defs, i, length, false, budget) && k < |fields|
    requires PrefixAt(PrintDecoded(defs, false, fields), data, pos)
    ensures i + k < |defs| && FieldPrinted(data, fields[k], defs, i + k, length)
    decreases |fields|
  {
    hide IsDecodedField, PrintFieldValues, PrefixAt;
    var f := fields[0];
    PrefixSplit(PrintFieldValues(defs, false, f), PrintDecoded(defs, false, fields[1..]), data, pos);
    FieldPlace(f, pos, defs, i, length);
    if k > 0 {
      FieldAt(data, fields[1..], pos + f.size, defs, i + 1, length, budget - |f.values|, k - 1);
    }
  }

  lemma FieldPlace(f: DecodedField, pos: nat, defs: seq<FieldDefinition>, i: nat, length: Option<nat>)
    requires i < |defs| && IsDecodedField(f, pos, defs, i, length, false)
    ensures f.offset == pos && f.size == |PrintFieldValues(defs, false, f)|
  {
  }

  // A field that occurs once holds one value of its type.
  lemma SingleField(data: Bytes, f: DecodedField, defs: seq<FieldDefinition>, i: nat, length: Option<nat>)
    requires i < |defs| && FieldPrinted(data, f, defs, i, length)
    requires defs[i].elements == 0 && defs[i].transmitted && defs[i].fieldType in {Pointer, Integer, Logical}
    ensures |f.values| == 1 && IsScalar(defs[i].fieldType, false, f.values[0])
    ensures PrefixAt(PrintScalar(defs[i].fieldType, f.values[0]), data, f.offset)
  {
    hide IsScalar, PrintScalar, PrefixAt;
    assert Product(1, 1) == 1;
    assert FieldValues(defs[i], length, false) == 1;
    var t, v := defs[i].fieldType, f.values[0];
    assert f.values[1..] == [] && PrintValues(t, false, [], []) == [];
    assert PrintValues(t, false, f.values, f.statuses) == PrintScalar(t, v);
  }

  lemma IntegerField(data: Bytes, f: DecodedField, defs: seq<FieldDefinition>, i: nat, length: Option<nat>, count: nat)
    requires i < |defs| && FieldPrinted(data, f, defs, i, length)
    requires defs[i].elements == 0 && defs[i].transmitted && defs[i].fieldType == Integer
    ensures DeltaWord(data, f).Ok?
    ensures DeltaWord(data, f) == Ok(count) <==> PrintedCount(data, f, count)
  {
    hide FieldPrinted, ReadAt, PrefixAt, Print, Power256;
    SingleField(data, f, defs, i, length);
    var stored := ToStored(Integer, f.values[0]);
    Powers();
    ReadIff(data, f.offset, 4, stored);
    ReadIff(data, f.offset, 4, count);
    StoredCount(f.values[0]);
  }

  lemma StoredCount(v: ScalarValue)
    requires IsScalar(Integer, false, v)
    ensures (v.Null? || v.Signed?) && ToStored(Integer, v) == CountOf(v) < 0x1_0000_0000
  {
    hide Power256;
    Powers();
  }

  lemma PointerField(data: Bytes, f: DecodedField, defs: seq<FieldDefinition>, i: nat, length: Option<nat>, index: nat)
    requires i < |defs| && FieldPrinted(data, f, defs, i, length)
    requires defs[i].elements == 0 && defs[i].transmitted && defs[i].fieldType == Pointer
    ensures DeltaReference(f) == index <==> PointsAt(f, index)
  {
    hide FieldPrinted, PrefixAt, PrintScalar;
    SingleField(data, f, defs, i, length);
  }

  lemma LogicalField(data: Bytes, f: DecodedField, defs: seq<FieldDefinition>, i: nat, length: Option<nat>, b: bool)
    requires i < |defs| && FieldPrinted(data, f, defs, i, length)
    requires defs[i].elements == 0 && defs[i].transmitted && defs[i].fieldType == Logical
    ensures DeltaFlag(f) == b <==> f.values == [Flag(b)]
  {
    hide FieldPrinted, PrefixAt, PrintScalar;
    SingleField(data, f, defs, i, length);
  }

  // ---------------------------------------------------------------- reading both nodes

  lemma PartitionIff(data: Bytes, n: DecodedNode, defs: seq<FieldDefinition>, p: DeltaPartition)
    requires |n.body.fields| == |defs| && n.nodeType == PARTITION_TYPE && Printed(data, n, defs)
    ensures ReadDeltaPartition(data, n, defs) == Ok(p) <==> IsPartition(data, n, defs, p)
  {
    hide FieldPrinted, PrintedCount, DeltaWord, DeltaReference, PointsAt, AreDecoded, PrefixAt, Ascii;
    if defs == DeltaLayout(PARTITION_TYPE) {
      var pos, budget :| PrintedFrom(data, n.body.fields, defs, pos, n.body.variableLength, budget);
      var f, length := n.body.fields, n.body.variableLength;
      FieldAt(data, f, pos, defs, 0, length, budget, 0);
      FieldAt(data, f, pos, defs, 0, length, budget, 1);
      PointerField(data, f[0], defs, 0, length, p.currentMark);
      IntegerField(data, f[1], defs, 1, length, p.highestId);
    }
  }

  lemma MarkFields(data: Bytes, n: DecodedNode, defs: seq<FieldDefinition>, m: Mark)
    requires |n.body.fields| == |defs| && n.nodeType == MARK_NODE_TYPE && Printed(data, n, defs)
    requires defs == DeltaLayout(MARK_NODE_TYPE)
    ensures var f := n.body.fields;
      && (forall k :: k in {4, 5, 6, 7, 9} ==> DeltaWord(data, f[k]).Ok?)
      && (IsMarkNode(data, n, defs, m) <==>
            && m.offset == n.offset
            && m.links == Links(n.body.index, DeltaReference(f[0]), DeltaReference(f[1]), DeltaReference(f[2]),
                                DeltaReference(f[3]))
            && m.counts == Counts(DeltaWord(data, f[4]).value, DeltaWord(data, f[5]).value,
                                  DeltaWord(data, f[6]).value, DeltaWord(data, f[7]).value, DeltaFlag(f[8]),
                                  DeltaWord(data, f[9]).value))
  {
    hide FieldPrinted, PrintedCount, DeltaWord, DeltaReference, DeltaFlag, PointsAt, AreDecoded, PrefixAt, Ascii;
    var pos, budget :| PrintedFrom(data, n.body.fields, defs, pos, n.body.variableLength, budget);
    var f, length := n.body.fields, n.body.variableLength;
    forall k | 0 <= k < 10
      ensures FieldPrinted(data, f[k], defs, k, length)
    {
      FieldAt(data, f, pos, defs, 0, length, budget, k);
    }
    PointerField(data, f[0], defs, 0, length, m.links.preceding);
    PointerField(data, f[1], defs, 1, length, m.links.firstFollowing);
    PointerField(data, f[2], defs, 2, length, m.links.nextSibling);
    PointerField(data, f[3], defs, 3, length, m.links.prevSibling);
    IntegerField(data, f[4], defs, 4, length, m.counts.newNodes);
    IntegerField(data, f[5], defs, 5, length, m.counts.deletedNodes);
    IntegerField(data, f[6], defs, 6, length, m.counts.modifiedNodes);
    IntegerField(data, f[7], defs, 7, length, m.counts.deltaKey);
    LogicalField(data, f[8], defs, 8, length, m.counts.forward);
    IntegerField(data, f[9], defs, 9, length, m.counts.identifier);
  }

  lemma PrefixIff(data: Bytes, partition: DeltaPartition, n: DecodedNode, defs: seq<FieldDefinition>, x: DeltaPrefix)
    requires |n.body.fields| == |defs| && n.nodeType == MARK_NODE_TYPE && partition.offset <= n.offset
    requires Printed(data, n, defs)
    ensures ReadDeltaPrefix(data, partition, n, defs) == Ok(x) <==> IsPrefix(data, n, defs, partition, x)
  {
    hide IsMarkNode, DeltaWord, DeltaReference, DeltaFlag, Printed;
    if defs == DeltaLayout(MARK_NODE_TYPE) {
      MarkFields(data, n, defs, x.mark);
      SameLayout(n.body.fields, defs);
    } else {
      NotMark(data, n, defs, x.mark);
    }
  }

  lemma NotMark(data: Bytes, n: DecodedNode, defs: seq<FieldDefinition>, m: Mark)
    ensures IsMarkNode(data, n, defs, m) ==> defs == DeltaLayout(MARK_NODE_TYPE)
  {
  }

  lemma SameLayout(fields: seq<DecodedField>, defs: seq<FieldDefinition>)
    requires |fields| == |defs| && defs == DeltaLayout(MARK_NODE_TYPE)
    ensures |fields| == 10
  {
  }

  // ---------------------------------------------------------------- administration

  // The administration after a node: its own, or what was known before.
  ghost predicate Administered(data: Bytes, c: Context, s: State, n: DecodedNode, defs: seq<FieldDefinition>,
                               partition: Option<DeltaPartition>, prefix: Option<DeltaPrefix>) {
    if !AwaitsPrefix(c, s) then partition == s.partition && prefix == s.prefix
    else if s.partition.None? then
      partition.Some? && IsPartition(data, n, defs, partition.value) && prefix == s.prefix
    else partition == s.partition && prefix.Some? && IsPrefix(data, n, defs, s.partition.value, prefix.value)
  }

  lemma AdministrationIff(data: Bytes, c: Context, s: State, n: DecodedNode, defs: seq<FieldDefinition>,
                          partition: Option<DeltaPartition>, prefix: Option<DeltaPrefix>)
    requires |n.body.fields| == |defs|
    requires AwaitsPrefix(c, s) ==> n.nodeType == AwaitedType(s) && Printed(data, n, defs)
    requires s.partition.Some? ==> s.partition.value.offset <= n.offset
    ensures Administration(data, c, s, n, defs) == Ok((partition, prefix))
       <==> Administered(data, c, s, n, defs, partition, prefix)
  {
    hide ReadDeltaPartition, ReadDeltaPrefix, IsPartition, IsPrefix, Printed;
    if AwaitsPrefix(c, s) {
      if s.partition.None? {
        if partition.Some? {
          PartitionIff(data, n, defs, partition.value);
        }
      } else if prefix.Some? {
        PrefixIff(data, s.partition.value, n, defs, prefix.value);
      }
    }
  }

  lemma BodyPrinted(data: Bytes, b: Body, pos: nat, defs: seq<FieldDefinition>, taken: set<int>, fields: nat,
                    budget: nat)
    requires IsBody(b, pos, defs, false, taken, fields, budget) && PrefixAt(PrintBody(b, defs, false), data, pos)
    ensures PrintedFrom(data, b.fields, defs, pos + |PrintLength(b.variableLength)| + |PrintIndex(b.index)|,
                        b.variableLength, budget)
  {
    hide PrintLength, PrintIndex, PrintDecoded, AreDecoded, PrefixAt;
    var length, index := PrintLength(b.variableLength), PrintIndex(b.index);
    var decoded := PrintDecoded(defs, false, b.fields);
    PrefixSplit(length, index + decoded, data, pos);
    PrefixSplit(index, decoded, data, pos + |length|);
  }

  lemma NodeInPrinted(data: Bytes, c: Context, s: State, t: nat, pos: nat, body: Body, n: DecodedNode)
    requires t in s.resolved && s.resolved[t] < |s.schemas| && pos <= |data| && n.body == body
    requires s.decodedFields <= c.limits.maxTotalFields && s.values <= c.limits.maxValues
    requires BodyIn(data, c, s, t, pos) == Ok(body) && AwaitsPrefix(c, s)
    ensures Printed(data, n, SchemaOf(s, t))
  {
    hide BodyAt, PrefixAt, IsBody, PrintBody, PrintedFrom;
    var fields, budget := c.limits.maxTotalFields - s.decodedFields, c.limits.maxValues - s.values;
    BodyIff(data, pos, SchemaOf(s, t), false, s.indices, fields, budget, body);
    BodyPrinted(data, body, pos, SchemaOf(s, t), s.indices, fields, budget);
  }

  // ---------------------------------------------------------------- over a whole run

  ghost predicate FirstNode(data: Bytes, schemas: seq<ResolvedSchema>, n: DecodedNode, first: nat, p: DeltaPartition) {
    && n.schemaIndex < |schemas| && n.offset == first && !n.framed
    && IsPartition(data, n, schemas[n.schemaIndex].definition.fields, p)
  }

  ghost predicate SecondNode(data: Bytes, schemas: seq<ResolvedSchema>, n: DecodedNode, at: nat, p: DeltaPartition,
                             x: DeltaPrefix) {
    && n.schemaIndex < |schemas| && n.offset == at && !n.framed
    && IsPrefix(data, n, schemas[n.schemaIndex].definition.fields, p, x)
  }

  // The only two nodes without status framing are the partition and its mark,
  // one after the other.
  ghost predicate StartsWith(data: Bytes, schemas: seq<ResolvedSchema>, nodes: seq<DecodedNode>, first: nat,
                             x: DeltaPrefix) {
    && |nodes| == 2 && FirstNode(data, schemas, nodes[0], first, x.partition)
    && SecondNode(data, schemas, nodes[1], nodes[0].offset + nodes[0].size, x.partition, x)
  }

  ghost predicate Started(data: Bytes, c: Context, s: State) {
    if !c.header.deltas then s.partition == None && s.prefix == None
    else if s.prefix.Some? then
      s.partition == Some(s.prefix.value.partition)
      && StartsWith(data, s.schemas, s.nodes, c.header.bodyOffset, s.prefix.value)
    else
      && s.deltaNodes == [] && s.packets == []
      && if s.partition.None? then s.nodes == [] && s.decodedEnd == c.header.bodyOffset
         else
           && |s.nodes| == 1 && s.decodedEnd == s.nodes[0].offset + s.nodes[0].size
           && FirstNode(data, s.schemas, s.nodes[0], c.header.bodyOffset, s.partition.value)
  }

  lemma SchemaStarted(data: Bytes, c: Context, s: State, t: nat, schema: ResolvedSchema)
    requires Started(data, c, s)
    ensures Started(data, c, AddSchema(s, t, schema))
  {
    hide IsPartition, IsPrefix;
  }

  lemma PacketStarted(data: Bytes, c: Context, s: State, p: Packet)
    requires Started(data, c, s) && s.prefix.Some?
    ensures Started(data, c, AddPacket(s, p))
  {
    hide IsPartition, IsPrefix;
  }

  lemma NodeStarted(data: Bytes, c: Context, s: State, n: DecodedNode, next: State)
    requires Started(data, c, s) && n.framed == Framed(c, s) && n.schemaIndex < |s.schemas| && n.offset == s.decodedEnd
    requires Administered(data, c, s, n, s.schemas[n.schemaIndex].definition.fields, next.partition, next.prefix)
    requires next == AddNode(s, n).(partition := next.partition, prefix := next.prefix)
    ensures Started(data, c, next)
  {
    hide IsPartition, IsMarkNode, ValueTotal;
    PartitionPlace(data, s, n, next.partition);
  }

  lemma PartitionPlace(data: Bytes, s: State, n: DecodedNode, partition: Option<DeltaPartition>)
    requires n.schemaIndex < |s.schemas|
    ensures partition.Some? && IsPartition(data, n, s.schemas[n.schemaIndex].definition.fields, partition.value) ==>
      partition.value.offset == n.offset
  {
  }

  lemma NodeInStarted(data: Bytes, c: Context, s: State, t: nat, pos: nat)
    requires Consistent(data, c, s) && Room(data, c, s, t) && t in s.resolved && s.decodedEnd <= pos <= |data|
    requires Started(data, c, s)
    ensures var r := NodeIn(data, c, s, t, pos); r.Ok? ==> Started(data, c, r.value)
  {
    hide Consistent, PrefixAt, Administration, Administered, AddNode, PrintBody, BodyIn, Started, AwaitsPrefix;
    ResolvedIn(data, c, s);
    var r := NodeIn(data, c, s, t, pos);
    if r.Ok? {
      var body := BodyIn(data, c, s, t, pos).value;
      var n := NodeOf(c, s, t, pos, body);
      if AwaitsPrefix(c, s) {
        NodeInPrinted(data, c, s, t, pos, body, n);
      }
      var administration := Administration(data, c, s, n, SchemaOf(s, t)).value;
      AdministrationIff(data, c, s, n, SchemaOf(s, t), administration.0, administration.1);
      NodeStarted(data, c, s, n, r.value);
    }
  }

  lemma ResolvedIn(data: Bytes, c: Context, s: State)
    requires Consistent(data, c, s)
    ensures forall t :: t in s.resolved ==> s.resolved[t] < |s.schemas|
    ensures s.decodedFields <= c.limits.maxTotalFields && s.values <= c.limits.maxValues
    ensures s.partition.Some? ==> s.partition.value.offset <= s.decodedEnd
  {
    hide Replay;
  }

  lemma NodeAtStarted(data: Bytes, c: Context, s: State, t: nat)
    requires Ready(data, c, s) && Room(data, c, s, t) && Started(data, c, s)
    ensures Started(data, c, NodeAt(data, c, s, t).state)
  {
    hide Consistent, PrefixAt, PrintDefinition, AddSchema, NodeIn, SchemaAt, Started;
    RoomFits(data, c, s, t);
    if t in s.resolved {
      NodeInStarted(data, c, s, t, s.decodedEnd + 2);
    } else {
      SchemaReady(data, c, s, t);
      var schema := SchemaAt(data, c, s, t);
      if schema.Ok? {
        SchemaStarted(data, c, s, t, schema.value);
        NodeInStarted(data, c, AddSchema(s, t, schema.value), t, s.decodedEnd + 2 + |PrintDefinition(schema.value)|);
      }
    }
  }

  lemma RoomFits(data: Bytes, c: Context, s: State, t: nat)
    requires Room(data, c, s, t)
    ensures s.decodedEnd + 2 <= |data|
  {
  }

  lemma StepStarted(data: Bytes, c: Context, s: State)
    requires Ready(data, c, s) && Started(data, c, s) && forall b :: b in c.bases ==> c.bases[b].nodeType == b
    ensures Started(data, c, Step(data, c, s).state)
  {
    hide Consistent, NodeAt, ReadAt, IndexAt, PrintIndex, PrefixAt, PacketAt, Print, AddPacket, Started;
    ReadFits(data, s.decodedEnd, 2);
    var r := ReadAt(data, s.decodedEnd, 2);
    if r.Ok? {
      ReadIff(data, s.decodedEnd, 2, r.value);
      if r.value == 1 {
        var p := PacketIn(data, c, s);
        if p.Ok? {
          PacketStarted(data, c, s, p.value);
        }
      } else if Room(data, c, s, r.value) {
        NodeAtStarted(data, c, s, r.value);
      }
    }
  }

  lemma {:induction false} RunStarted(data: Bytes, c: Context, s: State)
    requires Ready(data, c, s) && Started(data, c, s) && forall b :: b in c.bases ==> c.bases[b].nodeType == b
    ensures Started(data, c, Run(data, c, s).state)
    decreases |data| - s.decodedEnd
  {
    hide Consistent, Step, Started;
    StepReady(data, c, s);
    StepStarted(data, c, s);
    var o := Step(data, c, s);
    if o.result == Ok(None) {
      RunStarted(data, c, o.state);
    }
  }

  lemma NothingStarted(data: Bytes, c: Context, s: State)
    requires s == State([], [], [], [], None, None, map[], {}, 0, 0, 0, 0, c.header.bodyOffset)
    ensures Started(data, c, s)
  {
  }
}
