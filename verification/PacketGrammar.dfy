// Which packet stands at an offset, in terms of printed bytes alone.
module PacketGrammar {
  import opened Results
  import opened BinaryReader
  import opened DeltaPackets

  // ---------------------------------------------------------------- more entries than the cap

  // As many map entries as the cap allows, and one more begins.
  ghost predicate EntriesPast(data: Bytes, pos: nat, maximum: nat, limit: nat, references: seq<Reference>, index: nat) {
    && |references| == limit && References(references, pos, maximum)
    && PrefixAt(PrintReferences(references) + PrintIndex(index), data, pos) && index != 0 && IsIndex(index)
  }

  ghost predicate MapPast(data: Bytes, pos: nat, maximum: nat, limit: nat) {
    exists references, index :: EntriesPast(data, pos, maximum, limit, references, index)
  }

  lemma {:induction false} MapPastIff(data: Bytes, pos: nat, maximum: nat, limit: nat, empty: bool)
    ensures MapTailAt(data, pos, maximum, limit, empty) == Err(ResourceLimit) <==> MapPast(data, pos, maximum, limit)
    decreases limit
  {
    hide IndexAt, ReadAt, PrintIndex, TypeInRange, EntriesPast;
    if MapTailAt(data, pos, maximum, limit, empty) == Err(ResourceLimit) {
      MapPastFound(data, pos, maximum, limit, empty);
    }
    forall references, index | EntriesPast(data, pos, maximum, limit, references, index)
      ensures MapTailAt(data, pos, maximum, limit, empty) == Err(ResourceLimit)
    {
      MapPastFails(data, pos, maximum, limit, empty, references, index);
    }
  }

  lemma ReadError(data: Bytes, pos: nat, width: nat)
    requires width <= 8
    ensures ReadAt(data, pos, width) != Err(ResourceLimit) && IndexAt(data, pos) != Err(ResourceLimit)
    ensures LogicalAt(data, pos) != Err(ResourceLimit)
  {
  }

  lemma {:induction false} MapPastFound(data: Bytes, pos: nat, maximum: nat, limit: nat, empty: bool)
    requires MapTailAt(data, pos, maximum, limit, empty) == Err(ResourceLimit)
    ensures MapPast(data, pos, maximum, limit)
    decreases limit
  {
    hide IndexAt, ReadAt, PrintIndex, TypeInRange, IsIndex, PrefixAt, Print;
    ReadError(data, pos, 2);
    var index := IndexAt(data, pos).value;
    var next := pos + |PrintIndex(index)|;
    IndexIff(data, pos, index);
    ReadError(data, next, 2);
    ReadError(data, next + 2, 2);
    if limit == 0 {
      assert PrintReferences([]) + PrintIndex(index) == PrintIndex(index);
      assert EntriesPast(data, pos, maximum, 0, [], index);
    } else {
      var nodeType := ReadAt(data, next, 2).value;
      ReadIff(data, next, 2, nodeType);
      MapPastFound(data, next + 2, maximum, limit - 1, false);
      var references, after :| EntriesPast(data, next + 2, maximum, limit - 1, references, after);
      EntryBefore(data, pos, maximum, limit, Reference(pos, next + 2 - pos, index, nodeType), references, after);
    }
  }

  lemma EntryBefore(data: Bytes, pos: nat, maximum: nat, limit: nat, r: Reference, references: seq<Reference>, after: nat)
    requires limit > 0
    ensures EntriesPast(data, pos, maximum, limit, [r] + references, after)
       <==> && r.offset == pos && r.index != 0 && IsIndex(r.index) && TypeInRange(r.nodeType, maximum)
            && r.size == |PrintIndex(r.index)| + 2
            && PrefixAt(PrintIndex(r.index), data, pos)
            && PrefixAt(Print(2, r.nodeType), data, pos + |PrintIndex(r.index)|)
            && EntriesPast(data, pos + |PrintIndex(r.index)| + 2, maximum, limit - 1, references, after)
  {
    hide PrintIndex, TypeInRange, IsIndex, PrefixAt, Print;
    var index, kind, rest := PrintIndex(r.index), Print(2, r.nodeType), PrintReferences(references) + PrintIndex(after);
    assert ([r] + references)[1..] == references;
    assert PrintReferences([r] + references) + PrintIndex(after) == index + (kind + rest);
    PrefixSplit(index, kind + rest, data, pos);
    PrefixSplit(kind, rest, data, pos + |index|);
  }

  lemma {:induction false} MapPastFails(data: Bytes, pos: nat, maximum: nat, limit: nat, empty: bool,
                                        references: seq<Reference>, index: nat)
    requires EntriesPast(data, pos, maximum, limit, references, index)
    ensures MapTailAt(data, pos, maximum, limit, empty) == Err(ResourceLimit)
    decreases limit
  {
    hide IndexAt, ReadAt, PrintIndex, IsIndex, PrefixAt, Print;
    if limit == 0 {
      assert PrintReferences([]) + PrintIndex(index) == PrintIndex(index);
      IndexIff(data, pos, index);
    } else {
      var r := references[0];
      assert references == [r] + references[1..];
      EntryBefore(data, pos, maximum, limit, r, references[1..], index);
      IndexIff(data, pos, r.index);
      TwoByteRange(r.nodeType);
      ReadIff(data, pos + |PrintIndex(r.index)|, 2, r.nodeType);
      MapPastFails(data, pos + |PrintIndex(r.index)| + 2, maximum, limit - 1, false, references[1..], index);
    }
  }

  // As many marks as the cap allows, and the type of one more.
  ghost predicate MarksBefore(data: Bytes, pos: nat, limit: nat, marks: seq<MarkOccurrence>) {
    && |marks| == limit && Marks(marks, pos) && PrefixAt(PrintMarks(marks) + MARK_TYPE, data, pos)
  }

  ghost predicate MarksPast(data: Bytes, pos: nat, limit: nat) {
    exists marks :: MarksBefore(data, pos, limit, marks)
  }

  lemma MarkBodyError(data: Bytes, pos: nat)
    ensures MarkBodyAt(data, pos) != Err(ResourceLimit)
  {
    hide IndexAt, ReadAt, LogicalAt, PrintIndex;
    forall p: nat
      ensures IndexAt(data, p) != Err(ResourceLimit) && ReadAt(data, p, 4) != Err(ResourceLimit)
      ensures LogicalAt(data, p) != Err(ResourceLimit)
    {
      ReadError(data, p, 4);
    }
  }

  lemma MarkThen(data: Bytes, pos: nat, limit: nat, m: MarkOccurrence, marks: seq<MarkOccurrence>)
    requires limit > 0
    ensures MarksBefore(data, pos, limit, [m] + marks)
       <==> && IsMark(m, pos) && PrefixAt(PrintMark(m.mark), data, pos)
            && MarksBefore(data, pos + m.size, limit - 1, marks)
  {
    hide PrintMark, PrefixAt, IsLinks, IsCounts;
    assert ([m] + marks)[1..] == marks;
    var rest := PrintMarks(marks) + MARK_TYPE;
    assert PrintMarks([m] + marks) + MARK_TYPE == PrintMark(m.mark) + rest;
    PrefixSplit(PrintMark(m.mark), rest, data, pos);
  }

  lemma NoMarks(data: Bytes, pos: nat)
    ensures MarksBefore(data, pos, 0, []) <==> PrefixAt(MARK_TYPE, data, pos)
  {
    assert PrintMarks([]) + MARK_TYPE == MARK_TYPE;
  }

  // The type of a mark stands before the first of the marks.
  lemma MarksStart(data: Bytes, pos: nat, limit: nat)
    requires MarksPast(data, pos, limit)
    ensures PrefixAt(MARK_TYPE, data, pos)
  {
    hide PrefixAt, PrintMark, IsMark;
    var marks :| MarksBefore(data, pos, limit, marks);
    if marks == [] {
      NoMarks(data, pos);
    } else {
      PrefixSplit(PrintMarks(marks), MARK_TYPE, data, pos);
      MarksAhead(data, pos, marks);
    }
  }

  lemma {:induction false} MarksPastFound(data: Bytes, pos: nat, limit: nat)
    requires MarksAt(data, pos, limit) == Err(ResourceLimit)
    ensures MarksPast(data, pos, limit)
    decreases limit
  {
    hide ReadAt, MarkBodyAt, PrefixAt, IsMark, PrintMark, MarksBefore;
    ReadError(data, pos, 2);
    MarkBodyError(data, pos);
    MarkTypeRead(data, pos);
    if limit == 0 {
      NoMarks(data, pos);
    } else {
      var m := MarkBodyAt(data, pos).value;
      MarkIff(data, pos, m);
      MarksPastFound(data, pos + m.size, limit - 1);
      var marks :| MarksBefore(data, pos + m.size, limit - 1, marks);
      MarkThen(data, pos, limit, m, marks);
    }
  }

  lemma {:induction false} MarksPastFails(data: Bytes, pos: nat, limit: nat, marks: seq<MarkOccurrence>)
    requires MarksBefore(data, pos, limit, marks)
    ensures MarksAt(data, pos, limit) == Err(ResourceLimit)
    decreases limit
  {
    hide ReadAt, MarkBodyAt, PrefixAt, IsMark, PrintMark, MarksBefore, Marks, PrintMarks;
    MarkTypeRead(data, pos);
    SameNumber(data, pos, limit, marks);
    if limit == 0 {
      NoMarks(data, pos);
    } else {
      var m := marks[0];
      assert marks == [m] + marks[1..];
      MarkThen(data, pos, limit, m, marks[1..]);
      MarkIff(data, pos, m);
      MarksPastFails(data, pos + m.size, limit - 1, marks[1..]);
      MarksStartsAt(data, pos + m.size, limit - 1, marks[1..]);
    }
  }

  lemma SameNumber(data: Bytes, pos: nat, limit: nat, marks: seq<MarkOccurrence>)
    requires MarksBefore(data, pos, limit, marks)
    ensures |marks| == limit
  {
  }

  lemma MarksStartsAt(data: Bytes, pos: nat, limit: nat, marks: seq<MarkOccurrence>)
    requires MarksBefore(data, pos, limit, marks)
    ensures PrefixAt(MARK_TYPE, data, pos)
  {
    hide MarksBefore, PrefixAt;
    MarksStart(data, pos, limit);
  }

  lemma MarksPastIff(data: Bytes, pos: nat, limit: nat)
    ensures MarksAt(data, pos, limit) == Err(ResourceLimit) <==> MarksPast(data, pos, limit)
  {
    hide MarksAt, MarksBefore;
    if MarksAt(data, pos, limit) == Err(ResourceLimit) {
      MarksPastFound(data, pos, limit);
    }
    forall marks | MarksBefore(data, pos, limit, marks)
      ensures MarksAt(data, pos, limit) == Err(ResourceLimit)
    {
      MarksPastFails(data, pos, limit, marks);
    }
  }

  // ---------------------------------------------------------------- the packet

  ghost predicate Stands(data: Bytes, p: Packet, offset: nat, maximum: nat, limit: nat) {
    IsPacket(data, p, offset, maximum, limit) && PrefixAt(PrintPacket(p), data, offset)
  }

  // The only reading of the bytes, or the only one before a possible node type.
  ghost predicate Preferred(data: Bytes, p: Packet, offset: nat, maximum: nat, limit: nat, sequential: bool) {
    forall q :: Stands(data, q, offset, maximum, limit) && q != p ==>
      && sequential && FollowingType(data, q, maximum) == Invalid
      && FollowingType(data, p, maximum) == InRange
  }

  ghost predicate PacketStands(data: Bytes, p: Packet, offset: nat, maximum: nat, limit: nat, sequential: bool) {
    && limit > 0 && 4 <= maximum <= 32767
    && Stands(data, p, offset, maximum, limit) && Preferred(data, p, offset, maximum, limit, sequential)
    && !MapPast(data, offset + 4, maximum, limit) && !MarksPast(data, offset + 4, limit)
  }

  lemma PacketStart(data: Bytes, p: Packet, offset: nat, maximum: nat, limit: nat)
    requires Stands(data, p, offset, maximum, limit)
    ensures PrefixAt(PACKET_PREFIX, data, offset)
    ensures p.kind == HistoricalMarks ==> PrefixAt(MARK_TYPE, data, offset + 4)
  {
    hide PrefixAt, PrintReferences, PrintMarks, IsMark, Marks, References, PrintIndex, Print;
    match p.kind
    case ReferenceMap =>
      var end := PrintIndex(0) + (Print(2, 0) + Print(2, Word(p.terminalWord)));
      PrefixSplit(PACKET_PREFIX, PrintReferences(p.references) + end, data, offset);
    case HistoricalMarks =>
      PrefixSplit(PACKET_PREFIX, PrintMarks(p.marks) + PrintHistoryTerminal(p.terminalWord), data, offset);
      MarksAhead(data, offset + 4, p.marks);
  }

  // Each kind has at most one reading.
  lemma StandsIff(data: Bytes, offset: nat, maximum: nat, limit: nat, p: Packet)
    requires PrefixAt(PACKET_PREFIX, data, offset)
    ensures Stands(data, p, offset, maximum, limit)
       <==> if p.kind == ReferenceMap then MapAt(data, offset, maximum, limit) == Ok(p)
            else HistoryAt(data, offset, limit) == Ok(p)
  {
    hide MapAt, HistoryAt, PrefixAt, IsPacket, PrintPacket;
    MapIff(data, offset, maximum, limit, p);
    HistoryIff(data, offset, maximum, limit, p);
  }

  lemma OverCap(data: Bytes, offset: nat, maximum: nat, limit: nat)
    ensures MapAt(data, offset, maximum, limit) == Err(ResourceLimit) <==> MapPast(data, offset + 4, maximum, limit)
    ensures HistoryAt(data, offset, limit) == Err(ResourceLimit) <==> MarksPast(data, offset + 4, limit)
  {
    hide MapTailAt, MarksAt, MapPast, MarksPast, TerminalAt;
    MapPastIff(data, offset + 4, maximum, limit, true);
    MarksPastIff(data, offset + 4, limit);
  }

  // Of both kinds, the reading of each kind.
  lemma Readings(data: Bytes, offset: nat, maximum: nat, limit: nat)
    requires PrefixAt(PACKET_PREFIX, data, offset)
    ensures var table, history := MapAt(data, offset, maximum, limit), HistoryAt(data, offset, limit);
      && (table.Ok? ==> table.value.kind == ReferenceMap && Stands(data, table.value, offset, maximum, limit))
      && (history.Ok? ==> history.value.kind == HistoricalMarks && Stands(data, history.value, offset, maximum, limit))
      && forall q :: Stands(data, q, offset, maximum, limit) ==> table == Ok(q) || history == Ok(q)
  {
    hide MapAt, HistoryAt, PrefixAt, IsPacket, PrintPacket, Stands;
    Kinds(data, offset, maximum, limit);
    var table, history := MapAt(data, offset, maximum, limit), HistoryAt(data, offset, limit);
    if table.Ok? {
      StandsIff(data, offset, maximum, limit, table.value);
    }
    if history.Ok? {
      StandsIff(data, offset, maximum, limit, history.value);
    }
    forall q | Stands(data, q, offset, maximum, limit)
      ensures table == Ok(q) || history == Ok(q)
    {
      StandsIff(data, offset, maximum, limit, q);
    }
  }

  lemma Kinds(data: Bytes, offset: nat, maximum: nat, limit: nat)
    ensures var table, history := MapAt(data, offset, maximum, limit), HistoryAt(data, offset, limit);
      && (table.Ok? ==> table.value.kind == ReferenceMap)
      && (history.Ok? ==> history.value.kind == HistoricalMarks)
  {
    hide MapTailAt, MarksAt, TerminalAt;
  }

  // What both grammars make of the bytes at `offset`.
  lemma BothReadings(data: Bytes, offset: nat, maximum: nat, limit: nat)
    requires PrefixAt(PACKET_PREFIX, data, offset)
    ensures var table, history := MapAt(data, offset, maximum, limit), HistoryAt(data, offset, limit);
      && (history.Ok? || history == Err(ResourceLimit) ==> PrefixAt(MARK_TYPE, data, offset + 4))
      && (table == Err(ResourceLimit) <==> MapPast(data, offset + 4, maximum, limit))
      && (history == Err(ResourceLimit) <==> MarksPast(data, offset + 4, limit))
      && (table.Ok? && history.Ok? ==> table != history)
  {
    hide MapAt, HistoryAt, PrefixAt, Stands, MapPast, MarksPast;
    OverCap(data, offset, maximum, limit);
    Readings(data, offset, maximum, limit);
    var history := HistoryAt(data, offset, limit);
    if history.Ok? {
      PacketStart(data, history.value, offset, maximum, limit);
    }
    if MarksPast(data, offset + 4, limit) {
      MarksStart(data, offset + 4, limit);
    }
  }

  // The choice between both readings, without a cap in the way.
  lemma Chosen(data: Bytes, offset: nat, maximum: nat, limit: nat, sequential: bool, p: Packet)
    requires PrefixAt(PACKET_PREFIX, data, offset)
    requires MapAt(data, offset, maximum, limit) != Err(ResourceLimit) && HistoryAt(data, offset, limit) != Err(ResourceLimit)
    ensures var history := if PrefixAt(MARK_TYPE, data, offset + 4) then Some(HistoryAt(data, offset, limit)) else None;
      Choose(data, MapAt(data, offset, maximum, limit), history, maximum, sequential) == Ok(p)
      <==> Stands(data, p, offset, maximum, limit) && Preferred(data, p, offset, maximum, limit, sequential)
  {
    hide MapAt, HistoryAt, PrefixAt, Stands, FollowingType, MapPast, MarksPast;
    BothReadings(data, offset, maximum, limit);
    Readings(data, offset, maximum, limit);
  }

  // A packet is accepted exactly when its printed bytes stand at the offset,
  // no grammar runs into the cap there, and it is the preferred reading.
  lemma PacketIff(data: Bytes, offset: nat, maximum: nat, limit: nat, sequential: bool, p: Packet)
    ensures PacketAt(data, offset, maximum, limit, sequential) == Ok(p)
       <==> PacketStands(data, p, offset, maximum, limit, sequential)
  {
    hide MapAt, HistoryAt, PrefixAt, Stands, Preferred, MapPast, MarksPast, FollowingType, ReadAt, Choose;
    Signature(data, offset);
    if Stands(data, p, offset, maximum, limit) {
      PacketStart(data, p, offset, maximum, limit);
    }
    if PrefixAt(PACKET_PREFIX, data, offset) {
      BothReadings(data, offset, maximum, limit);
      if MapAt(data, offset, maximum, limit) == Err(ResourceLimit) || HistoryAt(data, offset, limit) == Err(ResourceLimit) {
        CapReported(data, offset, maximum, limit, sequential, p);
      } else {
        Chosen(data, offset, maximum, limit, sequential, p);
      }
    }
  }

  lemma CapReported(data: Bytes, offset: nat, maximum: nat, limit: nat, sequential: bool, p: Packet)
    requires MapAt(data, offset, maximum, limit) == Err(ResourceLimit) ||
             (HistoryAt(data, offset, limit) == Err(ResourceLimit) && PrefixAt(MARK_TYPE, data, offset + 4))
    ensures PacketAt(data, offset, maximum, limit, sequential) != Ok(p)
  {
    hide MapAt, HistoryAt, PrefixAt, FollowingType, ReadAt;
  }
}
