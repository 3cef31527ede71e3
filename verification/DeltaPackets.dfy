// Delta packets: two grammars behind one prefix.
module DeltaPackets {
  import opened Results
  import opened BinaryReader

  datatype PacketKind = ReferenceMap | HistoricalMarks

  datatype Reference = Reference(offset: nat, size: nat, index: nat, nodeType: nat)

  datatype Links = Links(index: nat, preceding: nat, firstFollowing: nat, nextSibling: nat, prevSibling: nat)

  datatype Counts = Counts(
    newNodes: nat,
    deletedNodes: nat,
    modifiedNodes: nat,
    deltaKey: nat,
    forward: bool,
    identifier: nat)

  datatype Mark = Mark(offset: nat, links: Links, counts: Counts)

  datatype MarkOccurrence = MarkOccurrence(mark: Mark, size: nat)

  datatype Packet = Packet(
    kind: PacketKind,
    offset: nat,
    size: nat,
    terminalWord: Option<nat>,
    references: seq<Reference>,
    marks: seq<MarkOccurrence>)

  const PACKET_PREFIX: Bytes := [0, 1, 0, 1]

  const HISTORY_TERMINAL: Bytes := [0, 1, 0, 1, 0, 1, 0, 0, 0]

  // ---------------------------------------------------------------- printing

  function PrintReferences(references: seq<Reference>): Bytes {
    if references == [] then []
    else PrintIndex(references[0].index) + (Print(2, references[0].nodeType) + PrintReferences(references[1..]))
  }

  function PrintLinks(l: Links): (bytes: Bytes)
    ensures |bytes| >= 10
  {
    PrintIndex(l.index) + (PrintIndex(l.preceding) + (PrintIndex(l.firstFollowing)
    + (PrintIndex(l.nextSibling) + PrintIndex(l.prevSibling))))
  }

  function PrintCounts(c: Counts): (bytes: Bytes)
    ensures |bytes| == 21
  {
    Print(4, c.newNodes) + (Print(4, c.deletedNodes) + (Print(4, c.modifiedNodes)
    + (Print(4, c.deltaKey) + (PrintLogical(c.forward) + Print(4, c.identifier)))))
  }

  function PrintMark(m: Mark): Bytes {
    Print(2, 4) + (PrintLinks(m.links) + PrintCounts(m.counts))
  }

  function PrintMarks(marks: seq<MarkOccurrence>): Bytes {
    if marks == [] then [] else PrintMark(marks[0].mark) + PrintMarks(marks[1..])
  }

  function PrintHistoryTerminal(word: Option<nat>): Bytes {
    match word
    case None => []
    case Some(w) => HISTORY_TERMINAL + Print(1, w)
  }

  function PrintPacket(p: Packet): Bytes {
    match p.kind
    case ReferenceMap =>
      PACKET_PREFIX + (PrintReferences(p.references) + (PrintIndex(0) + (Print(2, 0) + Print(2, Word(p.terminalWord)))))
    case HistoricalMarks =>
      PACKET_PREFIX + (PrintMarks(p.marks) + PrintHistoryTerminal(p.terminalWord))
  }

  function Word(word: Option<nat>): nat {
    match word
    case None => 0
    case Some(w) => w
  }

  // ---------------------------------------------------------------- reference maps

  datatype MapTail = MapTail(references: seq<Reference>, word: nat, end: nat)

  predicate TypeInRange(nodeType: nat, maximum: nat) {
    2 <= nodeType <= 32767 && nodeType <= maximum
  }

  // The entries and terminal from `pos` on; `empty` while no entry was read.
  function MapTailAt(data: Bytes, pos: nat, maximum: nat, limit: nat, empty: bool): (r: Result<MapTail>)
    ensures r.Ok? ==> pos < r.value.end <= |data|
    decreases |data| - pos
  {
    var index :- IndexAt(data, pos);
    var next := pos + |PrintIndex(index)|;
    if index == 0 then
      var zero :- ReadAt(data, next, 2);
      if zero != 0 then Err(UnsupportedFormat)
      else
        var word :- ReadAt(data, next + 2, 2);
        if word == 0 && !empty then Err(UnsupportedFormat) else Ok(MapTail([], word, next + 4))
    else if limit == 0 then Err(ResourceLimit)
    else
      var nodeType :- ReadAt(data, next, 2);
      if !TypeInRange(nodeType, maximum) then Err(InvalidRecord)
      else
        var rest :- MapTailAt(data, next + 2, maximum, limit - 1, false);
        Ok(rest.(references := [Reference(pos, next + 2 - pos, index, nodeType)] + rest.references))
  }

  function MapAt(data: Bytes, offset: nat, maximum: nat, limit: nat): Result<Packet> {
    var tail :- MapTailAt(data, offset + 4, maximum, limit, true);
    Ok(Packet(ReferenceMap, offset, tail.end - offset, Some(tail.word), tail.references, []))
  }

  // Entries that follow each other from `pos`.
  predicate References(references: seq<Reference>, pos: nat, maximum: nat) {
    references == [] || (
      var r := references[0];
      && r.offset == pos && r.index != 0 && IsIndex(r.index) && TypeInRange(r.nodeType, maximum)
      && r.size == |PrintIndex(r.index)| + 2
      && References(references[1..], pos + r.size, maximum))
  }

  predicate IsMapTail(t: MapTail, pos: nat, maximum: nat, limit: nat, empty: bool) {
    && References(t.references, pos, maximum) && |t.references| <= limit
    && t.word < 65536 && ((t.references == [] && empty) || t.word != 0)
    && t.end == pos + |PrintReferences(t.references)| + 6
  }

  function PrintMapTail(t: MapTail): Bytes {
    PrintReferences(t.references) + (PrintIndex(0) + (Print(2, 0) + Print(2, t.word)))
  }

  lemma TwoByteRange(value: nat)
    ensures value < Power256(2) <==> value < 65536
  {
    assert Power256(1) == 256;
  }

  // The decoder accepts exactly the printed tails.
  lemma {:induction false} MapTailIff(data: Bytes, pos: nat, maximum: nat, limit: nat, empty: bool, t: MapTail)
    ensures MapTailAt(data, pos, maximum, limit, empty) == Ok(t)
       <==> IsMapTail(t, pos, maximum, limit, empty) && PrefixAt(PrintMapTail(t), data, pos)
    decreases |data| - pos
  {
    hide Print, PrintIndex, Power256, IndexAt, ReadAt, PrefixAt, IsIndex;
    TwoByteRange(t.word);
    TwoByteRange(0);
    if t.references == [] {
      MapEnd(data, pos, maximum, limit, empty, t);
    } else {
      var r := t.references[0];
      var next := pos + |PrintIndex(r.index)|;
      var rest := t.(references := t.references[1..]);
      IndexIff(data, pos, r.index);
      ReadIff(data, next, 2, r.nodeType);
      TwoByteRange(r.nodeType);
      MapSplit(data, pos, t);
      assert t.references == [r] + rest.references;
      if IndexAt(data, pos) == Ok(r.index) {
        IndexAdvances(data, pos, r.index);
        if limit > 0 {
          MapTailIff(data, next + 2, maximum, limit - 1, false, rest);
        }
      }
      if MapTailAt(data, pos, maximum, limit, empty) == Ok(t) {
        assert IndexAt(data, pos) == Ok(r.index);
      }
    }
  }

  lemma IndexAdvances(data: Bytes, pos: nat, v: nat)
    requires IndexAt(data, pos) == Ok(v)
    ensures pos + |PrintIndex(v)| <= |data|
  {
    IndexIff(data, pos, v);
  }

  lemma MapSplit(data: Bytes, pos: nat, t: MapTail)
    requires t.references != []
    ensures var r, rest := t.references[0], t.(references := t.references[1..]);
      var next := pos + |PrintIndex(r.index)|;
      && (PrefixAt(PrintMapTail(t), data, pos) <==>
            && PrefixAt(PrintIndex(r.index), data, pos) && PrefixAt(Print(2, r.nodeType), data, next)
            && PrefixAt(PrintMapTail(rest), data, next + 2))
      && |PrintReferences(t.references)| == |PrintIndex(r.index)| + 2 + |PrintReferences(rest.references)|
  {
    hide Print, PrintIndex, PrefixAt;
    var r, rest := t.references[0], t.(references := t.references[1..]);
    var end := PrintIndex(0) + (Print(2, 0) + Print(2, t.word));
    var index, kind, more := PrintIndex(r.index), Print(2, r.nodeType), PrintReferences(rest.references);
    assert PrintMapTail(t) == index + (kind + (more + end));
    PrefixSplit(index, kind + (more + end), data, pos);
    PrefixSplit(kind, more + end, data, pos + |index|);
  }

  lemma MapEnd(data: Bytes, pos: nat, maximum: nat, limit: nat, empty: bool, t: MapTail)
    requires t.references == []
    ensures MapTailAt(data, pos, maximum, limit, empty) == Ok(t)
       <==> IsMapTail(t, pos, maximum, limit, empty) && PrefixAt(PrintMapTail(t), data, pos)
  {
    hide Print, Power256, IndexAt, ReadAt, PrefixAt, TypeInRange;
    TwoByteRange(t.word);
    TwoByteRange(0);
    IndexIff(data, pos, 0);
    ReadIff(data, pos + 2, 2, 0);
    ReadIff(data, pos + 4, 2, t.word);
    var zero, word := Print(2, 0), Print(2, t.word);
    assert PrintMapTail(t) == PrintIndex(0) + (zero + word);
    PrefixSplit(PrintIndex(0), zero + word, data, pos);
    PrefixSplit(zero, word, data, pos + 2);
  }

  // A cap either changes nothing or is reported.
  lemma {:induction false} MapCap(data: Bytes, pos: nat, maximum: nat, limit: nat, more: nat, empty: bool)
    requires limit <= more
    ensures MapTailAt(data, pos, maximum, limit, empty) == MapTailAt(data, pos, maximum, more, empty)
      || MapTailAt(data, pos, maximum, limit, empty) == Err(ResourceLimit)
    decreases |data| - pos
  {
    hide PrintIndex, ReadAt, TypeInRange, IndexAt;
    var index := IndexAt(data, pos);
    if index.Ok? && index.value != 0 && limit > 0 {
      var next := pos + |PrintIndex(index.value)|;
      IndexAdvances(data, pos, index.value);
      MapCap(data, next + 2, maximum, limit - 1, more - 1, false);
    }
  }

  // ---------------------------------------------------------------- historical marks

  function LinksAt(data: Bytes, pos: nat): Result<Links> {
    var index :- IndexAt(data, pos);
    if index == 0 then Err(InvalidRecord)
    else
      var p1 := pos + |PrintIndex(index)|;
      var preceding :- IndexAt(data, p1);
      var p2 := p1 + |PrintIndex(preceding)|;
      var firstFollowing :- IndexAt(data, p2);
      var p3 := p2 + |PrintIndex(firstFollowing)|;
      var nextSibling :- IndexAt(data, p3);
      var p4 := p3 + |PrintIndex(nextSibling)|;
      var prevSibling :- IndexAt(data, p4);
      Ok(Links(index, preceding, firstFollowing, nextSibling, prevSibling))
  }

  function CountsAt(data: Bytes, pos: nat): Result<Counts> {
    var newNodes :- ReadAt(data, pos, 4);
    var deletedNodes :- ReadAt(data, pos + 4, 4);
    var modifiedNodes :- ReadAt(data, pos + 8, 4);
    var deltaKey :- ReadAt(data, pos + 12, 4);
    var forward :- LogicalAt(data, pos + 16);
    var identifier :- ReadAt(data, pos + 17, 4);
    Ok(Counts(newNodes, deletedNodes, modifiedNodes, deltaKey, forward, identifier))
  }

  predicate IsLinks(l: Links) {
    && l.index != 0 && IsIndex(l.index) && IsIndex(l.preceding) && IsIndex(l.firstFollowing)
    && IsIndex(l.nextSibling) && IsIndex(l.prevSibling)
  }

  predicate IsCounts(c: Counts) {
    && c.newNodes < Power256(4) && c.deletedNodes < Power256(4) && c.modifiedNodes < Power256(4)
    && c.deltaKey < Power256(4) && c.identifier < Power256(4)
  }

  lemma LinksIff(data: Bytes, pos: nat, l: Links)
    ensures LinksAt(data, pos) == Ok(l) <==> IsLinks(l) && PrefixAt(PrintLinks(l), data, pos)
  {
    hide IndexAt, PrintIndex, PrefixAt, IsIndex;
    var a, b, c := PrintIndex(l.index), PrintIndex(l.preceding), PrintIndex(l.firstFollowing);
    var d, e := PrintIndex(l.nextSibling), PrintIndex(l.prevSibling);
    var p1, p2 := pos + |a|, pos + |a| + |b|;
    var p3, p4 := p2 + |c|, p2 + |c| + |d|;
    IndexIff(data, pos, l.index);
    IndexIff(data, p1, l.preceding);
    IndexIff(data, p2, l.firstFollowing);
    IndexIff(data, p3, l.nextSibling);
    IndexIff(data, p4, l.prevSibling);
    PrefixSplit(a, b + (c + (d + e)), data, pos);
    PrefixSplit(b, c + (d + e), data, p1);
    PrefixSplit(c, d + e, data, p2);
    PrefixSplit(d, e, data, p3);
  }

  lemma CountsIff(data: Bytes, pos: nat, c: Counts)
    ensures CountsAt(data, pos) == Ok(c) <==> IsCounts(c) && PrefixAt(PrintCounts(c), data, pos)
  {
    hide ReadAt, Print, PrefixAt, LogicalAt, PrintLogical, Power256;
    var v, w, x, y := Print(4, c.newNodes), Print(4, c.deletedNodes), Print(4, c.modifiedNodes), Print(4, c.deltaKey);
    var f, z := PrintLogical(c.forward), Print(4, c.identifier);
    ReadIff(data, pos, 4, c.newNodes);
    ReadIff(data, pos + 4, 4, c.deletedNodes);
    ReadIff(data, pos + 8, 4, c.modifiedNodes);
    ReadIff(data, pos + 12, 4, c.deltaKey);
    LogicalIff(data, pos + 16, c.forward);
    ReadIff(data, pos + 17, 4, c.identifier);
    PrefixSplit(v, w + (x + (y + (f + z))), data, pos);
    PrefixSplit(w, x + (y + (f + z)), data, pos + 4);
    PrefixSplit(x, y + (f + z), data, pos + 8);
    PrefixSplit(y, f + z, data, pos + 12);
    PrefixSplit(f, z, data, pos + 16);
  }

  datatype MarkTail = MarkTail(marks: seq<MarkOccurrence>, end: nat)

  const MARK_TYPE: Bytes := [0, 4]

  // What follows the type of a mark at `pos`.
  function MarkBodyAt(data: Bytes, pos: nat): (r: Result<MarkOccurrence>)
    ensures r.Ok? ==> r.value.size > 0
  {
    var links :- LinksAt(data, pos + 2);
    var middle := 2 + |PrintLinks(links)|;
    var counts :- CountsAt(data, pos + middle);
    Ok(MarkOccurrence(Mark(pos, links, counts), middle + 21))
  }

  // At least one mark, and more as long as the mark type follows.
  function MarksAt(data: Bytes, pos: nat, limit: nat): (r: Result<MarkTail>)
    ensures r.Ok? ==> pos < r.value.end && r.value.marks != []
    decreases |data| - pos
  {
    var nodeType :- ReadAt(data, pos, 2);
    if nodeType != 4 then Err(InvalidRecord)
    else if limit == 0 then Err(ResourceLimit)
    else
      var mark :- MarkBodyAt(data, pos);
      var end := pos + mark.size;
      if PrefixAt(MARK_TYPE, data, end) then
        var rest :- MarksAt(data, end, limit - 1);
        Ok(rest.(marks := [mark] + rest.marks))
      else Ok(MarkTail([mark], end))
  }

  predicate TerminalAt(data: Bytes, pos: nat) {
    PrefixAt(HISTORY_TERMINAL, data, pos) && |data| - pos >= 10 && data[pos + 9] <= 1
  }

  function HistoryAt(data: Bytes, offset: nat, limit: nat): Result<Packet> {
    var tail :- MarksAt(data, offset + 4, limit);
    if TerminalAt(data, tail.end) then
      Ok(Packet(HistoricalMarks, offset, tail.end + 10 - offset, Some(data[tail.end + 9]), [], tail.marks))
    else Ok(Packet(HistoricalMarks, offset, tail.end - offset, None, [], tail.marks))
  }

  predicate IsMark(m: MarkOccurrence, pos: nat) {
    && m.mark.offset == pos && IsLinks(m.mark.links) && IsCounts(m.mark.counts)
    && m.size == |PrintMark(m.mark)|
  }

  // Marks that follow each other from `pos`.
  predicate Marks(marks: seq<MarkOccurrence>, pos: nat) {
    marks == [] || (IsMark(marks[0], pos) && Marks(marks[1..], pos + marks[0].size))
  }

  predicate IsMarkTail(data: Bytes, t: MarkTail, pos: nat, limit: nat) {
    && t.marks != [] && Marks(t.marks, pos) && |t.marks| <= limit && t.end == pos + |PrintMarks(t.marks)|
    && PrefixAt(PrintMarks(t.marks), data, pos) && !PrefixAt(MARK_TYPE, data, t.end)
  }

  lemma MarkTypeRead(data: Bytes, pos: nat)
    ensures ReadAt(data, pos, 2) == Ok(4) <==> PrefixAt(Print(2, 4), data, pos)
    ensures Print(2, 4) == MARK_TYPE
  {
    ReadIff(data, pos, 2, 4);
    TwoByteRange(4);
    assert Print(1, 0) == [0] by {
      assert Print(0, 0) == [];
    }
  }

  // Whether one mark stands at `pos`.
  lemma MarkIff(data: Bytes, pos: nat, m: MarkOccurrence)
    ensures (ReadAt(data, pos, 2) == Ok(4) && MarkBodyAt(data, pos) == Ok(m))
       <==> IsMark(m, pos) && PrefixAt(PrintMark(m.mark), data, pos)
  {
    hide ReadAt, LinksAt, CountsAt, PrintLinks, PrintCounts, Print, PrefixAt, IsLinks, IsCounts;
    var links, counts := PrintLinks(m.mark.links), PrintCounts(m.mark.counts);
    MarkTypeRead(data, pos);
    LinksIff(data, pos + 2, m.mark.links);
    CountsIff(data, pos + 2 + |links|, m.mark.counts);
    PrefixSplit(Print(2, 4), links + counts, data, pos);
    PrefixSplit(links, counts, data, pos + 2);
  }

  lemma MarksAhead(data: Bytes, pos: nat, marks: seq<MarkOccurrence>)
    requires marks != [] && PrefixAt(PrintMarks(marks), data, pos)
    ensures PrefixAt(MARK_TYPE, data, pos)
  {
    hide PrintLinks, PrintCounts, PrefixAt;
    var m := marks[0].mark;
    MarkTypeRead(data, pos);
    var body := PrintLinks(m.links) + PrintCounts(m.counts);
    PrefixSplit(PrintMark(m), PrintMarks(marks[1..]), data, pos);
    PrefixSplit(Print(2, 4), body, data, pos);
  }

  // The decoder accepts exactly the longest printed runs of marks.
  lemma {:induction false} MarksIff(data: Bytes, pos: nat, limit: nat, t: MarkTail)
    ensures MarksAt(data, pos, limit) == Ok(t) <==> IsMarkTail(data, t, pos, limit)
    decreases |data| - pos
  {
    hide ReadAt, MarkBodyAt, IsMark, PrintMark, PrefixAt, PrintMarks;
    if t.marks != [] {
      var m := t.marks[0];
      MarkIff(data, pos, m);
      MarksSplit(data, pos, t);
      assert t.marks == [m] + t.marks[1..];
      var end := pos + |PrintMark(m.mark)|;
      if limit > 0 && IsMark(m, pos) && PrefixAt(PrintMark(m.mark), data, pos) {
        MarkHasSize(m, pos);
        MarkFits(PrintMark(m.mark), data, pos);
        var rest := t.(marks := t.marks[1..]);
        MarksIff(data, end, limit - 1, rest);
        if PrefixAt(MARK_TYPE, data, end) {
          var next := MarksAt(data, end, limit - 1);
          if next.Ok? {
            assert ([m] + next.value.marks)[1..] == next.value.marks;
          }
          assert MarksAt(data, pos, limit) == Ok(t) <==> next == Ok(rest);
        } else {
          NothingAt(data, end);
          assert MarksAt(data, pos, limit) == Ok(MarkTail([m], end));
          assert t == MarkTail([m], end) <==> rest.marks == [] && t.end == end;
          if rest.marks == [] {
            assert Marks(rest.marks, pos + m.size);
            assert Marks(t.marks, pos);
            assert |t.marks| == 1;
            assert PrefixAt(PrintMarks(t.marks), data, pos);
            assert |PrintMarks(t.marks)| == |PrintMark(m.mark)|;
          }
        }
      }
    }
  }

  lemma NothingAt(data: Bytes, pos: nat)
    requires pos <= |data|
    ensures PrefixAt([], data, pos)
  {
  }

  lemma MarkFits(s: Bytes, data: Bytes, pos: nat)
    requires PrefixAt(s, data, pos)
    ensures pos + |s| <= |data|
  {
  }

  lemma MarkHasSize(m: MarkOccurrence, pos: nat)
    requires IsMark(m, pos)
    ensures m.size == |PrintMark(m.mark)| > 0
  {
  }

  lemma MarksSplit(data: Bytes, pos: nat, t: MarkTail)
    requires t.marks != []
    ensures var m, rest := t.marks[0].mark, t.marks[1..];
      && |PrintMarks(t.marks)| == |PrintMark(m)| + |PrintMarks(rest)|
      && (PrefixAt(PrintMarks(t.marks), data, pos) <==>
            PrefixAt(PrintMark(m), data, pos) && PrefixAt(PrintMarks(rest), data, pos + |PrintMark(m)|))
      && (rest != [] && PrefixAt(PrintMarks(rest), data, pos + |PrintMark(m)|)
          ==> PrefixAt(MARK_TYPE, data, pos + |PrintMark(m)|))
      && (rest == [] ==> PrintMarks(rest) == [])
  {
    hide PrintMark, PrefixAt;
    var m, rest := t.marks[0].mark, t.marks[1..];
    PrefixSplit(PrintMark(m), PrintMarks(rest), data, pos);
    if rest != [] && PrefixAt(PrintMarks(rest), data, pos + |PrintMark(m)|) {
      MarksAhead(data, pos + |PrintMark(m)|, rest);
    }
  }

  lemma {:induction false} MarksCap(data: Bytes, pos: nat, limit: nat, more: nat)
    requires limit <= more
    ensures MarksAt(data, pos, limit) == MarksAt(data, pos, more) || MarksAt(data, pos, limit) == Err(ResourceLimit)
    decreases |data| - pos
  {
    hide MarkBodyAt, PrefixAt;
    if limit > 0 && ReadAt(data, pos, 2) == Ok(4) {
      var mark := MarkBodyAt(data, pos);
      if mark.Ok? {
        MarksCap(data, pos + mark.value.size, limit - 1, more - 1);
      }
    }
  }

  // ---------------------------------------------------------------- packets

  predicate IsPacket(data: Bytes, p: Packet, offset: nat, maximum: nat, limit: nat) {
    && p.offset == offset && p.size == |PrintPacket(p)|
    && match p.kind
       case ReferenceMap =>
         && p.marks == [] && p.terminalWord.Some?
         && IsMapTail(MapTail(p.references, Word(p.terminalWord), offset + p.size), offset + 4, maximum, limit, true)
       case HistoricalMarks =>
         var end := offset + 4 + |PrintMarks(p.marks)|;
         && p.references == []
         && IsMarkTail(data, MarkTail(p.marks, end), offset + 4, limit)
         && p.terminalWord == if TerminalAt(data, end) then Some(data[end + 9]) else None
  }

  // Each grammar accepts exactly its printed packets.
  lemma MapIff(data: Bytes, offset: nat, maximum: nat, limit: nat, p: Packet)
    requires PrefixAt(PACKET_PREFIX, data, offset)
    ensures MapAt(data, offset, maximum, limit) == Ok(p)
       <==> p.kind == ReferenceMap && IsPacket(data, p, offset, maximum, limit) && PrefixAt(PrintPacket(p), data, offset)
  {
    hide PrefixAt, PrintReferences, References;
    var t := MapTail(p.references, Word(p.terminalWord), offset + p.size);
    MapTailIff(data, offset + 4, maximum, limit, true, t);
    PrefixSplit(PACKET_PREFIX, PrintMapTail(t), data, offset);
    if p.kind == ReferenceMap {
      assert PrintPacket(p) == PACKET_PREFIX + PrintMapTail(t);
      assert |PrintMapTail(t)| == |PrintReferences(p.references)| + 6;
    }
  }

  lemma HistoryIff(data: Bytes, offset: nat, maximum: nat, limit: nat, p: Packet)
    requires PrefixAt(PACKET_PREFIX, data, offset)
    ensures HistoryAt(data, offset, limit) == Ok(p)
       <==> p.kind == HistoricalMarks && IsPacket(data, p, offset, maximum, limit)
    ensures HistoryAt(data, offset, limit) == Ok(p) ==> PrefixAt(PrintPacket(p), data, offset)
  {
    hide PrefixAt, PrintMarks, TerminalAt, MarksAt, IsMarkTail, PrintHistoryTerminal;
    var end := offset + 4 + |PrintMarks(p.marks)|;
    MarksIff(data, offset + 4, limit, MarkTail(p.marks, end));
    TerminalSize(p.terminalWord);
    var tail := MarksAt(data, offset + 4, limit);
    if tail.Ok? {
      MarksIff(data, offset + 4, limit, tail.value);
      MarkTailFacts(data, tail.value, offset + 4, limit);
    }
    if p.kind == HistoricalMarks && IsMarkTail(data, MarkTail(p.marks, end), offset + 4, limit) {
      MarkTailFacts(data, MarkTail(p.marks, end), offset + 4, limit);
      TerminalPrinted(data, end);
      HistoryPrinted(data, offset, p);
    }
  }

  lemma TerminalSize(word: Option<nat>)
    ensures |PrintHistoryTerminal(word)| == if word.Some? then 10 else 0
  {
  }

  lemma MarkTailFacts(data: Bytes, t: MarkTail, pos: nat, limit: nat)
    requires IsMarkTail(data, t, pos, limit)
    ensures t.end == pos + |PrintMarks(t.marks)| <= |data| && PrefixAt(PrintMarks(t.marks), data, pos)
    ensures PrefixAt(PrintHistoryTerminal(None), data, t.end)
  {
  }

  lemma HistoryPrinted(data: Bytes, offset: nat, p: Packet)
    requires p.kind == HistoricalMarks && PrefixAt(PACKET_PREFIX, data, offset)
    requires PrefixAt(PrintMarks(p.marks), data, offset + 4)
    ensures PrefixAt(PrintHistoryTerminal(p.terminalWord), data, offset + 4 + |PrintMarks(p.marks)|)
      ==> PrefixAt(PrintPacket(p), data, offset)
  {
    hide PrefixAt, PrintMarks, PrintHistoryTerminal;
    PrefixSplit(PACKET_PREFIX, PrintMarks(p.marks) + PrintHistoryTerminal(p.terminalWord), data, offset);
    PrefixSplit(PrintMarks(p.marks), PrintHistoryTerminal(p.terminalWord), data, offset + 4);
  }

  lemma TerminalPrinted(data: Bytes, pos: nat)
    ensures TerminalAt(data, pos) ==>
      pos + 10 <= |data| && PrefixAt(PrintHistoryTerminal(Some(data[pos + 9])), data, pos)
  {
    if TerminalAt(data, pos) {
      var word := data[pos + 9];
      PrefixSplit(HISTORY_TERMINAL, Print(1, word), data, pos);
      assert Print(1, word) == [word] by {
        assert Print(0, word / 256) == [];
      }
      assert data[pos + 9..pos + 10] == [word];
    }
  }

  datatype Boundary = Unavailable | InRange | Invalid

  function FollowingType(data: Bytes, p: Packet, maximum: nat): Boundary {
    match ReadAt(data, p.offset + p.size, 2)
    case Err(_) => Unavailable
    case Ok(nodeType) => if 1 <= nodeType <= maximum then InRange else Invalid
  }

  // The decision between the two grammars.
  function Choose(data: Bytes, table: Result<Packet>, history: Option<Result<Packet>>, maximum: nat, sequential: bool):
    Result<Packet>
  {
    if table == Err(ResourceLimit) then table
    else if history == Some(Err(ResourceLimit)) then history.value
    else if table.Ok? && history.Some? && history.value.Ok? then
      var tableNext := FollowingType(data, table.value, maximum);
      var historyNext := FollowingType(data, history.value.value, maximum);
      if sequential && tableNext == Invalid && historyNext == InRange then history.value
      else if sequential && historyNext == Invalid && tableNext == InRange then table
      else if sequential && tableNext == Invalid && historyNext == Invalid then Err(InvalidRecord)
      else Err(UnsupportedFormat)
    else if history.Some? && history.value.Ok? then history.value
    else if table.Ok? then table
    else if history.Some? then history.value
    else table
  }

  function PacketAt(data: Bytes, offset: nat, maximum: nat, limit: nat, sequential: bool): Result<Packet> {
    if limit == 0 || maximum < 4 || maximum > 32767 then Err(InvalidOptions)
    else
      var signature :- ReadAt(data, offset, 4);
      if signature != 0x10001 then Err(UnsupportedFormat)
      else
        var history := if PrefixAt(MARK_TYPE, data, offset + 4) then Some(HistoryAt(data, offset, limit)) else None;
        Choose(data, MapAt(data, offset, maximum, limit), history, maximum, sequential)
  }

  // A smaller positive cap yields the same outcome or the cap's own error.
  lemma PacketCap(data: Bytes, offset: nat, maximum: nat, limit: nat, more: nat, sequential: bool)
    requires 0 < limit <= more
    ensures PacketAt(data, offset, maximum, limit, sequential) == PacketAt(data, offset, maximum, more, sequential)
      || PacketAt(data, offset, maximum, limit, sequential) == Err(ResourceLimit)
  {
    hide MapTailAt, MarksAt, TerminalAt, FollowingType, ReadAt, PrefixAt;
    MapCap(data, offset + 4, maximum, limit, more, true);
    MarksCap(data, offset + 4, limit, more);
  }

  lemma Signature(data: Bytes, offset: nat)
    ensures ReadAt(data, offset, 4) == Ok(0x10001) <==> PrefixAt(PACKET_PREFIX, data, offset)
  {
    assert Power256(4) == 0x1_0000_0000 by {
      assert Power256(3) == 256 * Power256(2);
      TwoByteRange(0);
      assert Power256(1) == 256;
    }
    ReadIff(data, offset, 4, 0x10001);
    assert Print(1, 0) == [0] by {
      assert Print(0, 0) == [];
    }
    assert Print(2, 1) == [0, 1];
    assert Print(3, 0x100) == [0, 1, 0];
  }

  // The other grammar at an accepted packet failed, or ends before an
  // impossible node type.
  predicate Excluded(data: Bytes, other: Result<Packet>, p: Packet, maximum: nat, sequential: bool) {
    other.Ok? ==>
      && sequential && FollowingType(data, other.value, maximum) == Invalid
      && FollowingType(data, p, maximum) == InRange
  }

  // An accepted packet is its canonical bytes, stays within the cap, and is the
  // only possible reading.
  lemma PacketAccepted(data: Bytes, offset: nat, maximum: nat, limit: nat, sequential: bool, p: Packet)
    requires PacketAt(data, offset, maximum, limit, sequential) == Ok(p)
    ensures IsPacket(data, p, offset, maximum, limit) && PrefixAt(PrintPacket(p), data, offset)
    ensures p.kind == ReferenceMap && PrefixAt(MARK_TYPE, data, offset + 4)
      ==> Excluded(data, HistoryAt(data, offset, limit), p, maximum, sequential)
    ensures p.kind == HistoricalMarks ==> Excluded(data, MapAt(data, offset, maximum, limit), p, maximum, sequential)
    ensures |p.references| + |p.marks| <= limit
  {
    hide MapAt, HistoryAt, FollowingType, PrefixAt, ReadAt, PrintPacket;
    Signature(data, offset);
    MapIff(data, offset, maximum, limit, p);
    HistoryIff(data, offset, maximum, limit, p);
    var table, history := MapAt(data, offset, maximum, limit), HistoryAt(data, offset, limit);
    if table.Ok? {
      MapIff(data, offset, maximum, limit, table.value);
    }
    if history.Ok? {
      HistoryIff(data, offset, maximum, limit, history.value);
    }
  }

  // ---------------------------------------------------------------- the readers

  function PrependReferences(references: seq<Reference>, r: Result<MapTail>): Result<MapTail> {
    match r
    case Err(error) => Err(error)
    case Ok(t) => Ok(t.(references := references + t.references))
  }

  method ReadMap(data: Bytes, offset: nat, maximum: nat, limit: nat) returns (r: Result<Packet>)
    ensures r == MapAt(data, offset, maximum, limit)
  {
    hide IndexAt, ReadAt, PrintIndex, TypeInRange;
    var cursor := new Cursor(data, offset + 4);
    var references: seq<Reference> := [];
    NothingPrepended(MapTailAt(data, cursor.pos, maximum, limit, true));
    while true
      invariant cursor.data == data && |references| <= limit
      invariant MapTailAt(data, offset + 4, maximum, limit, true)
             == PrependReferences(references, MapTailAt(data, cursor.pos, maximum, limit - |references|, references == []))
      decreases |data| - cursor.pos
    {
      var start := cursor.pos;
      var index :- cursor.Index();
      IndexAdvances(data, start, index);
      if index == 0 {
        var zero :- cursor.Read(2);
        if zero != 0 {
          return Err(UnsupportedFormat);
        }
        var word :- cursor.Read(2);
        if word == 0 && references != [] {
          return Err(UnsupportedFormat);
        }
        assert references + [] == references;
        return Ok(Packet(ReferenceMap, offset, cursor.pos - offset, Some(word), references, []));
      }
      if |references| >= limit {
        return Err(ResourceLimit);
      }
      var nodeType :- cursor.Read(2);
      if !TypeInRange(nodeType, maximum) {
        return Err(InvalidRecord);
      }
      var entry := Reference(start, cursor.pos - start, index, nodeType);
      PrependedOne(references, entry, MapTailAt(data, cursor.pos, maximum, limit - |references| - 1, false));
      references := references + [entry];
    }
  }

  lemma NothingPrepended(r: Result<MapTail>)
    ensures PrependReferences([], r) == r
  {
    if r.Ok? {
      assert [] + r.value.references == r.value.references;
    }
  }

  lemma PrependedOne(references: seq<Reference>, entry: Reference, r: Result<MapTail>)
    ensures PrependReferences(references + [entry], r) == PrependReferences(references, PrependReferences([entry], r))
  {
    if r.Ok? {
      assert references + [entry] + r.value.references == references + ([entry] + r.value.references);
    }
  }

  function PrependMarks(marks: seq<MarkOccurrence>, r: Result<MarkTail>): Result<MarkTail> {
    match r
    case Err(error) => Err(error)
    case Ok(t) => Ok(t.(marks := marks + t.marks))
  }

  lemma PrependedMark(marks: seq<MarkOccurrence>, mark: MarkOccurrence, r: Result<MarkTail>)
    ensures PrependMarks(marks + [mark], r) == PrependMarks(marks, PrependMarks([mark], r))
  {
    if r.Ok? {
      assert marks + [mark] + r.value.marks == marks + ([mark] + r.value.marks);
    }
  }

  lemma NoMarksPrepended(r: Result<MarkTail>)
    ensures PrependMarks([], r) == r
  {
    if r.Ok? {
      assert [] + r.value.marks == r.value.marks;
    }
  }

  // The links and counts of a mark whose type was just read.
  method ReadMarkBody(cursor: Cursor) returns (r: Result<MarkOccurrence>)
    requires cursor.pos >= 2
    modifies cursor`pos
    ensures r == MarkBodyAt(cursor.data, old(cursor.pos) - 2)
    ensures r.Ok? ==> cursor.pos == old(cursor.pos) - 2 + r.value.size
  {
    hide IndexAt, ReadAt, LogicalAt, PrintIndex, PrintLogical, Print;
    ghost var start: nat := cursor.pos - 2;
    ghost var data := cursor.data;
    var index :- cursor.Index();
    if index == 0 {
      return Err(InvalidRecord);
    }
    var preceding :- cursor.Index();
    var firstFollowing :- cursor.Index();
    var nextSibling :- cursor.Index();
    var prevSibling :- cursor.Index();
    var links := Links(index, preceding, firstFollowing, nextSibling, prevSibling);
    assert LinksAt(data, start + 2) == Ok(links);
    assert cursor.pos == start + 2 + |PrintLinks(links)|;
    var newNodes :- cursor.Read(4);
    var deletedNodes :- cursor.Read(4);
    var modifiedNodes :- cursor.Read(4);
    var deltaKey :- cursor.Read(4);
    var forward :- cursor.Logical();
    var identifier :- cursor.Read(4);
    var counts := Counts(newNodes, deletedNodes, modifiedNodes, deltaKey, forward, identifier);
    return Ok(MarkOccurrence(Mark(cursor.pos - 23 - |PrintLinks(links)|, links, counts), 23 + |PrintLinks(links)|));
  }

  method ReadHistory(data: Bytes, offset: nat, limit: nat) returns (r: Result<Packet>)
    ensures r == HistoryAt(data, offset, limit)
  {
    hide ReadAt, MarkBodyAt, PrefixAt, TerminalAt;
    var cursor := new Cursor(data, offset + 4);
    var marks: seq<MarkOccurrence> := [];
    var more := true;
    NoMarksPrepended(MarksAt(data, cursor.pos, limit));
    while more
      invariant cursor.data == data && |marks| <= limit && (!more ==> marks != [])
      invariant cursor.pos > offset
      invariant more ==>
        MarksAt(data, offset + 4, limit) == PrependMarks(marks, MarksAt(data, cursor.pos, limit - |marks|))
      invariant !more ==> MarksAt(data, offset + 4, limit) == Ok(MarkTail(marks, cursor.pos))
      decreases more, |data| - cursor.pos
    {
      var nodeType :- cursor.Read(2);
      if nodeType != 4 {
        return Err(InvalidRecord);
      }
      if |marks| >= limit {
        return Err(ResourceLimit);
      }
      var mark :- ReadMarkBody(cursor);
      ghost var rest := MarksAt(data, cursor.pos, limit - |marks| - 1);
      PrependedMark(marks, mark, rest);
      marks := marks + [mark];
      more := PrefixAt(MARK_TYPE, data, cursor.pos);
      if more {
        MarkFits(MARK_TYPE, data, cursor.pos);
      }
    }
    if TerminalAt(data, cursor.pos) {
      TerminalFits(data, cursor.pos);
      return Ok(Packet(HistoricalMarks, offset, cursor.pos + 10 - offset, Some(data[cursor.pos + 9]), [], marks));
    }
    return Ok(Packet(HistoricalMarks, offset, cursor.pos - offset, None, [], marks));
  }

  lemma TerminalFits(data: Bytes, pos: nat)
    requires TerminalAt(data, pos)
    ensures pos + 10 <= |data|
  {
  }

  method ReadPacket(data: Bytes, offset: nat, maximum: nat, limit: nat, sequential: bool) returns (r: Result<Packet>)
    ensures r == PacketAt(data, offset, maximum, limit, sequential)
  {
    hide ReadAt, PrefixAt, MapAt, HistoryAt, FollowingType;
    if limit == 0 || maximum < 4 || maximum > 32767 {
      return Err(InvalidOptions);
    }
    var prefix := new Cursor(data, offset);
    var signature :- prefix.Read(4);
    if signature != 0x10001 {
      return Err(UnsupportedFormat);
    }
    var table := ReadMap(data, offset, maximum, limit);
    var history := None;
    if PrefixAt(MARK_TYPE, data, offset + 4) {
      var marks := ReadHistory(data, offset, limit);
      history := Some(marks);
    }
    if table.Err? && table.error == ResourceLimit {
      return Err(table.error);
    }
    if history.Some? && history.value.Err? && history.value.error == ResourceLimit {
      return Err(history.value.error);
    }
    if table.Ok? && history.Some? && history.value.Ok? {
      if sequential {
        var tableNext := FollowingType(data, table.value, maximum);
        var historyNext := FollowingType(data, history.value.value, maximum);
        if tableNext == Invalid && historyNext == InRange {
          return history.value;
        }
        if historyNext == Invalid && tableNext == InRange {
          return table;
        }
        if tableNext == Invalid && historyNext == Invalid {
          return Err(InvalidRecord);
        }
      }
      return Err(UnsupportedFormat);
    }
    if history.Some? && history.value.Ok? {
      return history.value;
    }
    if table.Ok? {
      return table;
    }
    if history.Some? {
      return Err(history.value.error);
    }
    return Err(table.error);
  }
}
