// The encoded forms byte by byte: widths, digits, null patterns and the order of
// the parts.
module WireBytes {
  import opened Results
  import opened BinaryReader
  import opened SchemaDefinitions
  import opened SchemaNodes
  import opened DeltaPackets
  import opened SchemaReport

  // ---------------------------------------------------------------- digits

  function Low(v: nat): byte {
    v % 256
  }

  function Two(v: nat): (bytes: Bytes) {
    [Low(v / 256), Low(v)]
  }

  function Four(v: nat): Bytes {
    [Low(v / 0x100_0000), Low(v / 0x1_0000), Low(v / 256), Low(v)]
  }

  function Eight(v: nat): Bytes {
    [Low(v / 0x100_0000_0000_0000), Low(v / 0x1_0000_0000_0000), Low(v / 0x100_0000_0000), Low(v / 0x1_0000_0000)]
    + Four(v)
  }

  lemma PrintOne(width: nat, v: nat)
    requires width > 0
    ensures Print(width, v) == Print(width - 1, v / 256) + [Low(v)]
  {
  }

  lemma PrintNothing(v: nat)
    ensures Print(0, v) == []
  {
  }

  lemma PrintByte(v: nat)
    ensures Print(1, v) == [Low(v)]
  {
    hide Low;
    PrintOne(1, v);
    PrintNothing(v / 256);
  }

  lemma PrintTwo(v: nat)
    ensures Print(2, v) == Two(v)
  {
    hide Print, Low;
    PrintOne(2, v);
    PrintByte(v / 256);
  }

  lemma PrintFour(v: nat)
    ensures Print(4, v) == Four(v)
  {
    hide Print, Low;
    var a, b := v / 256, v / 0x1_0000;
    Quotients(v);
    PrintOne(4, v);
    PrintOne(3, a);
    PrintTwo(b);
    assert b / 256 == v / 0x100_0000;
  }

  lemma Quotients(v: nat)
    ensures v / 256 / 256 == v / 0x1_0000 && v / 256 / 256 / 256 == v / 0x100_0000
    ensures v / 0x1_0000 / 0x1_0000 == v / 0x1_0000_0000
  {
  }

  // Most significant byte first.
  lemma PrintEight(v: nat)
    ensures Print(8, v) == Eight(v)
  {
    hide Print, Low;
    var h := v / 0x1_0000_0000;
    HighDigits(v);
    PrintOne(8, v);
    PrintOne(7, v / 256);
    PrintOne(6, v / 256 / 256);
    PrintOne(5, v / 256 / 256 / 256);
    Quotients(v);
    PrintFour(h);
  }

  lemma HighDigits(v: nat)
    ensures var h := v / 0x1_0000_0000;
      && v / 256 / 256 / 256 / 256 == h && h / 0x100_0000 == v / 0x100_0000_0000_0000
      && h / 0x1_0000 == v / 0x1_0000_0000_0000 && h / 256 == v / 0x100_0000_0000
  {
  }

  // ---------------------------------------------------------------- scalars

  // The bytes of every value that a field of the type can hold.
  function ScalarBytes(t: FieldType, v: ScalarValue): Bytes {
    match t
    case Logical => [if v == Flag(true) then 1 else 0]
    case Byte => [Low(if v.Word? then v.w else 0)]
    case Character => [Low(if v.Word? then v.w else 0)]
    case Unicode => Two(if v.Word? then v.w else 0)
    case Short => if v.Signed? then Two(v.i % 0x1_0000) else [0x80, 0x04]
    case Integer => WordBytes(v)
    case Tag => WordBytes(v)
    case Pointer => IndexBytes(if v.Word? then v.w else 0)
    case Opaque => []
    case _ => if v.Bits? then Eight(v.bits) else [0xc2, 0xbc, 0x92, 0x8f, 0x99, 0x6e, 0, 0]
  }

  function WordBytes(v: ScalarValue): Bytes {
    match v
    case Signed(i) => Four(i % 0x1_0000_0000)
    case Word(w) => Four(w)
    case _ => [0xff, 0xff, 0x80, 0x04]
  }

  // Two bytes below 32767, else the negated remainder and the quotient.
  function IndexBytes(v: nat): Bytes {
    if v < 32767 then Two(v + 1) else Two(65535 - v % 32767) + Two(v / 32767)
  }

  // The values a field of the type can hold. Signed values exclude the ones
  // that stand for no value; delta streams keep words as they are.
  predicate Holds(t: FieldType, delta: bool, v: ScalarValue) {
    match t
    case Logical => v.Flag?
    case Byte => v.Word? && v.w < 0x100
    case Character => v.Word? && v.w < 0x100
    case Unicode => v.Word? && v.w < 0x1_0000
    case Short => v.Null? || (v.Signed? && -0x8000 <= v.i < 0x8000 && v.i != -32764)
    case Integer => HoldsWord(delta, v)
    case Tag => HoldsWord(delta, v)
    case Pointer => v.Word? && v.w < 1073709056
    case Opaque => false
    case _ => v.Null? || (v.Bits? && v.bits < 0x1_0000_0000_0000_0000 && v.bits != 0xc2bc_928f_996e_0000)
  }

  predicate HoldsWord(delta: bool, v: ScalarValue) {
    if delta then v.Word? && v.w < 0x1_0000_0000
    else v.Null? || (v.Signed? && -0x8000_0000 <= v.i < 0x8000_0000 && v.i != -32764)
  }

  lemma HoldsIff(t: FieldType, delta: bool, v: ScalarValue)
    ensures IsScalar(t, delta, v) <==> Holds(t, delta, v)
  {
    hide Power256;
    Powers();
  }

  lemma WrappedDigits(i: int)
    ensures -0x8000 <= i < 0x8000 ==> Unwrapped(i, 0x8000) == i % 0x1_0000
    ensures -0x8000_0000 <= i < 0x8000_0000 ==> Unwrapped(i, 0x8000_0000) == i % 0x1_0000_0000
  {
  }

  lemma NullDigits()
    ensures Print(2, 0x8004) == [0x80, 0x04] && Print(4, 0xffff8004) == [0xff, 0xff, 0x80, 0x04]
    ensures Print(8, 0xc2bc928f996e0000) == [0xc2, 0xbc, 0x92, 0x8f, 0x99, 0x6e, 0, 0]
  {
    hide Print;
    PrintTwo(0x8004);
    PrintFour(0xffff8004);
    PrintEight(0xc2bc928f996e0000);
  }

  lemma IndexDigits(v: nat)
    ensures PrintIndex(v) == IndexBytes(v)
  {
    hide Print, Low;
    PrintTwo(v + 1);
    PrintTwo(65535 - v % 32767);
    PrintTwo(v / 32767);
  }

  lemma PrintedScalar(t: FieldType, delta: bool, v: ScalarValue)
    requires Holds(t, delta, v)
    ensures PrintScalar(t, v) == ScalarBytes(t, v)
  {
    hide Print, Low, PrintIndex, IndexBytes, Two, Four, Eight;
    NullDigits();
    match v
    case Null =>
    case Flag(_) =>
    case Signed(i) =>
      WrappedDigits(i);
      PrintTwo(ToStored(t, v));
      PrintFour(ToStored(t, v));
    case Word(w) =>
      PrintByte(w);
      PrintTwo(w);
      PrintFour(w);
      IndexDigits(w);
    case Bits(bits) => PrintEight(bits);
  }

  // A scalar of a field type is read exactly where these bytes stand, and it is
  // one of these values.
  lemma ScalarWire(data: Bytes, pos: nat, t: FieldType, delta: bool, v: ScalarValue)
    ensures ScalarAt(data, pos, t, delta) == Ok(v) <==> Holds(t, delta, v) && PrefixAt(ScalarBytes(t, v), data, pos)
  {
    hide ScalarAt, IsScalar, PrintScalar, ScalarBytes, Holds, PrefixAt;
    ScalarIff(data, pos, t, delta, v);
    HoldsIff(t, delta, v);
    if Holds(t, delta, v) {
      PrintedScalar(t, delta, v);
    }
  }

  // The encoded length of every field type.
  lemma ScalarLength(t: FieldType, delta: bool, v: ScalarValue)
    requires Holds(t, delta, v)
    ensures |PrintScalar(t, v)| == match t
      case Logical => 1
      case Byte => 1
      case Character => 1
      case Unicode => 2
      case Short => 2
      case Integer => 4
      case Tag => 4
      case Pointer => if v.w < 32767 then 2 else 4
      case _ => 8
  {
    hide Low;
    PrintedScalar(t, delta, v);
  }

  // The values of one element: pairs, triples, boxes, and the eleven of a
  // status-framed intersection point.
  lemma ElementValues(data: Bytes, pos: nat, defs: seq<FieldDefinition>, i: nat, length: Option<nat>, framed: bool,
                      budget: nat)
    requires i < |defs|
    ensures var r, def := FieldOne(data, pos, defs, i, length, framed, budget), defs[i];
      r.Ok? ==>
        && |r.value.values| == r.value.elements * r.value.components
        && r.value.elements == (if !def.transmitted then 0 else if def.elements == 0 then 1
                                else if def.elements == 1 then (if length.Some? then length.value else 0)
                                else def.elements)
        && r.value.components == match def.fieldType
           case Interval => 2
           case Vector => 3
           case Box => 6
           case IntersectionPoint => if framed then 11 else 3
           case _ => 1
  {
    hide ValuesAt, PrintValues;
  }

  // ---------------------------------------------------------------- packets

  function Pair(high: nat, low: nat): nat {
    high * 256 + low
  }

  // What follows a packet, in its two bytes.
  lemma FollowingMeans(data: Bytes, p: Packet, maximum: nat)
    ensures var at := p.offset + p.size;
      FollowingType(data, p, maximum)
      == if at + 2 > |data| then Unavailable
         else if 1 <= Pair(data[at], data[at + 1]) <= maximum then InRange
         else Invalid
  {
    var at := p.offset + p.size;
    if at + 2 <= |data| {
      var bytes := data[at..at + 2];
      assert bytes[..1] == [data[at]] && [data[at]][..0] == [];
      assert BinaryReader.Value([]) == 0 && BinaryReader.Value(bytes[..1]) == data[at];
      assert BinaryReader.Value(bytes) == Pair(data[at], data[at + 1]);
    }
  }

  // A mark: its type, five indices, four words, a flag and a word.
  lemma MarkBytes(at: nat, index: nat, preceding: nat, first: nat, next: nat, prev: nat, added: nat, deleted: nat,
                  modified: nat, key: nat, forward: bool, identifier: nat)
    ensures PrintMark(Mark(at, Links(index, preceding, first, next, prev),
                           Counts(added, deleted, modified, key, forward, identifier)))
         == [0, 4] + IndexBytes(index) + IndexBytes(preceding) + IndexBytes(first) + IndexBytes(next) + IndexBytes(prev)
            + Four(added) + Four(deleted) + Four(modified) + Four(key) + [if forward then 1 else 0] + Four(identifier)
  {
    hide Print, PrintLinks, PrintCounts, IndexBytes, Four;
    PrintTwo(4);
    LinksBytes(Links(index, preceding, first, next, prev));
    CountsBytes(Counts(added, deleted, modified, key, forward, identifier));
  }

  lemma LinksBytes(l: Links)
    ensures PrintLinks(l) == IndexBytes(l.index) + IndexBytes(l.preceding) + IndexBytes(l.firstFollowing)
                             + IndexBytes(l.nextSibling) + IndexBytes(l.prevSibling)
  {
    hide PrintIndex, IndexBytes;
    IndexDigits(l.index);
    IndexDigits(l.preceding);
    IndexDigits(l.firstFollowing);
    IndexDigits(l.nextSibling);
    IndexDigits(l.prevSibling);
  }

  lemma CountsBytes(c: Counts)
    ensures PrintCounts(c) == Four(c.newNodes) + Four(c.deletedNodes) + Four(c.modifiedNodes) + Four(c.deltaKey)
                              + [if c.forward then 1 else 0] + Four(c.identifier)
  {
    hide Print, Four;
    PrintFour(c.newNodes);
    PrintFour(c.deletedNodes);
    PrintFour(c.modifiedNodes);
    PrintFour(c.deltaKey);
    PrintFour(c.identifier);
  }

  lemma ReferenceBytes(r: Reference, rest: seq<Reference>)
    ensures PrintReferences([r] + rest) == IndexBytes(r.index) + Two(r.nodeType) + PrintReferences(rest)
  {
    hide Print, PrintIndex, IndexBytes, Two;
    assert ([r] + rest)[1..] == rest;
    IndexDigits(r.index);
    PrintTwo(r.nodeType);
  }

  // Two occurrences of index 8 and one of 32767 in a map that ends with word 7.
  lemma MapSample()
    ensures PrintPacket(Packet(ReferenceMap, 0, 24, Some(7),
                               [Reference(4, 4, 8, 81), Reference(8, 4, 8, 84), Reference(12, 6, 32767, 98)], []))
         == [0, 1, 0, 1, 0, 9, 0, 81, 0, 9, 0, 84, 255, 255, 0, 1, 0, 98, 0, 1, 0, 0, 0, 7]
  {
    hide Print, PrintIndex, PrintReferences;
    SampleReferences();
    IndexDigits(0);
    PrintTwo(0);
    PrintTwo(7);
    MapParts();
    hide IndexBytes, Two;
  }

  lemma SampleReferences()
    ensures PrintReferences([Reference(4, 4, 8, 81), Reference(8, 4, 8, 84), Reference(12, 6, 32767, 98)])
         == [0, 9, 0, 81, 0, 9, 0, 84, 255, 255, 0, 1, 0, 98]
  {
    hide PrintReferences, IndexBytes, Two;
    var a, b, c := Reference(4, 4, 8, 81), Reference(8, 4, 8, 84), Reference(12, 6, 32767, 98);
    ReferenceBytes(a, [b, c]);
    ReferenceBytes(b, [c]);
    ReferenceBytes(c, []);
    assert [a] + [b, c] == [a, b, c] && [b] + [c] == [b, c] && [c] + [] == [c];
    NoReferences();
    MapParts();
  }

  lemma NoReferences()
    ensures PrintReferences([]) == []
  {
  }

  lemma MapParts()
    ensures IndexBytes(8) == [0, 9] && IndexBytes(32767) == [255, 255, 0, 1] && IndexBytes(0) == [0, 1]
    ensures Two(81) == [0, 81] && Two(84) == [0, 84] && Two(98) == [0, 98] && Two(0) == [0, 0] && Two(7) == [0, 7]
  {
  }

  // ---------------------------------------------------------------- definitions

  // The letter of every field type.
  lemma Letters()
    ensures forall t :: Code(t) == match t
      case Byte => 'u' as int
      case Character => 'c' as int
      case Logical => 'l' as int
      case Short => 'n' as int
      case Unicode => 'w' as int
      case Integer => 'd' as int
      case Pointer => 'p' as int
      case Opaque => 'q' as int
      case Tag => 't' as int
      case Double => 'f' as int
      case Interval => 'i' as int
      case Vector => 'v' as int
      case Box => 'b' as int
      case IntersectionPoint => 'h' as int
  {
  }

  // "x" of the given kind: the name, the class, the elements, then the letter
  // unless a class is named, then a flag if the length varies.
  lemma FieldSamples()
    ensures PrintField(FieldDefinition([120], Vector, 0, 1, true)) == [1, 120, 0, 0, 0, 2, 1, 118, 1]
    ensures PrintField(FieldDefinition([120], Vector, 0, 1, false)) == [1, 120, 0, 0, 0, 2, 1, 118, 0]
    ensures PrintField(FieldDefinition([120], Integer, 0, 0, true)) == [1, 120, 0, 0, 0, 1, 1, 100]
    ensures PrintField(FieldDefinition([120], Pointer, 4, 3, true)) == [1, 120, 0, 4, 0, 4]
  {
    hide Print, PrintIndex;
    PrintTwo(0);
    PrintTwo(4);
    IndexDigits(0);
    IndexDigits(1);
    IndexDigits(3);
  }

  // An integer field whose name is one letter.
  function Lettered(letter: byte): FieldDefinition {
    FieldDefinition([letter], Integer, 0, 0, true)
  }

  lemma LetteredBytes(letter: byte)
    ensures PrintField(Lettered(letter)) == [1, letter, 0, 0, 0, 1, 1, 100]
  {
    hide Print, PrintIndex;
    PrintTwo(0);
    IndexDigits(0);
  }

  lemma FirstEdit(e: Edit, rest: seq<Edit>)
    ensures PrintEdits([e] + rest) == PrintEdit(e) + PrintEdits(rest)
    ensures PrintEdits([]) == []
  {
    assert ([e] + rest)[1..] == rest;
  }

  // Insert x, copy the first base field, delete the second, append y, end.
  function SampleEdits(): seq<Edit> {
    [Edit(73, 1, Some(Lettered(120)))] + ([Edit(67, 10, None)] + ([Edit(68, 11, None)]
    + ([Edit(65, 12, Some(Lettered(121)))] + ([Edit(90, 21, None)] + []))))
  }

  lemma EditSample()
    ensures PrintEdits(SampleEdits())
         == [73, 1, 120, 0, 0, 0, 1, 1, 100, 67, 68, 65, 1, 121, 0, 0, 0, 1, 1, 100, 90]
  {
    hide PrintEdits, PrintField, Lettered;
    var a, b, c := Edit(73, 1, Some(Lettered(120))), Edit(67, 10, None), Edit(68, 11, None);
    var d, e := Edit(65, 12, Some(Lettered(121))), Edit(90, 21, None);
    LetteredBytes(120);
    LetteredBytes(121);
    FirstEdit(e, []);
    FirstEdit(d, [e] + []);
    FirstEdit(c, [d] + ([e] + []));
    FirstEdit(b, [c] + ([d] + ([e] + [])));
    FirstEdit(a, [b] + ([c] + ([d] + ([e] + []))));
  }

  lemma OneApplied(base: seq<FieldDefinition>, e: Edit, rest: seq<Edit>)
    ensures SchemaDefinitions.Apply(base, [e] + rest) == Added(base, e) + SchemaDefinitions.Apply(Remaining(base, e), rest)
    ensures SchemaDefinitions.Apply(base, []) == []
  {
    assert ([e] + rest)[1..] == rest;
  }

  // On the base fields u and v it makes x, u, y.
  lemma EditMeaning(u: FieldDefinition, v: FieldDefinition)
    ensures SchemaDefinitions.Apply([u, v], SampleEdits()) == [Lettered(120), u, Lettered(121)]
  {
    hide SchemaDefinitions.Apply, Lettered;
    var a, b, c := Edit(73, 1, Some(Lettered(120))), Edit(67, 10, None), Edit(68, 11, None);
    var d, e := Edit(65, 12, Some(Lettered(121))), Edit(90, 21, None);
    assert [u, v][1..] == [v] && [v][1..] == [];
    OneApplied([u, v], a, [b] + ([c] + ([d] + ([e] + []))));
    OneApplied([u, v], b, [c] + ([d] + ([e] + [])));
    OneApplied([v], c, [d] + ([e] + []));
    OneApplied([], d, [e] + []);
    OneApplied([], e, []);
  }

  // ---------------------------------------------------------------- nodes

  // A node of type 50 and index 5 with one pointer to 7: in a delta stream the
  // status follows the pointer.
  lemma NodeSample(schema: ResolvedSchema, name: Bytes)
    requires schema.definition.fields == [FieldDefinition(name, Pointer, 4, 0, true)] && schema.offset != 12
    ensures PrintNode([schema], DecodedNode(50, 0, 10, 7, true, OnePointer(3, [1]))) == [0, 50, 0, 6, 0, 8, 1]
    ensures PrintNode([schema], DecodedNode(50, 0, 10, 6, false, OnePointer(2, []))) == [0, 50, 0, 6, 0, 8]
  {
    hide Print, PrintIndex, PrintDecoded;
    PrintTwo(50);
    IndexDigits(5);
    PointerPrinted(schema.definition.fields, true, 3, [1]);
    PointerPrinted(schema.definition.fields, false, 2, []);
  }

  function OnePointer(size: nat, statuses: seq<nat>): Body {
    Body(None, 5, [DecodedField(0, 14, size, 1, 1, [SchemaNodes.Word(7)], statuses)])
  }

  lemma PointerPrinted(defs: seq<FieldDefinition>, framed: bool, size: nat, statuses: seq<nat>)
    requires |defs| == 1 && defs[0].fieldType == Pointer && statuses == if framed then [1] else []
    ensures PrintDecoded(defs, framed, OnePointer(size, statuses).fields) == if framed then [0, 8, 1] else [0, 8]
  {
    hide Print, PrintIndex;
    var fields := OnePointer(size, statuses).fields;
    var values := fields[0].values;
    assert fields[1..] == [] && values[1..] == [];
    PrintByte(1);
    IndexDigits(7);
    assert PrintDecoded(defs, framed, []) == [];
    assert PrintValues(Pointer, framed, [], RestStatuses(Pointer, framed, statuses)) == [];
    assert PrintStatus(Pointer, framed, statuses) == if framed then [1] else [];
    assert PrintValues(Pointer, framed, values, statuses) == if framed then [0, 8, 1] else [0, 8];
  }
}
