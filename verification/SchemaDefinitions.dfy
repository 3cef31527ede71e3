// Schema definitions: complete, unchanged, or edited from a base definition.
module SchemaDefinitions {
  import opened Results
  import opened BinaryReader

  datatype FieldType =
    | Byte
    | Character
    | Logical
    | Short
    | Unicode
    | Integer
    | Pointer
    | Opaque
    | Tag
    | Double
    | Interval
    | Vector
    | Box
    | IntersectionPoint

  datatype FieldDefinition = FieldDefinition(
    name: Bytes,
    fieldType: FieldType,
    pointerClass: nat,
    elements: nat,
    transmitted: bool)

  datatype TypeDefinition = TypeDefinition(nodeType: nat, name: Bytes, description: Bytes, fields: seq<FieldDefinition>)

  datatype SchemaSource = Base | Unchanged | Edited | Full

  datatype Edit = Edit(opcode: byte, offset: nat, field: Option<FieldDefinition>)

  datatype ResolvedSchema = ResolvedSchema(
    definition: TypeDefinition,
    source: SchemaSource,
    offset: nat,
    size: nat,
    edits: seq<Edit>)

  function Code(t: FieldType): byte {
    match t
    case Byte => 'u' as int
    case Character => 'c' as int
    case Logical => 'l' as int
    case Short => 'n' as int
    case Unicode => 'w' as int
    case Integer => 'd' as int
    case Pointer => 'p' as int
    case Opaque => 'q' as int
    case Tag => 't' as int
    case Double => 'f' as int
    case Interval => 'i' as int
    case Vector => 'v' as int
    case Box => 'b' as int
    case IntersectionPoint => 'h' as int
  }

  function FieldTypeFromCode(code: byte): (r: Option<FieldType>)
    ensures r.Some? ==> Code(r.value) == code
    ensures r.None? ==> forall t :: Code(t) != code
  {
    if code == 'u' as int then Some(Byte)
    else if code == 'c' as int then Some(Character)
    else if code == 'l' as int then Some(Logical)
    else if code == 'n' as int then Some(Short)
    else if code == 'w' as int then Some(Unicode)
    else if code == 'd' as int then Some(Integer)
    else if code == 'p' as int then Some(Pointer)
    else if code == 'q' as int then Some(Opaque)
    else if code == 't' as int then Some(Tag)
    else if code == 'f' as int then Some(Double)
    else if code == 'i' as int then Some(Interval)
    else if code == 'v' as int then Some(Vector)
    else if code == 'b' as int then Some(Box)
    else if code == 'h' as int then Some(IntersectionPoint)
    else None
  }

  lemma CodeIff(code: byte, t: FieldType)
    ensures FieldTypeFromCode(code) == Some(t) <==> Code(t) == code
  {
  }

  // ---------------------------------------------------------------- fields

  function FieldAt(data: Bytes, pos: nat): Result<FieldDefinition> {
    var name :- TextAt(data, pos, false);
    var p1 := pos + |PrintText(name)|;
    var pointerClass :- ReadAt(data, p1, 2);
    var elements :- IndexAt(data, p1 + 2);
    var p2 := p1 + 2 + |PrintIndex(elements)|;
    var fieldType :- if pointerClass != 0 then Ok(Pointer) else CodecAt(data, p2);
    var p3 := p2 + |PrintCodec(pointerClass, fieldType)|;
    var transmitted :- if elements == 1 then LogicalAt(data, p3) else Ok(true);
    Ok(FieldDefinition(name, fieldType, pointerClass, elements, transmitted))
  }

  function CodecAt(data: Bytes, pos: nat): Result<FieldType> {
    var code :- TextAt(data, pos, false);
    if |code| != 1 || FieldTypeFromCode(code[0]).None? then Err(InvalidSchema)
    else Ok(FieldTypeFromCode(code[0]).value)
  }

  function PrintCodec(pointerClass: nat, t: FieldType): Bytes {
    if pointerClass != 0 then [] else PrintText([Code(t)])
  }

  function PrintFlag(elements: nat, transmitted: bool): Bytes {
    if elements == 1 then PrintLogical(transmitted) else []
  }

  function PrintField(f: FieldDefinition): (bytes: Bytes)
    ensures |bytes| >= 5
  {
    PrintText(f.name) + (Print(2, f.pointerClass) + (PrintIndex(f.elements)
    + (PrintCodec(f.pointerClass, f.fieldType) + PrintFlag(f.elements, f.transmitted))))
  }

  predicate IsField(f: FieldDefinition) {
    && IsText(f.name, false) && f.pointerClass < Power256(2) && IsIndex(f.elements)
    && (f.pointerClass != 0 ==> f.fieldType == Pointer)
    && (f.elements != 1 ==> f.transmitted)
  }

  lemma CodecIff(data: Bytes, pos: nat, t: FieldType)
    ensures CodecAt(data, pos) == Ok(t) <==> PrefixAt(PrintText([Code(t)]), data, pos)
  {
    hide TextAt, PrintText, PrefixAt, FieldTypeFromCode;
    TextIff(data, pos, false, [Code(t)]);
    CodeIff(Code(t), t);
    var code := TextAt(data, pos, false);
    if code.Ok? && |code.value| == 1 {
      assert code.value == [code.value[0]];
      CodeIff(code.value[0], t);
    }
    CodePrintable(t);
  }

  lemma CodePrintable(t: FieldType)
    ensures IsText([Code(t)], false)
  {
  }

  // A field definition has exactly one encoding.
  lemma FieldIff(data: Bytes, pos: nat, f: FieldDefinition)
    ensures FieldAt(data, pos) == Ok(f) <==> IsField(f) && PrefixAt(PrintField(f), data, pos)
  {
    hide TextAt, PrintText, ReadAt, Print, IndexAt, PrintIndex, CodecAt, Code, LogicalAt, PrintLogical, PrefixAt, IsText,
         IsIndex, Power256, PrintCodec, PrintFlag;
    var name, class_, elements := PrintText(f.name), Print(2, f.pointerClass), PrintIndex(f.elements);
    var codec, flag := PrintCodec(f.pointerClass, f.fieldType), PrintFlag(f.elements, f.transmitted);
    var p1 := pos + |name|;
    var p2 := p1 + 2 + |elements|;
    var p3 := p2 + |codec|;
    TextIff(data, pos, false, f.name);
    ReadIff(data, p1, 2, f.pointerClass);
    IndexIff(data, p1 + 2, f.elements);
    FieldEnd(data, p2, f);
    PrefixSplit(name, class_ + (elements + (codec + flag)), data, pos);
    PrefixSplit(class_, elements + (codec + flag), data, p1);
    PrefixSplit(elements, codec + flag, data, p1 + 2);
    PrefixSplit(codec, flag, data, p2);
    if PrefixAt(elements, data, p1 + 2) {
      PrefixFits(elements, data, p1 + 2);
    }
    if PrefixAt(codec, data, p2) {
      PrefixFits(codec, data, p2);
    }
  }

  lemma PrefixFits(s: Bytes, data: Bytes, pos: nat)
    requires PrefixAt(s, data, pos)
    ensures pos + |s| <= |data| && PrefixAt([], data, pos + |s|)
  {
  }

  // The codec and flag after the element count.
  lemma FieldEnd(data: Bytes, pos: nat, f: FieldDefinition)
    ensures pos <= |data| ==>
      ((if f.pointerClass != 0 then Ok(Pointer) else CodecAt(data, pos)) == Ok(f.fieldType)
       <==> (f.pointerClass != 0 ==> f.fieldType == Pointer)
            && PrefixAt(PrintCodec(f.pointerClass, f.fieldType), data, pos))
    ensures var p3 := pos + |PrintCodec(f.pointerClass, f.fieldType)|;
      p3 <= |data| ==>
        ((if f.elements == 1 then LogicalAt(data, p3) else Ok(true)) == Ok(f.transmitted)
         <==> (f.elements != 1 ==> f.transmitted) && PrefixAt(PrintFlag(f.elements, f.transmitted), data, p3))
  {
    hide CodecAt, Code, LogicalAt, PrintLogical, PrintText;
    CodecIff(data, pos, f.fieldType);
    LogicalIff(data, pos + |PrintCodec(f.pointerClass, f.fieldType)|, f.transmitted);
  }

  method ReadField(cursor: Cursor) returns (r: Result<FieldDefinition>)
    modifies cursor`pos
    ensures r == FieldAt(cursor.data, old(cursor.pos))
    ensures r.Ok? ==> cursor.pos == old(cursor.pos) + |PrintField(r.value)|
    ensures old(cursor.pos) <= cursor.pos && (old(cursor.pos) <= |cursor.data| ==> cursor.pos <= |cursor.data|)
  {
    hide TextAt, PrintText, ReadAt, Print, IndexAt, PrintIndex, Code, LogicalAt, PrintLogical, FieldTypeFromCode;
    var name :- cursor.Text(false);
    var pointerClass :- cursor.Read(2);
    ReadFits(cursor.data, cursor.pos - 2, 2);
    var elements :- cursor.Index();
    var fieldType := Pointer;
    if pointerClass == 0 {
      ghost var start := cursor.pos;
      var code :- cursor.Text(false);
      if |code| != 1 {
        return Err(InvalidSchema);
      }
      var known := FieldTypeFromCode(code[0]);
      if known.None? {
        return Err(InvalidSchema);
      }
      fieldType := known.value;
      CodeIff(code[0], fieldType);
      assert code == [Code(fieldType)];
    }
    var transmitted := true;
    if elements == 1 {
      transmitted :- cursor.Logical();
    }
    return Ok(FieldDefinition(name, fieldType, pointerClass, elements, transmitted));
  }

  lemma ReadFits(data: Bytes, pos: nat, width: nat)
    ensures ReadAt(data, pos, width).Ok? ==> pos + width <= |data|
  {
  }

  // ---------------------------------------------------------------- validation

  predicate ValidField(f: FieldDefinition, last: bool) {
    && f.name != [] && (f.pointerClass != 0 ==> f.fieldType == Pointer)
    && (!f.transmitted ==> f.elements == 1) && (f.elements == 1 ==> last)
  }

  // Names are distinct, and only the last field has a variable length.
  predicate ValidFields(fields: seq<FieldDefinition>) {
    && (forall i :: 0 <= i < |fields| ==> ValidField(fields[i], i + 1 == |fields|))
    && (forall i, j :: 0 <= i < j < |fields| ==> fields[i].name != fields[j].name)
  }

  function Validated(t: TypeDefinition, maxFields: nat): Result<bool> {
    if t.nodeType < 2 || t.nodeType > 32767 then Err(InvalidSchema)
    else if |t.fields| > maxFields then Err(ResourceLimit)
    else if ValidFields(t.fields) then Ok(true)
    else Err(InvalidSchema)
  }

  method Validate(t: TypeDefinition, maxFields: nat) returns (r: Result<bool>)
    ensures r == Validated(t, maxFields)
  {
    if t.nodeType < 2 || t.nodeType > 32767 {
      return Err(InvalidSchema);
    }
    if |t.fields| > maxFields {
      return Err(ResourceLimit);
    }
    var names: set<Bytes> := {};
    for i := 0 to |t.fields|
      invariant forall name :: name in names <==> exists k :: 0 <= k < i && t.fields[k].name == name
      invariant forall k :: 0 <= k < i ==> ValidField(t.fields[k], k + 1 == |t.fields|)
      invariant forall j, k :: 0 <= j < k < i ==> t.fields[j].name != t.fields[k].name
    {
      var f := t.fields[i];
      if f.name == [] || f.name in names || (f.pointerClass != 0 && f.fieldType != Pointer)
         || (!f.transmitted && f.elements != 1) || (f.elements == 1 && i + 1 != |t.fields|) {
        assert !ValidField(f, i + 1 == |t.fields|) || f.name in names;
        return Err(InvalidSchema);
      }
      names := names + {f.name};
    }
    return Ok(true);
  }

  // ---------------------------------------------------------------- complete definitions

  function PrintFields(fields: seq<FieldDefinition>): Bytes {
    if fields == [] then [] else PrintField(fields[0]) + PrintFields(fields[1..])
  }

  function FieldsAt(data: Bytes, pos: nat, count: nat): (r: Result<seq<FieldDefinition>>)
    ensures r.Ok? ==> |r.value| == count
    decreases count
  {
    if count == 0 then Ok([])
    else
      var f :- FieldAt(data, pos);
      var rest :- FieldsAt(data, pos + |PrintField(f)|, count - 1);
      Ok([f] + rest)
  }

  predicate AreFields(fields: seq<FieldDefinition>) {
    forall i :: 0 <= i < |fields| ==> IsField(fields[i])
  }

  lemma {:induction false} FieldsIff(data: Bytes, pos: nat, count: nat, fields: seq<FieldDefinition>)
    requires pos <= |data|
    ensures FieldsAt(data, pos, count) == Ok(fields)
       <==> |fields| == count && AreFields(fields) && PrefixAt(PrintFields(fields), data, pos)
    decreases count
  {
    hide FieldAt, PrintField, IsField, PrefixAt;
    if count == 0 || fields == [] {
      PrefixEmpty(data, pos);
    } else {
      var f, rest := fields[0], fields[1..];
      var next := pos + |PrintField(f)|;
      assert fields == [f] + rest;
      FieldIff(data, pos, f);
      PrefixSplit(PrintField(f), PrintFields(rest), data, pos);
      assert AreFields(fields) <==> IsField(f) && AreFields(rest);
      if PrefixAt(PrintField(f), data, pos) {
        PrefixFits(PrintField(f), data, pos);
        FieldsIff(data, next, count - 1, rest);
      }
    }
  }

  lemma PrefixEmpty(data: Bytes, pos: nat)
    requires pos <= |data|
    ensures PrefixAt([], data, pos)
  {
  }

  // ---------------------------------------------------------------- edit scripts

  const COPY: byte := 'C' as int
  const DELETE: byte := 'D' as int
  const INSERT: byte := 'I' as int
  const APPEND: byte := 'A' as int
  const END: byte := 'Z' as int

  datatype EditTail = EditTail(edits: seq<Edit>, fields: seq<FieldDefinition>, end: nat)

  function PrintEdit(e: Edit): (bytes: Bytes)
    ensures |bytes| >= 1
  {
    match e.field
    case None => [e.opcode]
    case Some(f) => [e.opcode] + PrintField(f)
  }

  function PrintEdits(edits: seq<Edit>): Bytes {
    if edits == [] then [] else PrintEdit(edits[0]) + PrintEdits(edits[1..])
  }

  // What a script makes of the remaining base fields: the meaning of an edit,
  // independent of the byte stream.
  function Apply(base: seq<FieldDefinition>, edits: seq<Edit>): seq<FieldDefinition> {
    if edits == [] then []
    else
      var e, rest := edits[0], edits[1..];
      if e.field.Some? then [e.field.value] + Apply(base, rest)
      else if e.opcode == COPY && base != [] then [base[0]] + Apply(base[1..], rest)
      else if e.opcode == DELETE && base != [] then Apply(base[1..], rest)
      else Apply(base, rest)
  }

  function Added(base: seq<FieldDefinition>, e: Edit): seq<FieldDefinition> {
    if e.field.Some? then [e.field.value] else if e.opcode == COPY && base != [] then [base[0]] else []
  }

  function Remaining(base: seq<FieldDefinition>, e: Edit): seq<FieldDefinition> {
    if e.field.None? && base != [] && (e.opcode == COPY || e.opcode == DELETE) then base[1..] else base
  }

  // One edit at `pos` with the given base fields left.
  function EditAt(data: Bytes, pos: nat, base: seq<FieldDefinition>): Result<Edit> {
    var opcode :- ReadAt(data, pos, 1);
    if opcode == END then Ok(Edit(END, pos, None))
    else if opcode == COPY || opcode == DELETE then
      if base == [] then Err(InvalidSchema) else Ok(Edit(opcode, pos, None))
    else if opcode == INSERT || opcode == APPEND then
      if (base == []) == (opcode == INSERT) then Err(InvalidSchema)
      else
        var f :- FieldAt(data, pos + 1);
        Ok(Edit(opcode, pos, Some(f)))
    else Err(InvalidSchema)
  }

  predicate IsEdit(e: Edit, pos: nat, base: seq<FieldDefinition>) {
    && e.offset == pos
    && if e.opcode == END then e.field == None
       else if e.opcode == COPY || e.opcode == DELETE then base != [] && e.field == None
       else if e.opcode == INSERT then base != [] && e.field.Some? && IsField(e.field.value)
       else e.opcode == APPEND && base == [] && e.field.Some? && IsField(e.field.value)
  }

  lemma OneByteRead(data: Bytes, pos: nat, value: byte)
    ensures ReadAt(data, pos, 1) == Ok(value) <==> PrefixAt([value], data, pos)
  {
    if pos < |data| {
      OneByte(data, pos);
      assert data[pos..pos + 1] == [data[pos]];
    }
  }

  lemma ReadByteRange(data: Bytes, pos: nat)
    ensures ReadAt(data, pos, 1).Ok? ==> pos < |data| && ReadAt(data, pos, 1).value == data[pos]
  {
    if pos < |data| {
      OneByte(data, pos);
    }
  }

  lemma EditIff(data: Bytes, pos: nat, base: seq<FieldDefinition>, e: Edit)
    ensures EditAt(data, pos, base) == Ok(e) <==> IsEdit(e, pos, base) && PrefixAt(PrintEdit(e), data, pos)
  {
    hide FieldAt, PrintField, IsField, PrefixAt, ReadAt;
    OneByteRead(data, pos, e.opcode);
    ReadByteRange(data, pos);
    match e.field
    case None =>
    case Some(f) =>
      FieldIff(data, pos + 1, f);
      PrefixSplit([e.opcode], PrintField(f), data, pos);
  }

  // Edits from `pos` up to the end marker; `size` fields were built so far.
  function EditsAt(data: Bytes, pos: nat, base: seq<FieldDefinition>, size: nat, count: nat, maxFields: nat):
    (r: Result<EditTail>)
    ensures r.Ok? ==> pos < r.value.end
    decreases |data| - pos
  {
    var e :- EditAt(data, pos, base);
    if e.opcode == END then Ok(EditTail([e], [], pos + 1))
    else
      var added := Added(base, e);
      if size + |added| > count || size + |added| > maxFields then Err(InvalidSchema)
      else
        EditFits(data, pos, base, e);
        var rest :- EditsAt(data, pos + |PrintEdit(e)|, Remaining(base, e), size + |added|, count, maxFields);
        Ok(EditTail([e] + rest.edits, added + rest.fields, rest.end))
  }

  lemma EditFits(data: Bytes, pos: nat, base: seq<FieldDefinition>, e: Edit)
    requires EditAt(data, pos, base) == Ok(e)
    ensures pos + |PrintEdit(e)| <= |data|
  {
    EditIff(data, pos, base, e);
  }

  // A script: edits that fit the base, ended by the only end marker.
  predicate IsScript(edits: seq<Edit>, pos: nat, base: seq<FieldDefinition>) {
    && edits != [] && IsEdit(edits[0], pos, base)
    && if edits[0].opcode == END then |edits| == 1
       else IsScript(edits[1..], pos + |PrintEdit(edits[0])|, Remaining(base, edits[0]))
  }

  // A decoded script is its bytes, and builds what its meaning says.
  lemma {:induction false} EditsDecoded(data: Bytes, pos: nat, base: seq<FieldDefinition>, size: nat, count: nat,
                                        maxFields: nat)
    requires EditsAt(data, pos, base, size, count, maxFields).Ok?
    ensures var t := EditsAt(data, pos, base, size, count, maxFields).value;
      && IsScript(t.edits, pos, base) && PrefixAt(PrintEdits(t.edits), data, pos)
      && t.fields == Apply(base, t.edits) && t.end == pos + |PrintEdits(t.edits)|
    decreases |data| - pos
  {
    hide EditAt, PrintEdit, IsEdit, PrefixAt;
    var t := EditsAt(data, pos, base, size, count, maxFields).value;
    var e := t.edits[0];
    EditIff(data, pos, base, e);
    EndPrinted(e, pos, base);
    ApplyStep(base, pos, t.edits);
    PrefixFits(PrintEdit(e), data, pos);
    PrefixSplit(PrintEdit(e), PrintEdits(t.edits[1..]), data, pos);
    if e.opcode != END {
      EditsDecoded(data, pos + |PrintEdit(e)|, Remaining(base, e), size + |Added(base, e)|, count, maxFields);
    }
  }

  // A printed script that stays within the announced count decodes to itself.
  lemma {:induction false} EditsEncoded(data: Bytes, pos: nat, base: seq<FieldDefinition>, size: nat, count: nat,
                                        maxFields: nat, edits: seq<Edit>)
    requires IsScript(edits, pos, base) && PrefixAt(PrintEdits(edits), data, pos)
    requires size + |Apply(base, edits)| <= count && size + |Apply(base, edits)| <= maxFields
    ensures EditsAt(data, pos, base, size, count, maxFields)
         == Ok(EditTail(edits, Apply(base, edits), pos + |PrintEdits(edits)|))
    decreases |edits|
  {
    hide EditAt, PrintEdit, IsEdit, PrefixAt;
    var e, rest := edits[0], edits[1..];
    EditIff(data, pos, base, e);
    EndPrinted(e, pos, base);
    ApplyStep(base, pos, edits);
    PrefixSplit(PrintEdit(e), PrintEdits(rest), data, pos);
    assert edits == [e] + rest;
    if e.opcode != END {
      EditsEncoded(data, pos + |PrintEdit(e)|, Remaining(base, e), size + |Added(base, e)|, count, maxFields, rest);
    } else {
      assert edits == [e] && Apply(base, rest) == [];
    }
  }

  lemma EndPrinted(e: Edit, pos: nat, base: seq<FieldDefinition>)
    requires IsEdit(e, pos, base)
    ensures e.opcode == END ==> |PrintEdit(e)| == 1 && Added(base, e) == []
  {
  }

  lemma ApplyStep(base: seq<FieldDefinition>, pos: nat, edits: seq<Edit>)
    requires edits != [] && IsEdit(edits[0], pos, base)
    ensures Apply(base, edits) == Added(base, edits[0]) + Apply(Remaining(base, edits[0]), edits[1..])
  {
  }

  // ---------------------------------------------------------------- definitions

  const UNCHANGED_MARKER := 255

  function FullAt(data: Bytes, pos: nat, nodeType: nat, count: nat, maxFields: nat): Result<ResolvedSchema> {
    var name :- TextAt(data, pos + 1, false);
    var p1 := pos + 1 + |PrintText(name)|;
    var description :- TextAt(data, p1, true);
    var p2 := p1 + |PrintText(description)|;
    if count > maxFields then Err(ResourceLimit)
    else
      var fields :- FieldsAt(data, p2, count);
      var t := TypeDefinition(nodeType, name, description, fields);
      var valid :- Validated(t, maxFields);
      Ok(ResolvedSchema(t, Full, pos, p2 + |PrintFields(fields)| - pos, []))
  }

  function EditedAt(data: Bytes, pos: nat, base: TypeDefinition, count: nat, maxFields: nat): Result<ResolvedSchema> {
    var tail :- EditsAt(data, pos + 1, base.fields, 0, count, maxFields);
    if |tail.fields| != count then Err(InvalidSchema)
    else
      var t := base.(fields := tail.fields);
      var valid :- Validated(t, maxFields);
      Ok(ResolvedSchema(t, Edited, pos, tail.end - pos, tail.edits))
  }

  // A definition at `pos`, relative to a base definition if there is one.
  function DefinitionAt(data: Bytes, pos: nat, nodeType: nat, base: Option<TypeDefinition>, maxFields: nat):
    Result<ResolvedSchema>
  {
    match base
    case None =>
      var count :- ReadAt(data, pos, 1);
      if count == UNCHANGED_MARKER then Err(InvalidSchema) else FullAt(data, pos, nodeType, count, maxFields)
    case Some(b) =>
      var valid :- Validated(b, maxFields);
      if b.nodeType != nodeType then Err(InvalidSchema)
      else
        var count :- ReadAt(data, pos, 1);
        if count == UNCHANGED_MARKER then Ok(ResolvedSchema(b, Unchanged, pos, 1, []))
        else EditedAt(data, pos, b, count, maxFields)
  }

  function PrintDefinition(r: ResolvedSchema): Bytes {
    match r.source
    case Base => []
    case Unchanged => [UNCHANGED_MARKER]
    case Full =>
      [|r.definition.fields| % 256]
      + (PrintText(r.definition.name) + (PrintText(r.definition.description) + PrintFields(r.definition.fields)))
    case Edited => [|r.definition.fields| % 256] + PrintEdits(r.edits)
  }

  predicate IsFull(r: ResolvedSchema) {
    && r.source == Full && r.edits == [] && IsText(r.definition.name, false) && IsText(r.definition.description, true)
    && AreFields(r.definition.fields)
  }

  predicate IsEdited(r: ResolvedSchema, base: TypeDefinition) {
    && r.source == Edited && IsScript(r.edits, r.offset + 1, base.fields)
    && r.definition == base.(fields := Apply(base.fields, r.edits))
  }

  // Edited and complete definitions announce fewer than 255 fields.
  predicate IsDefinition(r: ResolvedSchema, pos: nat, nodeType: nat, base: Option<TypeDefinition>, maxFields: nat) {
    && (r.source != Unchanged ==> |r.definition.fields| < UNCHANGED_MARKER)
    && r.offset == pos && r.size == |PrintDefinition(r)|
    && r.definition.nodeType == nodeType && Validated(r.definition, maxFields).Ok?
    && match base
       case None => IsFull(r)
       case Some(b) =>
         && b.nodeType == nodeType && Validated(b, maxFields).Ok?
         && (IsEdited(r, b) || (r.source == Unchanged && r.edits == [] && r.definition == b))
  }

  lemma FullIff(data: Bytes, pos: nat, nodeType: nat, maxFields: nat, r: ResolvedSchema)
    requires pos + 1 <= |data|
    ensures (FullAt(data, pos, nodeType, |r.definition.fields|, maxFields) == Ok(r))
       <==> && IsFull(r) && r.offset == pos && r.size == |PrintDefinition(r)|
            && r.definition.nodeType == nodeType && Validated(r.definition, maxFields).Ok?
            && PrefixAt(PrintDefinition(r)[1..], data, pos + 1)
  {
    hide TextAt, PrintText, PrefixAt, FieldsAt, PrintFields, AreFields, IsText, ValidFields;
    var t := r.definition;
    var name, description, fields := PrintText(t.name), PrintText(t.description), PrintFields(t.fields);
    var p1 := pos + 1 + |name|;
    var p2 := p1 + |description|;
    TextIff(data, pos + 1, false, t.name);
    TextIff(data, p1, true, t.description);
    PrefixSplit(name, description + fields, data, pos + 1);
    PrefixSplit(description, fields, data, p1);
    if PrefixAt(description, data, p1) {
      PrefixFits(description, data, p1);
      FieldsIff(data, p2, |t.fields|, t.fields);
    }
    if r.source == Full {
      assert PrintDefinition(r)[1..] == name + (description + fields);
    }
  }

  lemma EditedIff(data: Bytes, pos: nat, base: TypeDefinition, maxFields: nat, r: ResolvedSchema)
    ensures EditedAt(data, pos, base, |r.definition.fields|, maxFields) == Ok(r)
       <==> && IsEdited(r, base) && r.offset == pos && r.size == |PrintDefinition(r)|
            && Validated(r.definition, maxFields).Ok?
            && PrefixAt(PrintDefinition(r)[1..], data, pos + 1)
  {
    hide PrefixAt, EditsAt, PrintEdits, IsScript, Apply, ValidFields;
    var count := |r.definition.fields|;
    if EditsAt(data, pos + 1, base.fields, 0, count, maxFields).Ok? {
      EditsDecoded(data, pos + 1, base.fields, 0, count, maxFields);
    }
    if r.source == Edited {
      assert PrintDefinition(r)[1..] == PrintEdits(r.edits);
      if IsEdited(r, base) && r.offset == pos && PrefixAt(PrintEdits(r.edits), data, pos + 1) && count <= maxFields {
        EditsEncoded(data, pos + 1, base.fields, 0, count, maxFields, r.edits);
      }
    }
  }

  // A definition has exactly one encoding relative to its base, and an edited
  // one means what its script says.
  lemma DefinitionIff(data: Bytes, pos: nat, nodeType: nat, base: Option<TypeDefinition>, maxFields: nat, r: ResolvedSchema)
    ensures DefinitionAt(data, pos, nodeType, base, maxFields) == Ok(r)
       <==> IsDefinition(r, pos, nodeType, base, maxFields) && PrefixAt(PrintDefinition(r), data, pos)
  {
    hide PrefixAt, ReadAt, FullAt, EditedAt, PrintFields, PrintEdits, PrintText, IsScript, Apply, AreFields, ValidFields,
         IsText;
    ReadByteRange(data, pos);
    var bytes := PrintDefinition(r);
    if bytes != [] {
      OneByteRead(data, pos, bytes[0]);
      PrefixSplit([bytes[0]], bytes[1..], data, pos);
      assert bytes == [bytes[0]] + bytes[1..];
      if pos < |data| {
        PrefixEmpty(data, pos + 1);
      }
    }
    if pos < |data| {
      FullIff(data, pos, nodeType, maxFields, r);
      FullCount(data, pos, nodeType, maxFields, r);
      match base {
        case None =>
        case Some(b) =>
          EditedIff(data, pos, b, maxFields, r);
          EditedCount(data, pos, b, maxFields, r);
      }
    }
  }

  lemma FullCount(data: Bytes, pos: nat, nodeType: nat, maxFields: nat, r: ResolvedSchema)
    requires pos < |data|
    ensures FullAt(data, pos, nodeType, data[pos], maxFields) == Ok(r) ==>
      r.source == Full && |r.definition.fields| == data[pos]
  {
    hide TextAt, PrintText, PrintFields, ValidFields;
  }

  lemma EditedCount(data: Bytes, pos: nat, base: TypeDefinition, maxFields: nat, r: ResolvedSchema)
    requires pos < |data|
    ensures EditedAt(data, pos, base, data[pos], maxFields) == Ok(r) ==>
      r.source == Edited && |r.definition.fields| == data[pos]
  {
  }

  // ---------------------------------------------------------------- the reader

  function PrependFields(fields: seq<FieldDefinition>, r: Result<seq<FieldDefinition>>): Result<seq<FieldDefinition>> {
    match r
    case Err(error) => Err(error)
    case Ok(rest) => Ok(fields + rest)
  }

  lemma FieldPrepended(fields: seq<FieldDefinition>, f: FieldDefinition, r: Result<seq<FieldDefinition>>)
    ensures PrependFields(fields + [f], r) == PrependFields(fields, PrependFields([f], r))
    ensures PrependFields([], r) == r
  {
    if r.Ok? {
      assert fields + [f] + r.value == fields + ([f] + r.value);
      assert [] + r.value == r.value;
    }
  }

  lemma {:induction false} PrintFieldsAppend(fields: seq<FieldDefinition>, f: FieldDefinition)
    ensures PrintFields(fields + [f]) == PrintFields(fields) + PrintField(f)
  {
    if fields == [] {
      assert PrintFields([f]) == PrintField(f) + PrintFields([f][1..]);
    } else {
      PrintFieldsAppend(fields[1..], f);
      assert (fields + [f])[1..] == fields[1..] + [f];
    }
  }

  method ReadFields(cursor: Cursor, count: nat) returns (r: Result<seq<FieldDefinition>>)
    modifies cursor`pos
    ensures r == FieldsAt(cursor.data, old(cursor.pos), count)
    ensures r.Ok? ==> cursor.pos == old(cursor.pos) + |PrintFields(r.value)|
  {
    hide FieldAt, PrintField;
    var fields: seq<FieldDefinition> := [];
    ghost var start := cursor.pos;
    FieldPrepended([], FieldDefinition([], Pointer, 0, 0, true), FieldsAt(cursor.data, cursor.pos, count));
    for i := 0 to count
      invariant |fields| == i && cursor.pos == start + |PrintFields(fields)|
      invariant FieldsAt(cursor.data, start, count)
             == PrependFields(fields, FieldsAt(cursor.data, cursor.pos, count - i))
    {
      var f :- ReadField(cursor);
      FieldPrepended(fields, f, FieldsAt(cursor.data, cursor.pos, count - i - 1));
      PrintFieldsAppend(fields, f);
      fields := fields + [f];
    }
    assert fields + [] == fields;
    return Ok(fields);
  }

  function PrependEdits(edits: seq<Edit>, fields: seq<FieldDefinition>, r: Result<EditTail>): Result<EditTail> {
    match r
    case Err(error) => Err(error)
    case Ok(t) => Ok(EditTail(edits + t.edits, fields + t.fields, t.end))
  }

  lemma EditPrepended(edits: seq<Edit>, fields: seq<FieldDefinition>, e: Edit, added: seq<FieldDefinition>,
                      r: Result<EditTail>)
    ensures PrependEdits(edits + [e], fields + added, r) == PrependEdits(edits, fields, PrependEdits([e], added, r))
    ensures PrependEdits([], [], r) == r
  {
    if r.Ok? {
      assert edits + [e] + r.value.edits == edits + ([e] + r.value.edits);
      assert fields + added + r.value.fields == fields + (added + r.value.fields);
      assert [] + r.value.edits == r.value.edits && [] + r.value.fields == r.value.fields;
    }
  }

  // The edit loop; `index` is the first base field not yet consumed.
  method ReadEdits(cursor: Cursor, base: seq<FieldDefinition>, count: nat, maxFields: nat) returns (r: Result<EditTail>)
    modifies cursor`pos
    ensures r == EditsAt(cursor.data, old(cursor.pos), base, 0, count, maxFields)
    ensures r.Ok? ==> cursor.pos == r.value.end
  {
    hide FieldAt, PrintField, ReadAt;
    var edits: seq<Edit> := [];
    var fields: seq<FieldDefinition> := [];
    var index: nat, appending := 0, false;
    ghost var start, data := cursor.pos, cursor.data;
    EditPrepended([], [], Edit(END, 0, None), [], EditsAt(data, start, base, 0, count, maxFields));
    assert base[0..] == base;
    while true
      invariant cursor.data == data && index <= |base| && (appending ==> index == |base|)
      invariant EditsAt(data, start, base, 0, count, maxFields)
             == PrependEdits(edits, fields, EditsAt(data, cursor.pos, base[index..], |fields|, count, maxFields))
      decreases |data| - cursor.pos
    {
      var at := cursor.pos;
      ghost var left := base[index..];
      ReadByteRange(data, at);
      var opcode :- cursor.Read(1);
      if opcode == END {
        assert fields + [] == fields;
        return Ok(EditTail(edits + [Edit(END, at, None)], fields, cursor.pos));
      }
      var remaining := index < |base|;
      var e := Edit(opcode, at, None);
      var added: seq<FieldDefinition> := [];
      if opcode == COPY || opcode == DELETE {
        if appending || !remaining {
          return Err(InvalidSchema);
        }
        if opcode == COPY {
          added := [base[index]];
        }
        index := index + 1;
      } else if opcode == INSERT {
        if appending || !remaining {
          return Err(InvalidSchema);
        }
        var f :- ReadField(cursor);
        e := e.(field := Some(f));
        added := [f];
      } else if opcode == APPEND {
        if remaining {
          return Err(InvalidSchema);
        }
        appending := true;
        var f :- ReadField(cursor);
        e := e.(field := Some(f));
        added := [f];
      } else {
        return Err(InvalidSchema);
      }
      assert EditAt(data, at, left) == Ok(e) && added == Added(left, e);
      assert base[index..] == Remaining(left, e);
      EditFits(data, at, left, e);
      if |fields + added| > count || |fields + added| > maxFields {
        return Err(InvalidSchema);
      }
      EditPrepended(edits, fields, e, added, EditsAt(data, cursor.pos, base[index..], |fields| + |added|, count, maxFields));
      fields := fields + added;
      edits := edits + [e];
    }
  }

  method Definition(cursor: Cursor, nodeType: nat, base: Option<TypeDefinition>, maxFields: nat)
    returns (r: Result<ResolvedSchema>)
    modifies cursor`pos
    ensures r == DefinitionAt(cursor.data, old(cursor.pos), nodeType, base, maxFields)
    ensures r.Ok? ==> cursor.pos == old(cursor.pos) + |PrintDefinition(r.value)|
  {
    hide FieldAt, PrintField, TextAt, PrintText, ReadAt, PrintFields, FieldsAt, EditsAt, PrintEdits, ValidFields;
    ghost var start, data := cursor.pos, cursor.data;
    ReadByteRange(data, start);
    if base.Some? {
      var valid :- Validate(base.value, maxFields);
      if base.value.nodeType != nodeType {
        return Err(InvalidSchema);
      }
    }
    var count :- cursor.Read(1);
    if count == UNCHANGED_MARKER && base.Some? {
      var again := Validate(base.value, maxFields);
      if again.Err? {
        return Err(InvalidSchema);
      }
      return Ok(ResolvedSchema(base.value, Unchanged, cursor.pos - 1, 1, []));
    }
    if base.None? {
      if count == UNCHANGED_MARKER {
        return Err(InvalidSchema);
      }
      var offset: nat := cursor.pos - 1;
      var name :- cursor.Text(false);
      var description :- cursor.Text(true);
      if count > maxFields {
        return Err(ResourceLimit);
      }
      var fields :- ReadFields(cursor, count);
      var t := TypeDefinition(nodeType, name, description, fields);
      var valid :- Validate(t, maxFields);
      return Ok(ResolvedSchema(t, Full, offset, cursor.pos - offset, []));
    }
    var offset: nat := cursor.pos - 1;
    var tail :- ReadEdits(cursor, base.value.fields, count, maxFields);
    if |tail.fields| != count {
      return Err(InvalidSchema);
    }
    var t := base.value.(fields := tail.fields);
    var valid :- Validate(t, maxFields);
    EditsDecoded(data, start + 1, base.value.fields, 0, count, maxFields);
    return Ok(ResolvedSchema(t, Edited, offset, cursor.pos - offset, tail.edits));
  }
}
