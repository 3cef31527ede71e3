// Node bodies: a variable length, an index, and the values of every field.
module SchemaNodes {
  import opened Results
  import opened BinaryReader
  import opened SchemaDefinitions

  // Doubles are kept as their 64-bit patterns.
  datatype ScalarValue = Null | Flag(b: bool) | Signed(i: int) | Word(w: nat) | Bits(bits: nat)

  datatype DecodedField = DecodedField(
    definitionIndex: nat,
    offset: nat,
    size: nat,
    elements: nat,
    components: nat,
    values: seq<ScalarValue>,
    statuses: seq<nat>)

  datatype Body = Body(variableLength: Option<nat>, index: nat, fields: seq<DecodedField>)

  const NULL_SHORT := 0x8004
  const NULL_INTEGER := 0xffff8004
  const NULL_DOUBLE := 0xc2bc928f996e0000

  function ComponentCount(t: FieldType): nat {
    match t
    case Interval => 2
    case Vector => 3
    case IntersectionPoint => 3
    case Box => 6
    case _ => 1
  }

  function Components(t: FieldType, framed: bool): nat {
    if framed && t == IntersectionPoint then 11 else ComponentCount(t)
  }

  // ---------------------------------------------------------------- scalars

  function Wrapped(value: nat, half: nat): int {
    if value < half then value else value - 2 * half
  }

  function Unwrapped(i: int, half: nat): nat
    requires 0 <= i + half
  {
    if i >= 0 then i else i + 2 * half
  }

  function Width(t: FieldType): nat {
    match t
    case Byte => 1
    case Character => 1
    case Unicode => 2
    case Short => 2
    case Integer => 4
    case Tag => 4
    case _ => 8
  }

  // A fixed-width value as stored, before its meaning is taken.
  function FromStored(t: FieldType, delta: bool, stored: nat): ScalarValue {
    match t
    case Byte => Word(stored)
    case Character => Word(stored)
    case Unicode => Word(stored)
    case Short => if stored == NULL_SHORT then Null else Signed(Wrapped(stored, 0x8000))
    case Integer => FromStoredInteger(delta, stored)
    case Tag => FromStoredInteger(delta, stored)
    case _ => if stored == NULL_DOUBLE then Null else Bits(stored)
  }

  function FromStoredInteger(delta: bool, stored: nat): ScalarValue {
    if delta then Word(stored)
    else if stored == NULL_INTEGER then Null
    else Signed(Wrapped(stored, 0x8000_0000))
  }

  function ToStored(t: FieldType, v: ScalarValue): nat {
    match v
    case Null => if t == Short then NULL_SHORT else if t == Integer || t == Tag then NULL_INTEGER else NULL_DOUBLE
    case Flag(_) => 0
    case Signed(i) =>
      var half := if t == Short then 0x8000 else 0x8000_0000;
      if 0 <= i + half then Unwrapped(i, half) else 0
    case Word(w) => w
    case Bits(bits) => bits
  }

  function ScalarAt(data: Bytes, pos: nat, t: FieldType, delta: bool): Result<ScalarValue> {
    match t
    case Logical =>
      var b :- LogicalAt(data, pos);
      Ok(Flag(b))
    case Pointer =>
      var index :- IndexAt(data, pos);
      Ok(Word(index))
    case Opaque => Err(UnsupportedSchema)
    case _ =>
      var stored :- ReadAt(data, pos, Width(t));
      Ok(FromStored(t, delta, stored))
  }

  function PrintScalar(t: FieldType, v: ScalarValue): Bytes {
    match t
    case Logical => PrintLogical(v == Flag(true))
    case Pointer => PrintIndex(if v.Word? then v.w else 0)
    case Opaque => []
    case _ => Print(Width(t), ToStored(t, v))
  }

  predicate IsScalar(t: FieldType, delta: bool, v: ScalarValue) {
    match t
    case Logical => v.Flag?
    case Pointer => v.Word? && IsIndex(v.w)
    case Opaque => false
    case _ => ToStored(t, v) < Power256(Width(t)) && FromStored(t, delta, ToStored(t, v)) == v
  }

  lemma Powers()
    ensures Power256(1) == 256 && Power256(2) == 0x1_0000 && Power256(4) == 0x1_0000_0000
    ensures Power256(8) == 0x1_0000_0000_0000_0000
  {
    assert Power256(1) == 256;
    assert Power256(2) == 0x1_0000;
    assert Power256(3) == 0x100_0000;
    assert Power256(4) == 0x1_0000_0000;
    assert Power256(5) == 0x100_0000_0000;
    assert Power256(6) == 0x1_0000_0000_0000;
    assert Power256(7) == 0x100_0000_0000_0000;
  }

  lemma StoredBack(t: FieldType, delta: bool, stored: nat)
    requires stored < Power256(Width(t)) && t != Logical && t != Pointer && t != Opaque
    ensures ToStored(t, FromStored(t, delta, stored)) == stored
  {
    hide Power256;
    Powers();
  }

  // Every value has exactly one encoding under its field type.
  lemma ScalarIff(data: Bytes, pos: nat, t: FieldType, delta: bool, v: ScalarValue)
    ensures ScalarAt(data, pos, t, delta) == Ok(v) <==> IsScalar(t, delta, v) && PrefixAt(PrintScalar(t, v), data, pos)
  {
    hide PrefixAt, LogicalAt, PrintLogical, IndexAt, PrintIndex, IsIndex, ReadAt, Print, Power256, FromStored, ToStored,
         Width;
    match t
    case Logical => LogicalIff(data, pos, v == Flag(true));
      LogicalIff(data, pos, v != Flag(true));
    case Pointer => IndexIff(data, pos, if v.Word? then v.w else 0);
    case Opaque =>
    case _ =>
      WidthRange(t);
      ReadIff(data, pos, Width(t), ToStored(t, v));
      var stored := ReadAt(data, pos, Width(t));
      if stored.Ok? {
        ReadIff(data, pos, Width(t), stored.value);
        StoredBack(t, delta, stored.value);
      }
  }

  lemma WidthRange(t: FieldType)
    ensures 1 <= Width(t) <= 8
  {
  }

  // ---------------------------------------------------------------- values of one field

  datatype Values = Values(values: seq<ScalarValue>, statuses: seq<nat>)

  // Pointers in status-framed nodes carry a status byte each.
  predicate HasStatus(t: FieldType, framed: bool) {
    framed && t == Pointer
  }

  function StatusAt(data: Bytes, pos: nat): Result<nat> {
    var status :- ReadAt(data, pos, 1);
    if status > 1 then Err(InvalidRecord) else Ok(status)
  }

  function ValuesAt(data: Bytes, pos: nat, t: FieldType, framed: bool, count: nat): (r: Result<Values>)
    ensures r.Ok? ==> |r.value.values| == count && |r.value.statuses| == if HasStatus(t, framed) then count else 0
    decreases count, 0
  {
    if count == 0 then Ok(Values([], []))
    else
      var v :- ScalarAt(data, pos, t, framed);
      var rest :- AfterValue(data, pos + |PrintScalar(t, v)|, t, framed, count - 1);
      Ok(Values([v] + rest.values, rest.statuses))
  }

  // The status of the value just read, and the `count` values after it.
  function AfterValue(data: Bytes, pos: nat, t: FieldType, framed: bool, count: nat): (r: Result<Values>)
    ensures r.Ok? ==> |r.value.values| == count && |r.value.statuses| == if HasStatus(t, framed) then count + 1 else 0
    decreases count, 1
  {
    if HasStatus(t, framed) then
      var status :- StatusAt(data, pos);
      var rest :- ValuesAt(data, pos + 1, t, framed, count);
      Ok(Values(rest.values, [status] + rest.statuses))
    else ValuesAt(data, pos, t, framed, count)
  }

  function PrintStatus(t: FieldType, framed: bool, statuses: seq<nat>): Bytes {
    if HasStatus(t, framed) then Print(1, if statuses == [] then 0 else statuses[0]) else []
  }

  function RestStatuses(t: FieldType, framed: bool, statuses: seq<nat>): seq<nat> {
    if HasStatus(t, framed) && statuses != [] then statuses[1..] else statuses
  }

  function PrintValues(t: FieldType, framed: bool, values: seq<ScalarValue>, statuses: seq<nat>): Bytes {
    if values == [] then []
    else PrintScalar(t, values[0]) + (PrintStatus(t, framed, statuses)
         + PrintValues(t, framed, values[1..], RestStatuses(t, framed, statuses)))
  }

  predicate AreValues(t: FieldType, framed: bool, values: seq<ScalarValue>, statuses: seq<nat>) {
    && |statuses| == (if HasStatus(t, framed) then |values| else 0)
    && (forall k :: 0 <= k < |values| ==> IsScalar(t, framed, values[k]))
    && (forall k :: 0 <= k < |statuses| ==> statuses[k] <= 1)
  }

  lemma StatusIff(data: Bytes, pos: nat, status: nat)
    ensures StatusAt(data, pos) == Ok(status) <==> status <= 1 && PrefixAt(Print(1, status), data, pos)
  {
    Powers();
    ReadIff(data, pos, 1, status);
  }

  function PrintAfter(t: FieldType, framed: bool, values: seq<ScalarValue>, statuses: seq<nat>): Bytes {
    PrintStatus(t, framed, statuses) + PrintValues(t, framed, values, RestStatuses(t, framed, statuses))
  }

  predicate AreAfter(t: FieldType, framed: bool, values: seq<ScalarValue>, statuses: seq<nat>) {
    && |statuses| == (if HasStatus(t, framed) then |values| + 1 else 0)
    && (forall k :: 0 <= k < |values| ==> IsScalar(t, framed, values[k]))
    && (forall k :: 0 <= k < |statuses| ==> statuses[k] <= 1)
  }

  lemma {:induction false} ValuesIff(data: Bytes, pos: nat, t: FieldType, framed: bool, count: nat, v: Values)
    requires pos <= |data|
    ensures ValuesAt(data, pos, t, framed, count) == Ok(v)
       <==> && |v.values| == count && AreValues(t, framed, v.values, v.statuses)
            && PrefixAt(PrintValues(t, framed, v.values, v.statuses), data, pos)
    decreases count, 0
  {
    hide ScalarAt, PrintScalar, IsScalar, PrefixAt, PrintAfter, AreAfter, AfterValue, AreValues;
    if count == 0 || v.values == [] {
      PrefixEmpty(data, pos);
      NoValues(t, framed, v.statuses);
    } else {
      var first, values := v.values[0], v.values[1..];
      var bytes := PrintScalar(t, first);
      assert v.values == [first] + values;
      ScalarIff(data, pos, t, framed, first);
      PrefixSplit(bytes, PrintAfter(t, framed, values, v.statuses), data, pos);
      FirstValue(t, framed, v);
      if PrefixAt(bytes, data, pos) {
        PrefixFits(bytes, data, pos);
        AfterIff(data, pos + |bytes|, t, framed, count - 1, Values(values, v.statuses));
      }
    }
  }

  lemma NoValues(t: FieldType, framed: bool, statuses: seq<nat>)
    ensures AreValues(t, framed, [], statuses) <==> statuses == []
  {
  }

  lemma FirstValue(t: FieldType, framed: bool, v: Values)
    requires v.values != []
    ensures PrintValues(t, framed, v.values, v.statuses)
         == PrintScalar(t, v.values[0]) + PrintAfter(t, framed, v.values[1..], v.statuses)
    ensures AreValues(t, framed, v.values, v.statuses)
       <==> IsScalar(t, framed, v.values[0]) && AreAfter(t, framed, v.values[1..], v.statuses)
  {
    hide PrintScalar, IsScalar, PrintStatus, RestStatuses;
    assert v.values == [v.values[0]] + v.values[1..];
  }

  lemma {:induction false} AfterIff(data: Bytes, pos: nat, t: FieldType, framed: bool, count: nat, v: Values)
    requires pos <= |data|
    ensures AfterValue(data, pos, t, framed, count) == Ok(v)
       <==> && |v.values| == count && AreAfter(t, framed, v.values, v.statuses)
            && PrefixAt(PrintAfter(t, framed, v.values, v.statuses), data, pos)
    decreases count, 1
  {
    hide IsScalar, StatusAt, PrefixAt, Print, PrintValues, ValuesAt;
    if HasStatus(t, framed) {
      if v.statuses != [] {
        var status, rest := v.statuses[0], v.statuses[1..];
        assert v.statuses == [status] + rest;
        StatusIff(data, pos, status);
        PrefixSplit(Print(1, status), PrintValues(t, framed, v.values, rest), data, pos);
        if PrefixAt(Print(1, status), data, pos) {
          PrefixFits(Print(1, status), data, pos);
          ValuesIff(data, pos + 1, t, framed, count, Values(v.values, rest));
        }
      }
    } else {
      assert PrintAfter(t, framed, v.values, v.statuses) == PrintValues(t, framed, v.values, v.statuses);
      ValuesIff(data, pos, t, framed, count, v);
    }
  }

  // ---------------------------------------------------------------- the fields of a node

  // How often a field occurs, given the node's variable length.
  function Elements(def: FieldDefinition, length: Option<nat>): nat {
    if !def.transmitted then 0
    else if def.elements == 0 then 1
    else if def.elements == 1 then (if length.Some? then length.value else 0)
    else def.elements
  }

  function Product(a: nat, b: nat): nat {
    a * b
  }

  function FieldValues(def: FieldDefinition, length: Option<nat>, framed: bool): nat {
    Product(Elements(def, length), Components(def.fieldType, framed))
  }

  // The field of definition i, with `budget` values left.
  function FieldOne(data: Bytes, pos: nat, defs: seq<FieldDefinition>, i: nat, length: Option<nat>, framed: bool,
                    budget: nat): (r: Result<DecodedField>)
    requires i < |defs|
    ensures r.Ok? ==> |r.value.values| <= budget
  {
    var def := defs[i];
    var count := FieldValues(def, length, framed);
    if count > budget then Err(ResourceLimit)
    else
      var v :- ValuesAt(data, pos, def.fieldType, framed, count);
      Ok(DecodedField(i, pos, |PrintValues(def.fieldType, framed, v.values, v.statuses)|, Elements(def, length),
                      Components(def.fieldType, framed), v.values, v.statuses))
  }

  function FieldsDecoded(data: Bytes, pos: nat, defs: seq<FieldDefinition>, i: nat, length: Option<nat>, framed: bool,
                         budget: nat): (r: Result<seq<DecodedField>>)
    ensures r.Ok? && i <= |defs| ==> |r.value| == |defs| - i
    decreases |defs| - i
  {
    if i >= |defs| then Ok([])
    else
      var f :- FieldOne(data, pos, defs, i, length, framed, budget);
      var rest :- FieldsDecoded(data, pos + f.size, defs, i + 1, length, framed, budget - |f.values|);
      Ok([f] + rest)
  }

  function PrintFieldValues(defs: seq<FieldDefinition>, framed: bool, f: DecodedField): Bytes {
    if f.definitionIndex < |defs|
    then PrintValues(defs[f.definitionIndex].fieldType, framed, f.values, f.statuses) else []
  }

  function PrintDecoded(defs: seq<FieldDefinition>, framed: bool, fields: seq<DecodedField>): Bytes {
    if fields == [] then []
    else PrintFieldValues(defs, framed, fields[0]) + PrintDecoded(defs, framed, fields[1..])
  }

  predicate IsDecodedField(f: DecodedField, pos: nat, defs: seq<FieldDefinition>, i: nat, length: Option<nat>, framed: bool)
    requires i < |defs|
  {
    var def := defs[i];
    && f.definitionIndex == i && f.offset == pos && f.size == |PrintFieldValues(defs, framed, f)|
    && f.elements == Elements(def, length) && f.components == Components(def.fieldType, framed)
    && |f.values| == FieldValues(def, length, framed) && AreValues(def.fieldType, framed, f.values, f.statuses)
  }

  // One decoded field per definition from i on, one after the other.
  predicate AreDecoded(fields: seq<DecodedField>, pos: nat, defs: seq<FieldDefinition>, i: nat, length: Option<nat>,
                       framed: bool, budget: nat)
    decreases |fields|
  {
    if i >= |defs| then fields == []
    else
      && fields != [] && IsDecodedField(fields[0], pos, defs, i, length, framed)
      && |fields[0].values| <= budget
      && AreDecoded(fields[1..], pos + fields[0].size, defs, i + 1, length, framed, budget - |fields[0].values|)
  }

  lemma {:induction false} FieldsDecodedIff(data: Bytes, pos: nat, defs: seq<FieldDefinition>, i: nat, length: Option<nat>,
                                            framed: bool, budget: nat, fields: seq<DecodedField>)
    requires pos <= |data|
    ensures FieldsDecoded(data, pos, defs, i, length, framed, budget) == Ok(fields)
       <==> && AreDecoded(fields, pos, defs, i, length, framed, budget)
            && PrefixAt(PrintDecoded(defs, framed, fields), data, pos)
    decreases |defs| - i
  {
    hide FieldOne, PrintFieldValues, IsDecodedField, PrefixAt;
    if i >= |defs| || fields == [] {
      PrefixEmpty(data, pos);
    } else {
      var f, rest := fields[0], fields[1..];
      assert fields == [f] + rest;
      FieldOneIff(data, pos, defs, i, length, framed, budget, f);
      PrefixSplit(PrintFieldValues(defs, framed, f), PrintDecoded(defs, framed, rest), data, pos);
      if FieldOne(data, pos, defs, i, length, framed, budget) == Ok(f) {
        FieldSize(f, pos, defs, i, length, framed);
        PrefixFits(PrintFieldValues(defs, framed, f), data, pos);
        FieldsDecodedIff(data, pos + f.size, defs, i + 1, length, framed, budget - |f.values|, rest);
      }
    }
  }

  lemma FieldSize(f: DecodedField, pos: nat, defs: seq<FieldDefinition>, i: nat, length: Option<nat>, framed: bool)
    requires i < |defs| && IsDecodedField(f, pos, defs, i, length, framed)
    ensures f.size == |PrintFieldValues(defs, framed, f)|
  {
  }

  lemma FieldOneIff(data: Bytes, pos: nat, defs: seq<FieldDefinition>, i: nat, length: Option<nat>, framed: bool,
                    budget: nat, f: DecodedField)
    requires pos <= |data| && i < |defs|
    ensures FieldOne(data, pos, defs, i, length, framed, budget) == Ok(f)
       <==> && IsDecodedField(f, pos, defs, i, length, framed) && |f.values| <= budget
            && PrefixAt(PrintFieldValues(defs, framed, f), data, pos)
  {
    hide ValuesAt, PrintValues, AreValues, PrefixAt, FieldValues, Elements, Components;
    ValuesIff(data, pos, defs[i].fieldType, framed, FieldValues(defs[i], length, framed), Values(f.values, f.statuses));
  }

  // ---------------------------------------------------------------- node bodies

  predicate HasLength(defs: seq<FieldDefinition>) {
    defs != [] && defs[|defs| - 1].elements == 1
  }

  function LengthAt(data: Bytes, pos: nat, defs: seq<FieldDefinition>): Result<Option<nat>> {
    if !HasLength(defs) then Ok(None)
    else
      var count :- ReadAt(data, pos, 4);
      if count > 0x7fffffff then Err(InvalidRecord) else Ok(Some(count))
  }

  function PrintLength(length: Option<nat>): Bytes {
    match length
    case None => []
    case Some(count) => Print(4, count)
  }

  // The body after a node's type and definition. Framed nodes may repeat an
  // index; `fields` definitions and `budget` values may still be decoded.
  function BodyAt(data: Bytes, pos: nat, defs: seq<FieldDefinition>, framed: bool, taken: set<int>, fields: nat,
                  budget: nat): (r: Result<Body>)
    ensures r.Ok? ==> |r.value.fields| == |defs|
  {
    var length :- LengthAt(data, pos, defs);
    var p1 := pos + |PrintLength(length)|;
    var index :- IndexAt(data, p1);
    if index == 0 || (!framed && index in taken) then Err(InvalidRecord)
    else if |defs| > fields then Err(ResourceLimit)
    else
      var decoded :- FieldsDecoded(data, p1 + |PrintIndex(index)|, defs, 0, length, framed, budget);
      Ok(Body(length, index, decoded))
  }

  function PrintBody(b: Body, defs: seq<FieldDefinition>, framed: bool): (bytes: Bytes)
    ensures |bytes| >= 2
  {
    PrintLength(b.variableLength) + (PrintIndex(b.index) + PrintDecoded(defs, framed, b.fields))
  }

  predicate IsBody(b: Body, pos: nat, defs: seq<FieldDefinition>, framed: bool, taken: set<int>, fields: nat, budget: nat) {
    && (b.variableLength.Some? <==> HasLength(defs))
    && (b.variableLength.Some? ==> b.variableLength.value <= 0x7fffffff)
    && IsIndex(b.index) && b.index != 0 && (framed || b.index !in taken) && |defs| <= fields
    && AreDecoded(b.fields, pos + |PrintLength(b.variableLength)| + |PrintIndex(b.index)|, defs, 0, b.variableLength,
                  framed, budget)
  }

  lemma LengthIff(data: Bytes, pos: nat, defs: seq<FieldDefinition>, length: Option<nat>)
    requires pos <= |data|
    ensures LengthAt(data, pos, defs) == Ok(length)
       <==> && (length.Some? <==> HasLength(defs)) && (length.Some? ==> length.value <= 0x7fffffff)
            && PrefixAt(PrintLength(length), data, pos)
  {
    Powers();
    PrefixEmpty(data, pos);
    ReadIff(data, pos, 4, if length.Some? then length.value else 0);
  }

  // A body has exactly one encoding under its definition.
  lemma BodyIff(data: Bytes, pos: nat, defs: seq<FieldDefinition>, framed: bool, taken: set<int>, fields: nat,
                budget: nat, b: Body)
    requires pos <= |data|
    ensures BodyAt(data, pos, defs, framed, taken, fields, budget) == Ok(b)
       <==> IsBody(b, pos, defs, framed, taken, fields, budget) && PrefixAt(PrintBody(b, defs, framed), data, pos)
  {
    hide LengthAt, PrintLength, IndexAt, PrintIndex, IsIndex, FieldsDecoded, PrintDecoded, AreDecoded, PrefixAt, HasLength;
    var length, index := PrintLength(b.variableLength), PrintIndex(b.index);
    var decoded := PrintDecoded(defs, framed, b.fields);
    var p1 := pos + |length|;
    LengthIff(data, pos, defs, b.variableLength);
    IndexIff(data, p1, b.index);
    PrefixSplit(length, index + decoded, data, pos);
    PrefixSplit(index, decoded, data, p1);
    if PrefixAt(index, data, p1) {
      PrefixFits(index, data, p1);
      FieldsDecodedIff(data, p1 + |index|, defs, 0, b.variableLength, framed, budget, b.fields);
    }
  }

  // ---------------------------------------------------------------- the reader

  method ReadScalar(cursor: Cursor, t: FieldType, delta: bool) returns (r: Result<ScalarValue>)
    modifies cursor`pos
    ensures r == ScalarAt(cursor.data, old(cursor.pos), t, delta)
    ensures r.Ok? ==> cursor.pos == old(cursor.pos) + |PrintScalar(t, r.value)|
  {
    hide LogicalAt, PrintLogical, IndexAt, PrintIndex, ReadAt, Print, ToStored;
    match t
    case Byte | Character | Unicode =>
      var value :- cursor.Read(if t == Unicode then 2 else 1);
      return Ok(Word(value));
    case Logical =>
      var value :- cursor.Logical();
      return Ok(Flag(value));
    case Pointer =>
      var value :- cursor.Index();
      return Ok(Word(value));
    case Short =>
      var value :- cursor.Read(2);
      if value == NULL_SHORT {
        return Ok(Null);
      }
      return Ok(Signed(Wrapped(value, 0x8000)));
    case Integer | Tag =>
      var value :- cursor.Read(4);
      if delta {
        return Ok(Word(value));
      }
      if value == NULL_INTEGER {
        return Ok(Null);
      }
      return Ok(Signed(Wrapped(value, 0x8000_0000)));
    case Opaque => return Err(UnsupportedSchema);
    case Double | Interval | Vector | Box | IntersectionPoint =>
      var bits :- cursor.Read(8);
      if bits == NULL_DOUBLE {
        return Ok(Null);
      }
      return Ok(Bits(bits));
  }

  function PrependValues(v: Values, r: Result<Values>): Result<Values> {
    match r
    case Err(error) => Err(error)
    case Ok(rest) => Ok(Values(v.values + rest.values, v.statuses + rest.statuses))
  }

  lemma ValuePrepended(v: Values, value: ScalarValue, status: seq<nat>, r: Result<Values>)
    ensures PrependValues(Values(v.values + [value], v.statuses + status), r)
         == PrependValues(v, PrependValues(Values([value], status), r))
    ensures PrependValues(Values([], []), r) == r
  {
    if r.Ok? {
      assert v.values + [value] + r.value.values == v.values + ([value] + r.value.values);
      assert v.statuses + status + r.value.statuses == v.statuses + (status + r.value.statuses);
      assert [] + r.value.values == r.value.values && [] + r.value.statuses == r.value.statuses;
    }
  }

  lemma {:induction false} PrintValuesAppend(t: FieldType, framed: bool, v: Values, value: ScalarValue, status: seq<nat>)
    requires |v.statuses| == (if HasStatus(t, framed) then |v.values| else 0)
    requires |status| == (if HasStatus(t, framed) then 1 else 0)
    ensures |PrintValues(t, framed, v.values + [value], v.statuses + status)|
         == |PrintValues(t, framed, v.values, v.statuses)| + |PrintScalar(t, value)| + |status|
    decreases |v.values|
  {
    hide PrintScalar, Print;
    var values, statuses := v.values + [value], v.statuses + status;
    if v.values == [] {
      assert values[1..] == [];
    } else {
      var rest := RestStatuses(t, framed, v.statuses);
      PrintValuesAppend(t, framed, Values(v.values[1..], rest), value, status);
      assert values[1..] == v.values[1..] + [value];
      assert RestStatuses(t, framed, statuses) == rest + status;
    }
  }

  // One value with its status, if it carries one.
  function ValueAt(data: Bytes, pos: nat, t: FieldType, framed: bool): (r: Result<(ScalarValue, seq<nat>)>)
    ensures r.Ok? ==> |r.value.1| == if HasStatus(t, framed) then 1 else 0
  {
    var v :- ScalarAt(data, pos, t, framed);
    if HasStatus(t, framed) then
      var status :- StatusAt(data, pos + |PrintScalar(t, v)|);
      Ok((v, [status]))
    else Ok((v, []))
  }

  lemma ValuesUnfold(data: Bytes, pos: nat, t: FieldType, framed: bool, count: nat)
    requires count > 0
    ensures ValuesAt(data, pos, t, framed, count) == match ValueAt(data, pos, t, framed)
      case Err(error) => Err(error)
      case Ok(one) =>
        PrependValues(Values([one.0], one.1),
                      ValuesAt(data, pos + |PrintScalar(t, one.0)| + |one.1|, t, framed, count - 1))
  {
    hide ScalarAt, PrintScalar, StatusAt;
    var one := ValueAt(data, pos, t, framed);
    if one.Ok? {
      var rest := ValuesAt(data, pos + |PrintScalar(t, one.value.0)| + |one.value.1|, t, framed, count - 1);
      if rest.Ok? {
        assert [] + rest.value.statuses == rest.value.statuses;
      }
    }
  }

  method ReadValue(cursor: Cursor, t: FieldType, framed: bool) returns (r: Result<(ScalarValue, seq<nat>)>)
    modifies cursor`pos
    ensures r == ValueAt(cursor.data, old(cursor.pos), t, framed)
    ensures r.Ok? ==> cursor.pos == old(cursor.pos) + |PrintScalar(t, r.value.0)| + |r.value.1|
  {
    hide ScalarAt, PrintScalar, ReadAt;
    var value :- ReadScalar(cursor, t, framed);
    if framed && t == Pointer {
      var status :- cursor.Read(1);
      if status > 1 {
        return Err(InvalidRecord);
      }
      return Ok((value, [status]));
    }
    return Ok((value, []));
  }

  // Values one at a time; nothing grows before its bytes were read.
  method ReadValues(cursor: Cursor, t: FieldType, framed: bool, count: nat) returns (r: Result<Values>)
    modifies cursor`pos
    ensures r == ValuesAt(cursor.data, old(cursor.pos), t, framed, count)
    ensures r.Ok? ==>
      cursor.pos == old(cursor.pos) + |PrintValues(t, framed, r.value.values, r.value.statuses)|
  {
    hide ValueAt, PrintScalar, PrintValues, HasStatus;
    var v := Values([], []);
    ghost var start, data := cursor.pos, cursor.data;
    ValuePrepended(v, Null, [], ValuesAt(data, start, t, framed, count));
    assert PrintValues(t, framed, [], []) == [] by {
      NothingPrinted(t, framed);
    }
    for j := 0 to count
      invariant |v.values| == j && |v.statuses| == if HasStatus(t, framed) then j else 0
      invariant cursor.pos == start + |PrintValues(t, framed, v.values, v.statuses)|
      invariant ValuesAt(data, start, t, framed, count)
             == PrependValues(v, ValuesAt(data, cursor.pos, t, framed, count - j))
    {
      ValuesUnfold(data, cursor.pos, t, framed, count - j);
      var one :- ReadValue(cursor, t, framed);
      ValuePrepended(v, one.0, one.1, ValuesAt(data, cursor.pos, t, framed, count - j - 1));
      PrintValuesAppend(t, framed, v, one.0, one.1);
      v := Values(v.values + [one.0], v.statuses + one.1);
    }
    assert v.values + [] == v.values && v.statuses + [] == v.statuses;
    return Ok(v);
  }

  lemma NothingPrinted(t: FieldType, framed: bool)
    ensures PrintValues(t, framed, [], []) == []
  {
  }

  function PrependDecoded(fields: seq<DecodedField>, r: Result<seq<DecodedField>>): Result<seq<DecodedField>> {
    match r
    case Err(error) => Err(error)
    case Ok(rest) => Ok(fields + rest)
  }

  lemma DecodedPrepended(fields: seq<DecodedField>, f: DecodedField, r: Result<seq<DecodedField>>)
    ensures PrependDecoded(fields + [f], r) == PrependDecoded(fields, PrependDecoded([f], r))
    ensures PrependDecoded([], r) == r
  {
    if r.Ok? {
      assert fields + [f] + r.value == fields + ([f] + r.value);
      assert [] + r.value == r.value;
    }
  }

  lemma {:induction false} PrintDecodedAppend(defs: seq<FieldDefinition>, framed: bool, fields: seq<DecodedField>, f: DecodedField)
    ensures PrintDecoded(defs, framed, fields + [f]) == PrintDecoded(defs, framed, fields) + PrintFieldValues(defs, framed, f)
  {
    hide PrintFieldValues;
    if fields == [] {
      assert [f][1..] == [];
      assert PrintDecoded(defs, framed, [f]) == PrintFieldValues(defs, framed, f) + PrintDecoded(defs, framed, []);
    } else {
      PrintDecodedAppend(defs, framed, fields[1..], f);
      assert (fields + [f])[1..] == fields[1..] + [f];
    }
  }

  method ReadOne(cursor: Cursor, defs: seq<FieldDefinition>, i: nat, length: Option<nat>, framed: bool, budget: nat)
    returns (r: Result<DecodedField>)
    requires i < |defs|
    modifies cursor`pos
    ensures r == FieldOne(cursor.data, old(cursor.pos), defs, i, length, framed, budget)
    ensures r.Ok? ==> r.value.size == |PrintFieldValues(defs, framed, r.value)|
    ensures r.Ok? ==> cursor.pos == old(cursor.pos) + r.value.size
  {
    hide Elements, Components, HasStatus, PrintValues, Product, ValuesAt;
    var def := defs[i];
    var offset := cursor.pos;
    var elements, components := Elements(def, length), Components(def.fieldType, framed);
    var count := Product(elements, components);
    if count > budget {
      return Err(ResourceLimit);
    }
    var values :- ReadValues(cursor, def.fieldType, framed, count);
    return Ok(DecodedField(i, offset, cursor.pos - offset, elements, components, values.values, values.statuses));
  }

  // All fields in definition order, each charged before it is read.
  method ReadDecoded(cursor: Cursor, defs: seq<FieldDefinition>, length: Option<nat>, framed: bool, budget: nat)
    returns (r: Result<seq<DecodedField>>)
    modifies cursor`pos
    ensures r == FieldsDecoded(cursor.data, old(cursor.pos), defs, 0, length, framed, budget)
    ensures r.Ok? ==> cursor.pos == old(cursor.pos) + |PrintDecoded(defs, framed, r.value)|
    ensures r.Ok? ==> ValueTotal(r.value) <= budget
  {
    hide FieldOne, PrintFieldValues;
    ghost var first, data := cursor.pos, cursor.data;
    var left: nat := budget;
    var decoded: seq<DecodedField> := [];
    DecodedPrepended([], DecodedField(0, 0, 0, 0, 0, [], []), FieldsDecoded(data, first, defs, 0, length, framed, budget));
    for i := 0 to |defs|
      invariant |decoded| == i && cursor.pos == first + |PrintDecoded(defs, framed, decoded)|
      invariant left + ValueTotal(decoded) == budget
      invariant FieldsDecoded(data, first, defs, 0, length, framed, budget)
             == PrependDecoded(decoded, FieldsDecoded(data, cursor.pos, defs, i, length, framed, left))
    {
      var f :- ReadOne(cursor, defs, i, length, framed, left);
      DecodedPrepended(decoded, f, FieldsDecoded(data, cursor.pos, defs, i + 1, length, framed, left - |f.values|));
      PrintDecodedAppend(defs, framed, decoded, f);
      decoded := decoded + [f];
      left := left - |f.values|;
    }
    assert decoded + [] == decoded;
    return Ok(decoded);
  }

  method ReadLength(cursor: Cursor, defs: seq<FieldDefinition>) returns (r: Result<Option<nat>>)
    modifies cursor`pos
    ensures r == LengthAt(cursor.data, old(cursor.pos), defs)
    ensures r.Ok? ==> cursor.pos == old(cursor.pos) + |PrintLength(r.value)|
  {
    hide ReadAt, Print;
    if !HasLength(defs) {
      return Ok(None);
    }
    var count :- cursor.Read(4);
    if count > 0x7fffffff {
      return Err(InvalidRecord);
    }
    return Ok(Some(count));
  }

  method ReadBody(cursor: Cursor, defs: seq<FieldDefinition>, framed: bool, taken: set<int>, fields: nat, budget: nat)
    returns (r: Result<Body>)
    modifies cursor`pos
    ensures r == BodyAt(cursor.data, old(cursor.pos), defs, framed, taken, fields, budget)
    ensures r.Ok? ==> cursor.pos == old(cursor.pos) + |PrintBody(r.value, defs, framed)|
    ensures r.Ok? ==> ValueTotal(r.value.fields) <= budget
  {
    hide LengthAt, PrintLength, IndexAt, PrintIndex, FieldsDecoded, PrintDecoded;
    var length :- ReadLength(cursor, defs);
    var index :- cursor.Index();
    if index == 0 || (!framed && index in taken) {
      return Err(InvalidRecord);
    }
    if |defs| > fields {
      return Err(ResourceLimit);
    }
    var decoded :- ReadDecoded(cursor, defs, length, framed, budget);
    return Ok(Body(length, index, decoded));
  }

  function ValueTotal(fields: seq<DecodedField>): nat {
    if fields == [] then 0 else ValueTotal(fields[..|fields| - 1]) + |fields[|fields| - 1].values|
  }

  lemma {:induction false} TotalFront(fields: seq<DecodedField>)
    requires fields != []
    ensures ValueTotal(fields) == |fields[0].values| + ValueTotal(fields[1..])
  {
    if |fields| > 1 {
      TotalFront(fields[..|fields| - 1]);
      assert fields[..|fields| - 1][1..] == fields[1..][..|fields| - 2];
    } else {
      assert ValueTotal(fields[..0]) == 0 && ValueTotal(fields[1..]) == 0;
    }
  }

  lemma {:induction false} DecodedWithin(data: Bytes, pos: nat, defs: seq<FieldDefinition>, i: nat, length: Option<nat>,
                                         framed: bool, budget: nat)
    ensures var r := FieldsDecoded(data, pos, defs, i, length, framed, budget); r.Ok? ==> ValueTotal(r.value) <= budget
    decreases |defs| - i
  {
    hide FieldOne, ValueTotal;
    NoTotal();
    var r := FieldsDecoded(data, pos, defs, i, length, framed, budget);
    if i < |defs| && r.Ok? {
      var f := FieldOne(data, pos, defs, i, length, framed, budget).value;
      DecodedWithin(data, pos + f.size, defs, i + 1, length, framed, budget - |f.values|);
      TotalFront(r.value);
      assert r.value[1..] == FieldsDecoded(data, pos + f.size, defs, i + 1, length, framed, budget - |f.values|).value;
    }
  }

  lemma NoTotal()
    ensures ValueTotal([]) == 0
  {
  }

  lemma BodyWithin(data: Bytes, pos: nat, defs: seq<FieldDefinition>, framed: bool, taken: set<int>, fields: nat,
                   budget: nat)
    ensures var r := BodyAt(data, pos, defs, framed, taken, fields, budget); r.Ok? ==> ValueTotal(r.value.fields) <= budget
  {
    hide LengthAt, PrintLength, IndexAt, PrintIndex, FieldsDecoded, ValueTotal;
    var length := LengthAt(data, pos, defs);
    if length.Ok? {
      var p1 := pos + |PrintLength(length.value)|;
      var index := IndexAt(data, p1);
      if index.Ok? {
        DecodedWithin(data, p1 + |PrintIndex(index.value)|, defs, 0, length.value, framed, budget);
      }
    }
  }
}
