// Big-endian values, compact indices and text, read at a cursor.
module BinaryReader {
  import opened Results

  type byte = b: int | 0 <= b < 256

  type Bytes = seq<byte>

  function Power256(width: nat): (r: nat)
    ensures r >= 1
  {
    if width == 0 then 1 else 256 * Power256(width - 1)
  }

  // Most significant byte first.
  function Value(bytes: Bytes): nat {
    if bytes == [] then 0 else Value(bytes[..|bytes| - 1]) * 256 + bytes[|bytes| - 1]
  }

  function Print(width: nat, value: nat): (bytes: Bytes)
    ensures |bytes| == width
  {
    if width == 0 then [] else Print(width - 1, value / 256) + [value % 256]
  }

  lemma {:induction false} PrintedValue(width: nat, value: nat)
    requires value < Power256(width)
    ensures Value(Print(width, value)) == value
  {
    if width > 0 {
      PrintedValue(width - 1, value / 256);
      assert Print(width, value)[..width - 1] == Print(width - 1, value / 256);
    }
  }

  lemma {:induction false} ValuePrinted(bytes: Bytes)
    ensures Value(bytes) < Power256(|bytes|)
    ensures Print(|bytes|, Value(bytes)) == bytes
  {
    if bytes != [] {
      ValuePrinted(bytes[..|bytes| - 1]);
      assert bytes == bytes[..|bytes| - 1] + [bytes[|bytes| - 1]];
    }
  }

  predicate PrefixAt(s: Bytes, data: Bytes, pos: nat) {
    pos + |s| <= |data| && data[pos..pos + |s|] == s
  }

  lemma PrefixSplit(a: Bytes, b: Bytes, data: Bytes, pos: nat)
    ensures PrefixAt(a + b, data, pos) <==> PrefixAt(a, data, pos) && PrefixAt(b, data, pos + |a|)
  {
    if pos + |a| + |b| <= |data| {
      var whole := data[pos..pos + |a| + |b|];
      assert whole == data[pos..pos + |a|] + data[pos + |a|..pos + |a| + |b|];
      assert whole[..|a|] == data[pos..pos + |a|] && whole[|a|..] == data[pos + |a|..pos + |a| + |b|];
    }
  }

  // ---------------------------------------------------------------- fixed width

  function ReadAt(data: Bytes, pos: nat, width: nat): Result<nat> {
    if width > 8 then Err(InvalidOptions)
    else if pos + width > |data| then Err(InvalidRecord)
    else Ok(Value(data[pos..pos + width]))
  }

  lemma ReadIff(data: Bytes, pos: nat, width: nat, value: nat)
    requires width <= 8
    ensures ReadAt(data, pos, width) == Ok(value)
       <==> value < Power256(width) && PrefixAt(Print(width, value), data, pos)
  {
    hide Power256, Print, Value;
    if pos + width <= |data| {
      ValuePrinted(data[pos..pos + width]);
    }
    if value < Power256(width) {
      PrintedValue(width, value);
    }
  }

  // ---------------------------------------------------------------- compact indices

  const MAX_REMAINDER := 32767

  function Signed16(value: nat): int {
    if value < 32768 then value else value - 65536
  }

  predicate IsIndex(v: nat) {
    v < 32768 * MAX_REMAINDER
  }

  function PrintIndex(v: nat): (bytes: Bytes)
    ensures |bytes| == if v < MAX_REMAINDER then 2 else 4
  {
    if v < MAX_REMAINDER then Print(2, v + 1)
    else Print(2, 65536 - (v % MAX_REMAINDER + 1)) + Print(2, v / MAX_REMAINDER)
  }

  function IndexAt(data: Bytes, pos: nat): Result<nat> {
    if pos + 2 > |data| then Err(InvalidRecord)
    else
      var remainder := Signed16(Value(data[pos..pos + 2]));
      if remainder > 0 then Ok(remainder - 1)
      else if remainder == 0 || remainder == -32768 then Err(InvalidRecord)
      else if pos + 4 > |data| then Err(InvalidRecord)
      else
        var quotient := Signed16(Value(data[pos + 2..pos + 4]));
        if quotient <= 0 then Err(InvalidRecord) else Ok(quotient * MAX_REMAINDER - remainder - 1)
  }

  lemma TwoBytes(data: Bytes, pos: nat, value: nat)
    requires pos + 2 <= |data| && value < 65536
    ensures Value(data[pos..pos + 2]) < 65536
    ensures Value(data[pos..pos + 2]) == value <==> data[pos..pos + 2] == Print(2, value)
  {
    assert Power256(2) == 65536 by {
      assert Power256(1) == 256;
    }
    ValuePrinted(data[pos..pos + 2]);
    PrintedValue(2, value);
  }

  lemma Split(v: nat, quotient: nat, rest: nat)
    requires v == quotient * MAX_REMAINDER + rest && rest < MAX_REMAINDER
    ensures v / MAX_REMAINDER == quotient && v % MAX_REMAINDER == rest
  {
  }

  // Every index has exactly one encoding.
  lemma IndexIff(data: Bytes, pos: nat, v: nat)
    ensures IndexAt(data, pos) == Ok(v) <==> IsIndex(v) && PrefixAt(PrintIndex(v), data, pos)
  {
    hide Print, Value;
    if pos + 2 <= |data| {
      TwoBytes(data, pos, 0);
      if v < MAX_REMAINDER {
        TwoBytes(data, pos, v + 1);
        if pos + 4 <= |data| {
          TwoBytes(data, pos + 2, 0);
        }
      } else if IsIndex(v) {
        TwoBytes(data, pos, 65536 - (v % MAX_REMAINDER + 1));
        LongIndex(data, pos, v);
      } else if pos + 4 <= |data| {
        TwoBytes(data, pos + 2, 0);
      }
    }
  }

  lemma LongIndex(data: Bytes, pos: nat, v: nat)
    requires MAX_REMAINDER <= v && IsIndex(v) && pos + 2 <= |data|
    ensures IndexAt(data, pos) == Ok(v) <==> PrefixAt(PrintIndex(v), data, pos)
  {
    hide Print, Value;
    var low, high := 65536 - (v % MAX_REMAINDER + 1), v / MAX_REMAINDER;
    TwoBytes(data, pos, low);
    PrefixSplit(Print(2, low), Print(2, high), data, pos);
    if pos + 4 <= |data| {
      TwoBytes(data, pos + 2, high);
      var first, second := Value(data[pos..pos + 2]), Value(data[pos + 2..pos + 4]);
      if first > 32768 && 0 < second < 32768 {
        Split(second * MAX_REMAINDER + (65535 - first), second, 65535 - first);
      }
    }
  }

  // ---------------------------------------------------------------- text and flags

  predicate Printable(s: Bytes) {
    forall i :: 0 <= i < |s| ==> 32 <= s[i] <= 126
  }

  predicate IsText(s: Bytes, empty: bool) {
    |s| < 256 && Printable(s) && (empty || s != [])
  }

  function PrintText(s: Bytes): (bytes: Bytes)
    ensures |bytes| == 1 + |s|
  {
    [|s| % 256] + s
  }

  // The first problem among `count` characters.
  function CharactersAt(data: Bytes, pos: nat, count: nat): Result<Bytes>
    decreases count
  {
    if count == 0 then Ok([])
    else if pos >= |data| then Err(InvalidRecord)
    else if data[pos] < 32 || data[pos] > 126 then Err(InvalidSchema)
    else
      match CharactersAt(data, pos + 1, count - 1)
      case Err(error) => Err(error)
      case Ok(rest) => Ok([data[pos]] + rest)
  }

  function TextAt(data: Bytes, pos: nat, empty: bool): Result<Bytes> {
    if pos >= |data| then Err(InvalidRecord)
    else if !empty && data[pos] == 0 then Err(InvalidSchema)
    else CharactersAt(data, pos + 1, data[pos])
  }

  lemma {:induction false} CharactersIff(data: Bytes, pos: nat, count: nat, s: Bytes)
    requires pos <= |data|
    ensures CharactersAt(data, pos, count) == Ok(s) <==> |s| == count && Printable(s) && PrefixAt(s, data, pos)
    decreases count
  {
    if count > 0 && pos < |data| {
      if |s| == count {
        CharactersIff(data, pos + 1, count - 1, s[1..]);
        PrefixSplit([s[0]], s[1..], data, pos);
        assert s == [s[0]] + s[1..];
        assert PrefixAt([s[0]], data, pos) <==> data[pos] == s[0];
      } else if CharactersAt(data, pos + 1, count - 1).Ok? {
        CharactersIff(data, pos + 1, count - 1, CharactersAt(data, pos + 1, count - 1).value);
      }
    }
  }

  lemma TextIff(data: Bytes, pos: nat, empty: bool, s: Bytes)
    ensures TextAt(data, pos, empty) == Ok(s) <==> IsText(s, empty) && PrefixAt(PrintText(s), data, pos)
  {
    if pos < |data| {
      CharactersIff(data, pos + 1, data[pos], s);
      PrefixSplit([|s| % 256], s, data, pos);
      assert PrefixAt([|s| % 256], data, pos) <==> data[pos] == |s| % 256;
    }
  }

  function LogicalAt(data: Bytes, pos: nat): Result<bool> {
    if pos >= |data| || data[pos] > 1 then Err(InvalidRecord) else Ok(data[pos] != 0)
  }

  function PrintLogical(b: bool): (bytes: Bytes)
    ensures |bytes| == 1
  {
    [if b then 1 else 0]
  }

  lemma LogicalIff(data: Bytes, pos: nat, b: bool)
    ensures LogicalAt(data, pos) == Ok(b) <==> PrefixAt(PrintLogical(b), data, pos)
  {
    if pos < |data| {
      assert data[pos..pos + 1] == [data[pos]];
    }
  }

  // ---------------------------------------------------------------- the cursor

  // A failed operation never advances past the input.
  class Cursor {
    const data: Bytes
    var pos: nat

    constructor (data: Bytes, pos: nat)
      ensures this.data == data && this.pos == pos
    {
      this.data := data;
      this.pos := pos;
    }

    method Read(width: nat) returns (r: Result<nat>)
      modifies `pos
      ensures r == ReadAt(data, old(pos), width)
      ensures pos == if r.Ok? then old(pos) + width else old(pos)
    {
      if width > 8 {
        return Err(InvalidOptions);
      }
      if pos > |data| || width > |data| - pos {
        return Err(InvalidRecord);
      }
      ghost var start := pos;
      var value: nat := 0;
      for i := 0 to width
        invariant pos == start + i && value == Value(data[start..pos])
      {
        assert data[start..pos + 1][..i] == data[start..pos];
        value := value * 256 + data[pos];
        pos := pos + 1;
      }
      return Ok(value);
    }

    method Index() returns (r: Result<nat>)
      modifies `pos
      ensures r == IndexAt(data, old(pos))
      ensures r.Ok? ==> pos == old(pos) + |PrintIndex(r.value)|
      ensures old(pos) <= pos && (old(pos) <= |data| ==> pos <= |data|)
    {
      ghost var start := pos;
      var first := Read(2);
      if first.Err? {
        return Err(first.error);
      }
      TwoBytes(data, start, 0);
      var remainder := Signed16(first.value);
      if remainder > 0 {
        return Ok(remainder - 1);
      }
      if remainder == 0 || remainder == -32768 {
        return Err(InvalidRecord);
      }
      var second := Read(2);
      if second.Err? {
        return Err(second.error);
      }
      TwoBytes(data, start + 2, 0);
      var quotient := Signed16(second.value);
      if quotient <= 0 {
        return Err(InvalidRecord);
      }
      return Ok(quotient * MAX_REMAINDER - remainder - 1);
    }

    method Text(empty: bool) returns (r: Result<Bytes>)
      modifies `pos
      ensures r == TextAt(data, old(pos), empty)
      ensures r.Ok? ==> pos == old(pos) + |PrintText(r.value)|
      ensures old(pos) <= pos && (old(pos) <= |data| ==> pos <= |data|)
    {
      ghost var start := pos;
      var count := Read(1);
      if count.Err? {
        return Err(count.error);
      }
      OneByte(data, start);
      if !empty && count.value == 0 {
        return Err(InvalidSchema);
      }
      var text: Bytes := [];
      assert forall rest: Bytes :: text + rest == rest;
      for i := 0 to count.value
        invariant pos == start + 1 + i <= |data| && |text| == i
        invariant CharactersAt(data, start + 1, count.value)
               == match CharactersAt(data, pos, count.value - i)
                  case Err(error) => Err(error)
                  case Ok(rest) => Ok(text + rest)
      {
        var ch := Read(1);
        if ch.Err? {
          return Err(ch.error);
        }
        OneByte(data, start + 1 + i);
        if ch.value < 32 || ch.value > 126 {
          return Err(InvalidSchema);
        }
        ghost var before := text;
        text := text + [ch.value];
        assert forall rest: Bytes :: text + rest == before + ([ch.value] + rest);
      }
      assert text + [] == text;
      return Ok(text);
    }

    method Logical() returns (r: Result<bool>)
      modifies `pos
      ensures r == LogicalAt(data, old(pos))
      ensures r.Ok? ==> pos == old(pos) + 1
      ensures old(pos) <= pos && (old(pos) <= |data| ==> pos <= |data|)
    {
      ghost var start := pos;
      var value := Read(1);
      if value.Err? {
        return Err(value.error);
      }
      OneByte(data, start);
      if value.value > 1 {
        return Err(InvalidRecord);
      }
      return Ok(value.value != 0);
    }
  }

  lemma OneByte(data: Bytes, pos: nat)
    requires pos < |data|
    ensures Value(data[pos..pos + 1]) == data[pos]
  {
    assert data[pos..pos + 1] == [data[pos]];
    assert Value([data[pos]][..0]) == 0;
  }
}
