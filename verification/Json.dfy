/**
 A small JSON codec for the header and the data of Wyoming events: the compact writer and the
 reader of serde_json for objects, arrays, strings, integers, booleans and null. Strings are
 UTF-8 bytes; the escapes are those of section 7 of RFC 8259. Objects are sorted by key.
 */
module Json {
  import opened Common

  datatype Field = Field(key: Bytes, value: Json)

  datatype Json =
    | Null
    | Bool(b: bool)
    | Num(n: int)
    | Str(s: Bytes)
    | Arr(items: seq<Json>)
    | Obj(fields: seq<Field>)

  // serde_json stops at this nesting depth.
  const MAX_DEPTH := 128
  const MIN_I64 := -0x8000_0000_0000_0000

  const QUOTE := 34
  const BACKSLASH := 92
  const COMMA := 44
  const COLON := 58
  const NEWLINE := 10

  const NULL: Bytes := [110, 117, 108, 108]
  const TRUE: Bytes := [116, 114, 117, 101]
  const FALSE: Bytes := [102, 97, 108, 115, 101]

  /** The order of object keys: by bytes. */
  predicate Less(a: Bytes, b: Bytes) {
    b != [] && (a == [] || a[0] < b[0] || (a[0] == b[0] && Less(a[1..], b[1..])))
  }

  /** Adds or replaces a field of a sorted object. */
  function Insert(fields: seq<Field>, key: Bytes, value: Json): seq<Field> {
    if fields == [] then [Field(key, value)]
    else
      var init, last := fields[..|fields| - 1], fields[|fields| - 1];
      if last.key == key then init + [Field(key, value)]
      else if Less(last.key, key) then fields + [Field(key, value)]
      else Insert(init, key, value) + [last]
  }

  function InsertAll(fields: seq<Field>, more: seq<Field>): seq<Field>
    decreases |more|
  {
    if more == [] then fields
    else InsertAll(Insert(fields, more[0].key, more[0].value), more[1..])
  }

  function Get(fields: seq<Field>, key: Bytes): Option<Json> {
    if fields == [] then None
    else if fields[0].key == key then Some(fields[0].value)
    else Get(fields[1..], key)
  }

  predicate Sorted(fields: seq<Field>) {
    forall i | 0 <= i < |fields| - 1 :: Less(fields[i].key, fields[i + 1].key)
  }

  lemma LessIrreflexive(a: Bytes)
    ensures !Less(a, a)
  {
  }

  /** Reading a sorted object field by field gives it back. */
  lemma {:induction false} InsertAllSorted(fields: seq<Field>, more: seq<Field>)
    requires Sorted(fields + more)
    ensures InsertAll(fields, more) == fields + more
    decreases |more|
  {
    if more == [] {
      assert fields + more == fields;
    } else {
      var next := fields + [more[0]];
      assert next + more[1..] == fields + more;
      if fields != [] {
        var k := |fields| - 1;
        assert (fields + more)[k] == fields[k] && (fields + more)[k + 1] == more[0];
        LessIrreflexive(more[0].key);
        assert Less(fields[k].key, more[0].key);
      }
      assert Insert(fields, more[0].key, more[0].value) == next;
      InsertAllSorted(next, more[1..]);
    }
  }

  // Writing

  function HexDigit(n: nat): byte
    requires n < 16
  {
    if n < 10 then 48 + n else 87 + n
  }

  function Escape(c: byte): (s: Bytes)
    ensures |s| > 0
  {
    if c == QUOTE || c == BACKSLASH then [BACKSLASH, c]
    else if c == 8 then [BACKSLASH, 98]
    else if c == 9 then [BACKSLASH, 116]
    else if c == 10 then [BACKSLASH, 110]
    else if c == 12 then [BACKSLASH, 102]
    else if c == 13 then [BACKSLASH, 114]
    else if c < 32 then [BACKSLASH, 117, 48, 48, HexDigit(c / 16), HexDigit(c % 16)]
    else [c]
  }

  function EscapeAll(s: Bytes): Bytes {
    if s == [] then [] else Escape(s[0]) + EscapeAll(s[1..])
  }

  function EncodeString(s: Bytes): Bytes {
    [QUOTE] + (EscapeAll(s) + [QUOTE])
  }

  function Decimal(n: nat): (s: Bytes)
    ensures |s| > 0
  {
    if n < 10 then [48 + n] else Decimal(n / 10) + [48 + n % 10]
  }

  /** Where a writer puts space: behind an opening bracket, before a closing one, and around commas and
      colons. */
  datatype Style = Style(
    open: Bytes, close: Bytes, beforeComma: Bytes, afterComma: Bytes, beforeColon: Bytes, afterColon: Bytes)
  {
    function Comma(): Bytes {
      beforeComma + ([COMMA] + afterComma)
    }

    function Colon(): Bytes {
      beforeColon + ([COLON] + afterColon)
    }
  }

  /** serde_json writes no space. */
  const COMPACT := Style([], [], [], [], [], [])

  function Encode(v: Json): Bytes {
    Write(v, COMPACT)
  }

  function Write(v: Json, style: Style): Bytes
    decreases v
  {
    match v
    case Null => NULL
    case Bool(b) => if b then TRUE else FALSE
    case Num(n) => if n < 0 then [45] + Decimal(-n) else Decimal(n)
    case Str(s) => EncodeString(s)
    case Arr(items) =>
      if items == [] then [91] + (style.open + [93]) else [91] + (style.open + (WriteItems(v, items, style) + [93]))
    case Obj(fields) =>
      if fields == [] then [123] + (style.open + [125])
      else [123] + (style.open + (WriteFields(v, fields, style) + [125]))
  }

  function WriteItems(ghost context: Json, items: seq<Json>, style: Style): Bytes
    requires items != [] && forall i | 0 <= i < |items| :: items[i] < context
    decreases context, |items|
  {
    if |items| == 1 then Write(items[0], style) + style.close
    else Write(items[0], style) + (style.Comma() + WriteItems(context, items[1..], style))
  }

  function WriteField(ghost context: Json, field: Field, style: Style): Bytes
    requires field.value < context
    decreases context, 0
  {
    EncodeString(field.key) + (style.Colon() + Write(field.value, style))
  }

  function WriteFields(ghost context: Json, fields: seq<Field>, style: Style): Bytes
    requires fields != [] && forall i | 0 <= i < |fields| :: fields[i].value < context
    decreases context, |fields|
  {
    if |fields| == 1 then WriteField(context, fields[0], style) + style.close
    else WriteField(context, fields[0], style) + (style.Comma() + WriteFields(context, fields[1..], style))
  }

  // Reading

  /** A value and the position behind it. */
  datatype At<+T> = At(value: T, pos: nat)

  type Parsed<+T> = Result<At<T>, ()>

  predicate IsSpace(c: byte) {
    c == 32 || c == 9 || c == 10 || c == 13
  }

  predicate IsDigit(c: byte) {
    48 <= c <= 57
  }

  function SkipSpace(f: Bytes, pos: nat): (r: nat)
    requires pos <= |f|
    ensures pos <= r <= |f|
    decreases |f| - pos
  {
    if pos < |f| && IsSpace(f[pos]) then SkipSpace(f, pos + 1) else pos
  }

  function HexValue(c: byte): Option<nat> {
    if IsDigit(c) then Some(c - 48)
    else if 97 <= c <= 102 then Some(c - 87)
    else if 65 <= c <= 70 then Some(c - 55)
    else None
  }

  /** The character behind a backslash at `pos - 1`. */
  function EscapeAt(f: Bytes, pos: nat): (r: Parsed<byte>)
    ensures r.Ok? ==> pos < r.value.pos <= |f|
  {
    if pos >= |f| then Err(())
    else
      var c := f[pos];
      if c == QUOTE || c == BACKSLASH || c == 47 then Ok(At(c, pos + 1))
      else if c == 98 then Ok(At(8, pos + 1))
      else if c == 116 then Ok(At(9, pos + 1))
      else if c == 110 then Ok(At(10, pos + 1))
      else if c == 102 then Ok(At(12, pos + 1))
      else if c == 114 then Ok(At(13, pos + 1))
      else if c == 117 && pos + 5 <= |f| && f[pos + 1] == 48 && f[pos + 2] == 48 then
        match (HexValue(f[pos + 3]), HexValue(f[pos + 4]))
        case (Some(hi), Some(lo)) =>
          if hi < 8 then Ok(At(16 * hi + lo, pos + 5)) else Err(())
        case _ => Err(())
      else Err(())
  }

  /** The rest of a string whose quote is behind `pos`. */
  function StringAt(f: Bytes, pos: nat): (r: Parsed<Bytes>)
    ensures r.Ok? ==> pos < r.value.pos <= |f|
    decreases |f| - pos
  {
    if pos >= |f| || f[pos] < 32 then Err(())
    else if f[pos] == QUOTE then Ok(At([], pos + 1))
    else if f[pos] == BACKSLASH then
      var c :- EscapeAt(f, pos + 1);
      var rest :- StringAt(f, c.pos);
      Ok(At([c.value] + rest.value, rest.pos))
    else
      var rest :- StringAt(f, pos + 1);
      Ok(At([f[pos]] + rest.value, rest.pos))
  }

  function DigitsAt(f: Bytes, pos: nat, n: nat): (r: At<nat>)
    requires pos <= |f|
    ensures pos <= r.pos <= |f|
    decreases |f| - pos
  {
    if pos < |f| && IsDigit(f[pos]) then DigitsAt(f, pos + 1, 10 * n + (f[pos] - 48)) else At(n, pos)
  }

  /** An integer without leading zeros that fits 64 bits. */
  function NumberAt(f: Bytes, pos: nat): (r: Parsed<int>)
    requires pos < |f|
    ensures r.Ok? ==> pos < r.value.pos <= |f|
  {
    var start := if f[pos] == 45 then pos + 1 else pos;
    var d := DigitsAt(f, start, 0);
    if d.pos == start || (f[start] == 48 && d.pos > start + 1) then Err(())
    else if d.pos < |f| && f[d.pos] in {46, 69, 101} then Err(())
    else
      var value: int := d.value;
      var n := if start > pos then -value else value;
      if MIN_I64 <= n < U64 && (start > pos ==> n != 0) then Ok(At(n, d.pos)) else Err(())
  }

  function WordAt(f: Bytes, pos: nat, word: Bytes, v: Json): (r: Parsed<Json>)
    requires pos <= |f| && |word| > 0
    ensures r.Ok? ==> pos < r.value.pos <= |f|
  {
    if word <= f[pos..] then Ok(At(v, pos + |word|)) else Err(())
  }

  function ValueAt(f: Bytes, pos: nat, depth: nat): (r: Parsed<Json>)
    requires pos <= |f|
    ensures r.Ok? ==> pos < r.value.pos <= |f|
    decreases |f| - pos, 0
  {
    var p := SkipSpace(f, pos);
    if p == |f| then Err(())
    else if f[p] == NULL[0] then WordAt(f, p, NULL, Null)
    else if f[p] == TRUE[0] then WordAt(f, p, TRUE, Bool(true))
    else if f[p] == FALSE[0] then WordAt(f, p, FALSE, Bool(false))
    else if f[p] == QUOTE then
      var s :- StringAt(f, p + 1);
      Ok(At(Str(s.value), s.pos))
    else if f[p] == 45 || IsDigit(f[p]) then
      var n :- NumberAt(f, p);
      Ok(At(Num(n.value), n.pos))
    else if f[p] == 91 && depth > 1 then ArrayAt(f, p + 1, depth - 1)
    else if f[p] == 123 && depth > 1 then ObjectAt(f, p + 1, depth - 1)
    else Err(())
  }

  function ArrayAt(f: Bytes, pos: nat, depth: nat): (r: Parsed<Json>)
    requires pos <= |f|
    ensures r.Ok? ==> pos < r.value.pos <= |f|
    decreases |f| - pos, 2
  {
    var p := SkipSpace(f, pos);
    if p < |f| && f[p] == 93 then Ok(At(Arr([]), p + 1))
    else
      var items :- ItemsAt(f, p, depth);
      Ok(At(Arr(items.value), items.pos))
  }

  function ItemsAt(f: Bytes, pos: nat, depth: nat): (r: Parsed<seq<Json>>)
    requires pos <= |f|
    ensures r.Ok? ==> pos < r.value.pos <= |f|
    decreases |f| - pos, 1
  {
    var v :- ValueAt(f, pos, depth);
    var p := SkipSpace(f, v.pos);
    if p < |f| && f[p] == COMMA then
      var rest :- ItemsAt(f, p + 1, depth);
      Ok(At([v.value] + rest.value, rest.pos))
    else if p < |f| && f[p] == 93 then Ok(At([v.value], p + 1))
    else Err(())
  }

  function ObjectAt(f: Bytes, pos: nat, depth: nat): (r: Parsed<Json>)
    requires pos <= |f|
    ensures r.Ok? ==> pos < r.value.pos <= |f|
    decreases |f| - pos, 3
  {
    var p := SkipSpace(f, pos);
    if p < |f| && f[p] == 125 then Ok(At(Obj([]), p + 1))
    else
      var fields :- FieldsAt(f, p, depth);
      Ok(At(Obj(InsertAll([], fields.value)), fields.pos))
  }

  function FieldAt(f: Bytes, pos: nat, depth: nat): (r: Parsed<Field>)
    requires pos <= |f|
    ensures r.Ok? ==> pos < r.value.pos <= |f|
    decreases |f| - pos, 1
  {
    var p := SkipSpace(f, pos);
    if p == |f| || f[p] != QUOTE then Err(())
    else
      var key :- StringAt(f, p + 1);
      var q := SkipSpace(f, key.pos);
      if q == |f| || f[q] != COLON then Err(())
      else
        var v :- ValueAt(f, q + 1, depth);
        Ok(At(Field(key.value, v.value), v.pos))
  }

  function FieldsAt(f: Bytes, pos: nat, depth: nat): (r: Parsed<seq<Field>>)
    requires pos <= |f|
    ensures r.Ok? ==> pos < r.value.pos <= |f|
    decreases |f| - pos, 2
  {
    var field :- FieldAt(f, pos, depth);
    var p := SkipSpace(f, field.pos);
    if p < |f| && f[p] == COMMA then
      var rest :- FieldsAt(f, p + 1, depth);
      Ok(At([field.value] + rest.value, rest.pos))
    else if p < |f| && f[p] == 125 then Ok(At([field.value], p + 1))
    else Err(())
  }

  /** A whole document: one value and only space behind it. */
  function Decode(f: Bytes): Result<Json, ()> {
    var v :- ValueAt(f, 0, MAX_DEPTH);
    if SkipSpace(f, v.pos) == |f| then Ok(v.value) else Err(())
  }
}
