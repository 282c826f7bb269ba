/** Reading a written JSON value gives the value back, and no written value holds a raw newline. */
module JsonRoundTrip {
  import opened Common
  import opened Json

  /** The values that the codec can hold at this nesting depth. */
  ghost predicate Fits(v: Json, depth: nat)
    decreases v
  {
    match v
    case Num(n) => MIN_I64 <= n < U64
    case Arr(items) => depth > 1 && forall i | 0 <= i < |items| :: Fits(items[i], depth - 1)
    case Obj(fields) =>
      depth > 1 && Sorted(fields) && forall i | 0 <= i < |fields| :: Fits(fields[i].value, depth - 1)
    case _ => true
  }

  /** The same without an order of the keys. */
  ghost predicate Readable(v: Json, depth: nat)
    decreases v
  {
    match v
    case Num(n) => MIN_I64 <= n < U64
    case Arr(items) => depth > 1 && forall i | 0 <= i < |items| :: Readable(items[i], depth - 1)
    case Obj(fields) => depth > 1 && forall i | 0 <= i < |fields| :: Readable(fields[i].value, depth - 1)
    case _ => true
  }

  /** What a reader makes of a value: objects are sorted, and the last of several equal keys wins. */
  function Normal(v: Json): Json
    decreases v
  {
    match v
    case Arr(items) => Arr(NormalItems(v, items))
    case Obj(fields) => Obj(InsertAll([], NormalFields(v, fields)))
    case _ => v
  }

  function NormalItems(ghost context: Json, items: seq<Json>): (r: seq<Json>)
    requires forall i | 0 <= i < |items| :: items[i] < context
    ensures |r| == |items|
    ensures forall i | 0 <= i < |items| :: r[i] == Normal(items[i])
    decreases context, 0
  {
    seq(|items|, i requires 0 <= i < |items| => Normal(items[i]))
  }

  function NormalFields(ghost context: Json, fields: seq<Field>): (r: seq<Field>)
    requires forall i | 0 <= i < |fields| :: fields[i].value < context
    ensures |r| == |fields|
    ensures forall i | 0 <= i < |fields| :: r[i] == Field(fields[i].key, Normal(fields[i].value))
    decreases context, 0
  {
    seq(|fields|, i requires 0 <= i < |fields| => Field(fields[i].key, Normal(fields[i].value)))
  }

  /** What the codec can hold is read back as it is. */
  lemma {:induction false} NormalIsSame(v: Json, depth: nat)
    requires Fits(v, depth)
    ensures Readable(v, depth) && Normal(v) == v
    decreases v
  {
    match v
    case Arr(items) =>
      forall i | 0 <= i < |items|
        ensures Readable(items[i], depth - 1) && Normal(items[i]) == items[i]
      {
        NormalIsSame(items[i], depth - 1);
      }
      assert Normal(v).items == items;
    case Obj(fields) =>
      forall i | 0 <= i < |fields|
        ensures Readable(fields[i].value, depth - 1) && Normal(fields[i].value) == fields[i].value
      {
        NormalIsSame(fields[i].value, depth - 1);
      }
      assert NormalFields(v, fields) == fields;
      assert [] + fields == fields;
      InsertAllSorted([], fields);
    case _ =>
  }

  predicate AllSpace(w: Bytes) {
    forall i | 0 <= i < |w| :: IsSpace(w[i])
  }

  /** Every gap is space. */
  predicate IsStyle(style: Style) {
    && AllSpace(style.open) && AllSpace(style.close) && AllSpace(style.beforeComma) && AllSpace(style.afterComma)
    && AllSpace(style.beforeColon) && AllSpace(style.afterColon)
  }

  lemma {:induction false} SkipsSpace(f: Bytes, pos: nat, w: Bytes)
    requires AllSpace(w) && HasAt(f, pos, w) && (pos + |w| == |f| || !IsSpace(f[pos + |w|]))
    ensures SkipSpace(f, pos) == pos + |w| == SkipSpace(f, pos + |w|)
    decreases |w|
  {
    if w != [] {
      ByteAt(f, pos, w, 0);
      assert w == [w[0]] + w[1..];
      HasAtSplit(f, pos, [w[0]], w[1..]);
      SkipsSpace(f, pos + 1, w[1..]);
    }
  }

  /** Space in front of a value changes nothing. */
  lemma SpaceBefore(f: Bytes, pos: nat, w: Bytes, depth: nat)
    requires AllSpace(w) && HasAt(f, pos, w) && pos + |w| < |f| && !IsSpace(f[pos + |w|])
    ensures ValueAt(f, pos, depth) == ValueAt(f, pos + |w|, depth)
    ensures ItemsAt(f, pos, depth) == ItemsAt(f, pos + |w|, depth)
    ensures FieldAt(f, pos, depth) == FieldAt(f, pos + |w|, depth)
    ensures FieldsAt(f, pos, depth) == FieldsAt(f, pos + |w|, depth)
  {
    hide ValueAt, FieldAt, SkipSpace, HasAt;
    SkipsSpace(f, pos, w);
    SameValue(f, pos, pos + |w|, depth);
    SameField(f, pos, pos + |w|, depth);
  }

  lemma SameValue(f: Bytes, a: nat, b: nat, depth: nat)
    requires a <= |f| && b <= |f| && SkipSpace(f, a) == SkipSpace(f, b)
    ensures ValueAt(f, a, depth) == ValueAt(f, b, depth)
  {
    hide StringAt, NumberAt, WordAt, ArrayAt, ObjectAt;
  }

  lemma SameField(f: Bytes, a: nat, b: nat, depth: nat)
    requires a <= |f| && b <= |f| && SkipSpace(f, a) == SkipSpace(f, b)
    ensures FieldAt(f, a, depth) == FieldAt(f, b, depth)
  {
    hide StringAt, ValueAt;
  }

  /** No number continues at `pos`. */
  predicate Stops(f: Bytes, pos: nat) {
    pos == |f| || (pos < |f| && (IsSpace(f[pos]) || f[pos] in {COMMA, COLON, 93, 125}))
  }

  lemma ByteAt(f: Bytes, pos: nat, s: Bytes, i: nat)
    requires HasAt(f, pos, s) && i < |s|
    ensures pos + i < |f| && f[pos + i] == s[i]
  {
    assert f[pos..pos + |s|][i] == s[i];
  }

  lemma ReadsEscape(f: Bytes, pos: nat, c: byte)
    requires HasAt(f, pos, Escape(c))
    ensures pos < |f| && f[pos] >= 32 && f[pos] != QUOTE
    ensures f[pos] == BACKSLASH ==> EscapeAt(f, pos + 1) == Ok(At(c, pos + |Escape(c)|))
    ensures f[pos] != BACKSLASH ==> f[pos] == c && |Escape(c)| == 1
  {
    var s := Escape(c);
    ByteAt(f, pos, s, 0);
    if |s| > 1 {
      ByteAt(f, pos, s, 1);
    }
    if |s| > 2 {
      ByteAt(f, pos, s, 2);
      ByteAt(f, pos, s, 3);
      ByteAt(f, pos, s, 4);
      ByteAt(f, pos, s, 5);
    }
  }

  lemma {:induction false} ReadsEscaped(f: Bytes, pos: nat, s: Bytes)
    requires HasAt(f, pos, EscapeAll(s) + [QUOTE])
    ensures StringAt(f, pos) == Ok(At(s, pos + |EscapeAll(s)| + 1))
    decreases |s|
  {
    hide Escape, EscapeAt, HasAt;
    if s == [] {
      ByteAt(f, pos, EscapeAll(s) + [QUOTE], 0);
    } else {
      var first, rest := Escape(s[0]), EscapeAll(s[1..]);
      assert EscapeAll(s) + [QUOTE] == first + (rest + [QUOTE]);
      HasAtSplit(f, pos, first, rest + [QUOTE]);
      ReadsEscape(f, pos, s[0]);
      ReadsEscaped(f, pos + |first|, s[1..]);
      assert [s[0]] + s[1..] == s;
    }
  }

  lemma ReadsString(f: Bytes, pos: nat, s: Bytes)
    requires HasAt(f, pos, EncodeString(s))
    ensures pos < |f| && f[pos] == QUOTE
    ensures StringAt(f, pos + 1) == Ok(At(s, pos + |EncodeString(s)|))
  {
    hide HasAt, EscapeAll, StringAt;
    ByteAt(f, pos, EncodeString(s), 0);
    HasAtSplit(f, pos, [QUOTE], EscapeAll(s) + [QUOTE]);
    ReadsEscaped(f, pos + 1, s);
  }

  lemma {:induction false} DecimalDigits(n: nat)
    ensures forall i | 0 <= i < |Decimal(n)| :: IsDigit(Decimal(n)[i])
    ensures Decimal(n)[0] == 48 ==> n == 0
  {
    if n >= 10 {
      DecimalDigits(n / 10);
    }
  }

  /** The value of a run of digits. */
  function DigitValue(s: Bytes): nat
    requires forall i | 0 <= i < |s| :: IsDigit(s[i])
  {
    if s == [] then 0
    else
      assert IsDigit(s[|s| - 1]);
      10 * DigitValue(s[..|s| - 1]) + (s[|s| - 1] as int - 48)
  }

  lemma {:induction false} DecimalValue(n: nat)
    requires forall i | 0 <= i < |Decimal(n)| :: IsDigit(Decimal(n)[i])
    ensures DigitValue(Decimal(n)) == n
  {
    var s := Decimal(n);
    if n < 10 {
      assert s[..|s| - 1] == [];
    } else {
      DecimalDigits(n / 10);
      assert s[..|s| - 1] == Decimal(n / 10);
      DecimalValue(n / 10);
    }
  }

  lemma {:induction false} ReadsDigits(f: Bytes, start: nat, k: nat, s: Bytes)
    requires forall i | 0 <= i < |s| :: IsDigit(s[i])
    requires HasAt(f, start, s) && k <= |s|
    requires start + |s| < |f| ==> !IsDigit(f[start + |s|])
    ensures DigitsAt(f, start + k, DigitValue(s[..k])) == At(DigitValue(s), start + |s|)
    decreases |s| - k
  {
    if k == |s| {
      assert s[..k] == s;
    } else {
      ByteAt(f, start, s, k);
      assert s[..k + 1][..k] == s[..k];
      ReadsDigits(f, start, k + 1, s);
    }
  }

  lemma {:induction false} ReadsDecimal(f: Bytes, pos: nat, n: nat)
    requires HasAt(f, pos, Decimal(n)) && Stops(f, pos + |Decimal(n)|)
    ensures pos < |f| && IsDigit(f[pos]) && (f[pos] == 48 ==> n == 0)
    ensures DigitsAt(f, pos, 0) == At(n, pos + |Decimal(n)|)
  {
    hide Decimal, DigitsAt, DigitValue, HasAt;
    var s := Decimal(n);
    DecimalDigits(n);
    DecimalValue(n);
    ByteAt(f, pos, s, 0);
    assert s[..0] == [];
    NoDigits();
    ReadsDigits(f, pos, 0, s);
  }

  lemma NoDigits()
    ensures DigitValue([]) == 0
  {
  }

  lemma ReadsNumber(f: Bytes, pos: nat, n: int)
    requires MIN_I64 <= n < U64
    requires HasAt(f, pos, Encode(Num(n))) && Stops(f, pos + |Encode(Num(n))|)
    ensures pos < |f| && (f[pos] == 45 || IsDigit(f[pos]))
    ensures NumberAt(f, pos) == Ok(At(n, pos + |Encode(Num(n))|))
  {
    hide HasAt, DigitsAt, Decimal;
    if n < 0 {
      HasAtSplit(f, pos, [45], Decimal(-n));
      ByteAt(f, pos, [45], 0);
      ReadsDecimal(f, pos + 1, -n);
      assert Encode(Num(n)) == [45] + Decimal(-n);
    } else {
      ReadsDecimal(f, pos, n);
      if n == 0 {
        assert |Decimal(0)| == 1 by { ZeroIsOneDigit(); }
      }
    }
  }

  lemma ZeroIsOneDigit()
    ensures |Decimal(0)| == 1
  {
  }

  lemma ReadsWord(f: Bytes, pos: nat, word: Bytes, v: Json)
    requires HasAt(f, pos, word) && |word| > 0
    ensures pos < |f| && f[pos] == word[0]
    ensures WordAt(f, pos, word, v) == Ok(At(v, pos + |word|))
  {
    ByteAt(f, pos, word, 0);
    assert f[pos..][..|word|] == word;
  }

  /** Reading a written value consumes exactly its bytes, however it is spaced and ordered. */
  lemma {:induction false} ReadsWriting(f: Bytes, pos: nat, v: Json, style: Style, depth: nat)
    requires Readable(v, depth) && IsStyle(style)
    requires HasAt(f, pos, Write(v, style)) && (v.Num? ==> Stops(f, pos + |Write(v, style)|))
    ensures pos < |f| && !IsSpace(f[pos]) && f[pos] != 93 && f[pos] != 125
    ensures ValueAt(f, pos, depth) == Ok(At(Normal(v), pos + |Write(v, style)|))
    decreases v
  {
    if v.Arr? {
      hide *;
      ReadsArray(f, pos, v, style, depth);
      BracketBytes();
    } else if v.Obj? {
      hide *;
      ReadsObject(f, pos, v, style, depth);
      BracketBytes();
    } else {
      hide Write, ValueAt, Normal;
      ReadsPlain(f, pos, v, style, depth);
    }
  }

  lemma BracketBytes()
    ensures !IsSpace(91) && !IsSpace(123)
  {
  }

  /** A value without parts. */
  lemma ReadsPlain(f: Bytes, pos: nat, v: Json, style: Style, depth: nat)
    requires !v.Arr? && !v.Obj? && Readable(v, depth)
    requires HasAt(f, pos, Write(v, style)) && (v.Num? ==> Stops(f, pos + |Write(v, style)|))
    ensures pos < |f| && !IsSpace(f[pos]) && f[pos] != 93 && f[pos] != 125
    ensures ValueAt(f, pos, depth) == Ok(At(Normal(v), pos + |Write(v, style)|))
  {
    hide HasAt, Decimal, EscapeAll, StringAt, NumberAt, WordAt, ArrayAt, ObjectAt;
    match v
    case Null =>
      ReadsWord(f, pos, NULL, v);
    case Bool(b) =>
      ReadsWord(f, pos, if b then TRUE else FALSE, v);
    case Num(n) =>
      ReadsNumber(f, pos, n);
    case Str(s) =>
      ReadsString(f, pos, s);
    case _ =>
  }

  /** What the writer of this program writes is given back. */
  lemma ReadsValue(f: Bytes, pos: nat, v: Json, depth: nat)
    requires Fits(v, depth)
    requires HasAt(f, pos, Encode(v)) && Stops(f, pos + |Encode(v)|)
    ensures pos < |f| && !IsSpace(f[pos]) && f[pos] != 93 && f[pos] != 125
    ensures ValueAt(f, pos, depth) == Ok(At(v, pos + |Encode(v)|))
  {
    hide Write, ValueAt, Normal, Fits, Readable, HasAt, Stops;
    NormalIsSame(v, depth);
    ReadsWriting(f, pos, v, COMPACT, depth);
  }

  /** An opening bracket and the space behind it. */
  lemma Opens(f: Bytes, pos: nat, bracket: byte, open: Bytes, rest: Bytes)
    requires HasAt(f, pos, [bracket] + (open + rest)) && AllSpace(open) && rest != [] && !IsSpace(rest[0])
    ensures pos < |f| && f[pos] == bracket
    ensures var p := pos + 1 + |open|;
            && HasAt(f, pos + 1, open) && HasAt(f, p, rest) && p < |f| && f[p] == rest[0]
            && SkipSpace(f, pos + 1) == p == SkipSpace(f, p)
  {
    hide HasAt;
    HasAtSplit(f, pos, [bracket], open + rest);
    ByteAt(f, pos, [bracket], 0);
    HasAtSplit(f, pos + 1, open, rest);
    ByteAt(f, pos + 1 + |open|, rest, 0);
    SkipsSpace(f, pos + 1, open);
  }

  lemma {:induction false} ReadsArray(f: Bytes, pos: nat, v: Json, style: Style, depth: nat)
    requires v.Arr? && Readable(v, depth) && IsStyle(style) && HasAt(f, pos, Write(v, style))
    ensures pos < |f| && f[pos] == 91
    ensures ValueAt(f, pos, depth) == Ok(At(Normal(v), pos + |Write(v, style)|))
    decreases v, |v.items| + 1
  {
    hide HasAt, WriteItems, ItemsAt, ValueAt;
    if v.items == [] {
      Opens(f, pos, 91, style.open, [93]);
      assert NormalItems(v, v.items) == [];
    } else {
      var body := WriteItems(v, v.items, style);
      WrittenItemsBegin(v, v.items, style);
      Opens(f, pos, 91, style.open, body + [93]);
      ReadsItems(f, pos + 1 + |style.open|, v, v.items, style, depth - 1);
    }
    BracketValue(f, pos, depth);
  }

  /** A written value begins with none of the bytes that end or separate values. */
  lemma WrittenBegins(v: Json, style: Style)
    ensures Write(v, style) != [] && !IsSpace(Write(v, style)[0]) && Write(v, style)[0] != 93
  {
    match v
    case Num(n) =>
      DecimalDigits(if n < 0 then -n else n);
    case _ =>
  }

  lemma WrittenItemsBegin(v: Json, items: seq<Json>, style: Style)
    requires items != [] && forall i | 0 <= i < |items| :: items[i] < v
    ensures var w := WriteItems(v, items, style);
            w != [] && !IsSpace(w[0]) && w[0] != 93
  {
    WrittenBegins(items[0], style);
    hide Write;
  }

  lemma ItemsStep(f: Bytes, pos: nat, depth: nat, v: Json, p: nat)
    requires pos <= |f| && p <= |f| && ValueAt(f, pos, depth) == Ok(At(v, p))
    ensures var q := SkipSpace(f, p);
            && (q < |f| && f[q] == 93 ==> ItemsAt(f, pos, depth) == Ok(At([v], q + 1)))
            && (q < |f| && f[q] == COMMA && ItemsAt(f, q + 1, depth).Ok? ==>
                  var rest := ItemsAt(f, q + 1, depth).value;
                  ItemsAt(f, pos, depth) == Ok(At([v] + rest.value, rest.pos)))
  {
    hide ValueAt;
  }

  /** A gap, then a byte that is no space. */
  lemma Gap(f: Bytes, pos: nat, w: Bytes, b: byte, rest: Bytes)
    requires HasAt(f, pos, w + ([b] + rest)) && AllSpace(w) && !IsSpace(b)
    ensures var p := pos + |w|;
            && p < |f| && f[p] == b && SkipSpace(f, pos) == p && HasAt(f, p + 1, rest)
            && (w == [] || IsSpace(f[pos]))
  {
    hide HasAt;
    HasAtSplit(f, pos, w, [b] + rest);
    HasAtSplit(f, pos + |w|, [b], rest);
    ByteAt(f, pos + |w|, [b], 0);
    SkipsSpace(f, pos, w);
    if w != [] {
      ByteAt(f, pos, w, 0);
    }
  }

  /** The last part of a list, in front of its bracket. */
  lemma LastPart(f: Bytes, pos: nat, part: Bytes, style: Style, bracket: byte)
    requires HasAt(f, pos, part + style.close + [bracket]) && IsStyle(style) && bracket in {93, 125}
    ensures var p := pos + |part|;
            && HasAt(f, pos, part) && p < |f| && Stops(f, p)
            && SkipSpace(f, p) == p + |style.close| < |f| && f[p + |style.close|] == bracket
  {
    hide HasAt, SkipSpace;
    assert part + style.close + [bracket] == part + (style.close + ([bracket] + []));
    HasAtSplit(f, pos, part, style.close + ([bracket] + []));
    Gap(f, pos + |part|, style.close, bracket, []);
  }

  /** A part of a list, in front of a comma. */
  lemma NextPart(f: Bytes, pos: nat, part: Bytes, style: Style, rest: Bytes, bracket: byte)
    requires HasAt(f, pos, part + (style.Comma() + rest) + [bracket]) && IsStyle(style)
    ensures var p := pos + |part|;
            var q := p + |style.beforeComma|;
            && HasAt(f, pos, part) && p < |f| && Stops(f, p)
            && SkipSpace(f, p) == q < |f| && f[q] == COMMA
            && HasAt(f, q + 1, style.afterComma + (rest + [bracket]))
  {
    hide HasAt, SkipSpace;
    var tail := style.beforeComma + ([COMMA] + (style.afterComma + (rest + [bracket])));
    assert part + (style.Comma() + rest) + [bracket] == part + tail;
    HasAtSplit(f, pos, part, tail);
    Gap(f, pos + |part|, style.beforeComma, COMMA, style.afterComma + (rest + [bracket]));
  }

  lemma ItemsSplit(f: Bytes, pos: nat, v: Json, items: seq<Json>, style: Style)
    requires items != [] && (forall i | 0 <= i < |items| :: items[i] < v) && IsStyle(style)
    requires HasAt(f, pos, WriteItems(v, items, style) + [93])
    ensures var first := Write(items[0], style);
            var p := pos + |first|;
            && HasAt(f, pos, first) && p < |f| && Stops(f, p)
            && if |items| == 1 then
                 && SkipSpace(f, p) == p + |style.close| < |f| && f[p + |style.close|] == 93
                 && |WriteItems(v, items, style)| == |first| + |style.close|
               else
                 var rest := WriteItems(v, items[1..], style);
                 var q := p + |style.beforeComma|;
                 && SkipSpace(f, p) == q < |f| && f[q] == COMMA
                 && HasAt(f, q + 1, style.afterComma + (rest + [93]))
                 && |WriteItems(v, items, style)| == |first| + |style.Comma()| + |rest|
  {
    hide HasAt, Write, SkipSpace, Stops, IsStyle, Style.Comma;
    var first := Write(items[0], style);
    if |items| == 1 {
      LastPart(f, pos, first, style, 93);
    } else {
      NextPart(f, pos, first, style, WriteItems(v, items[1..], style), 93);
    }
  }

  lemma {:induction false} ReadsItems(f: Bytes, pos: nat, v: Json, items: seq<Json>, style: Style, depth: nat)
    requires items != [] && IsStyle(style)
    requires forall i | 0 <= i < |items| :: items[i] < v && Readable(items[i], depth)
    requires HasAt(f, pos, WriteItems(v, items, style) + [93])
    ensures pos < |f| && !IsSpace(f[pos]) && f[pos] != 93
    ensures ItemsAt(f, pos, depth) ==
              Ok(At(NormalItems(v, items), pos + |WriteItems(v, items, style)| + 1))
    decreases v, |items|
  {
    hide *;
    var first := Write(items[0], style);
    ItemsSplit(f, pos, v, items, style);
    ReadsWriting(f, pos, items[0], style, depth);
    ItemsStep(f, pos, depth, Normal(items[0]), pos + |first|);
    if |items| == 1 {
      assert NormalItems(v, items) == [Normal(items[0])];
    } else {
      var q := pos + |first| + |style.beforeComma|;
      var rest := WriteItems(v, items[1..], style);
      AfterSpace(f, q + 1, style, rest + [93]);
      ReadsItems(f, q + 1 + |style.afterComma|, v, items[1..], style, depth);
      SpaceBefore(f, q + 1, style.afterComma, depth);
      CommaLength(style);
      assert [Normal(items[0])] + NormalItems(v, items[1..]) == NormalItems(v, items);
    }
  }

  lemma AfterSpace(f: Bytes, pos: nat, style: Style, rest: Bytes)
    requires IsStyle(style) && HasAt(f, pos, style.afterComma + rest)
    ensures AllSpace(style.afterComma) && HasAt(f, pos, style.afterComma) && HasAt(f, pos + |style.afterComma|, rest)
  {
    HasAtSplit(f, pos, style.afterComma, rest);
  }

  lemma CommaLength(style: Style)
    ensures |style.Comma()| == |style.beforeComma| + 1 + |style.afterComma|
    ensures |style.Colon()| == |style.beforeColon| + 1 + |style.afterColon|
  {
  }

  lemma {:induction false} ReadsObject(f: Bytes, pos: nat, v: Json, style: Style, depth: nat)
    requires v.Obj? && Readable(v, depth) && IsStyle(style) && HasAt(f, pos, Write(v, style))
    ensures pos < |f| && f[pos] == 123
    ensures ValueAt(f, pos, depth) == Ok(At(Normal(v), pos + |Write(v, style)|))
    decreases v, |v.fields| + 2
  {
    hide HasAt, WriteFields, FieldsAt, Insert, InsertAll, ValueAt;
    if v.fields == [] {
      Opens(f, pos, 123, style.open, [125]);
      assert NormalFields(v, v.fields) == [];
      NothingInserted();
    } else {
      var body := WriteFields(v, v.fields, style);
      WrittenFieldsBegin(v, v.fields, style);
      Opens(f, pos, 123, style.open, body + [125]);
      ReadsFields(f, pos + 1 + |style.open|, v, v.fields, style, depth - 1);
      ObjectFrom(f, pos + 1, pos + 1 + |style.open|, depth - 1);
    }
    BracketValue(f, pos, depth);
  }

  lemma BracketValue(f: Bytes, pos: nat, depth: nat)
    requires pos < |f| && f[pos] in {91, 123} && depth > 1
    ensures ValueAt(f, pos, depth) ==
              if f[pos] == 91 then ArrayAt(f, pos + 1, depth - 1) else ObjectAt(f, pos + 1, depth - 1)
  {
    hide ArrayAt, ObjectAt, StringAt, NumberAt, WordAt;
    assert SkipSpace(f, pos) == pos;
  }

  lemma ObjectFrom(f: Bytes, pos: nat, p: nat, depth: nat)
    requires pos <= |f| && p < |f| && SkipSpace(f, pos) == p && f[p] == QUOTE && FieldsAt(f, p, depth).Ok?
    ensures var fields := FieldsAt(f, p, depth).value;
            ObjectAt(f, pos, depth) == Ok(At(Obj(InsertAll([], fields.value)), fields.pos))
  {
    hide FieldsAt, InsertAll;
  }

  lemma NothingInserted()
    ensures InsertAll([], []) == []
  {
  }

  lemma WrittenFieldsBegin(v: Json, fields: seq<Field>, style: Style)
    requires fields != [] && forall i | 0 <= i < |fields| :: fields[i].value < v
    ensures WriteFields(v, fields, style) != [] && WriteFields(v, fields, style)[0] == QUOTE
  {
    hide Write;
  }

  lemma FieldFrom(f: Bytes, pos: nat, depth: nat, key: Bytes, p: nat, v: Json, end: nat)
    requires pos < |f| && f[pos] == QUOTE && StringAt(f, pos + 1) == Ok(At(key, p)) && p <= |f|
    requires var q := SkipSpace(f, p);
             q < |f| && f[q] == COLON && ValueAt(f, q + 1, depth) == Ok(At(v, end))
    ensures FieldAt(f, pos, depth) == Ok(At(Field(key, v), end))
  {
    hide StringAt, ValueAt;
    assert SkipSpace(f, pos) == pos;
  }

  lemma ColonPart(f: Bytes, pos: nat, style: Style, value: Bytes)
    requires HasAt(f, pos, style.Colon() + value) && AllSpace(style.beforeColon)
    ensures var q := pos + |style.beforeColon|;
            && SkipSpace(f, pos) == q < |f| && f[q] == COLON
            && HasAt(f, q + 1, style.afterColon) && HasAt(f, q + 1 + |style.afterColon|, value)
  {
    hide HasAt, SkipSpace;
    assert style.Colon() + value == style.beforeColon + ([COLON] + (style.afterColon + value));
    Gap(f, pos, style.beforeColon, COLON, style.afterColon + value);
    HasAtSplit(f, pos + |style.beforeColon| + 1, style.afterColon, value);
  }

  lemma {:induction false} ReadsField(f: Bytes, pos: nat, v: Json, field: Field, style: Style, depth: nat)
    requires field.value < v && Readable(field.value, depth) && IsStyle(style)
    requires HasAt(f, pos, WriteField(v, field, style)) && Stops(f, pos + |WriteField(v, field, style)|)
    ensures pos < |f| && f[pos] == QUOTE
    ensures FieldAt(f, pos, depth) ==
              Ok(At(Field(field.key, Normal(field.value)), pos + |WriteField(v, field, style)|))
    decreases v, 0
  {
    hide HasAt, Write, EncodeString, ValueAt, ItemsAt, FieldsAt, StringAt, Readable, Normal, SkipSpace, Stops, AllSpace;
    hide Style.Colon;
    var key, value := EncodeString(field.key), Write(field.value, style);
    HasAtSplit(f, pos, key, style.Colon() + value);
    var q := pos + |key| + |style.beforeColon|;
    ColonPart(f, pos + |key|, style, value);
    ReadsString(f, pos, field.key);
    CommaLength(style);
    ReadsWriting(f, q + 1 + |style.afterColon|, field.value, style, depth);
    SpaceBefore(f, q + 1, style.afterColon, depth);
    FieldFrom(f, pos, depth, field.key, pos + |key|, Normal(field.value), q + 1 + |style.afterColon| + |value|);
  }

  lemma FieldsStep(f: Bytes, pos: nat, depth: nat, field: Field, p: nat)
    requires pos <= |f| && p <= |f| && FieldAt(f, pos, depth) == Ok(At(field, p))
    ensures var q := SkipSpace(f, p);
            && (q < |f| && f[q] == 125 ==> FieldsAt(f, pos, depth) == Ok(At([field], q + 1)))
            && (q < |f| && f[q] == COMMA && FieldsAt(f, q + 1, depth).Ok? ==>
                  var rest := FieldsAt(f, q + 1, depth).value;
                  FieldsAt(f, pos, depth) == Ok(At([field] + rest.value, rest.pos)))
  {
    hide FieldAt;
  }

  lemma FieldsSplit(f: Bytes, pos: nat, v: Json, fields: seq<Field>, style: Style)
    requires fields != [] && (forall i | 0 <= i < |fields| :: fields[i].value < v) && IsStyle(style)
    requires HasAt(f, pos, WriteFields(v, fields, style) + [125])
    ensures var first := WriteField(v, fields[0], style);
            var p := pos + |first|;
            && HasAt(f, pos, first) && p < |f| && Stops(f, p)
            && if |fields| == 1 then
                 && SkipSpace(f, p) == p + |style.close| < |f| && f[p + |style.close|] == 125
                 && |WriteFields(v, fields, style)| == |first| + |style.close|
               else
                 var rest := WriteFields(v, fields[1..], style);
                 var q := p + |style.beforeComma|;
                 && SkipSpace(f, p) == q < |f| && f[q] == COMMA
                 && HasAt(f, q + 1, style.afterComma + (rest + [125]))
                 && |WriteFields(v, fields, style)| == |first| + |style.Comma()| + |rest|
  {
    hide HasAt, WriteField, SkipSpace, Stops, IsStyle, Style.Comma;
    var first := WriteField(v, fields[0], style);
    if |fields| == 1 {
      LastPart(f, pos, first, style, 125);
    } else {
      NextPart(f, pos, first, style, WriteFields(v, fields[1..], style), 125);
    }
  }

  lemma {:induction false} ReadsFields(f: Bytes, pos: nat, v: Json, fields: seq<Field>, style: Style, depth: nat)
    requires fields != [] && IsStyle(style)
    requires forall i | 0 <= i < |fields| :: fields[i].value < v && Readable(fields[i].value, depth)
    requires HasAt(f, pos, WriteFields(v, fields, style) + [125])
    ensures pos < |f| && f[pos] == QUOTE
    ensures FieldsAt(f, pos, depth) ==
              Ok(At(NormalFields(v, fields), pos + |WriteFields(v, fields, style)| + 1))
    decreases v, |fields|
  {
    hide *;
    var first := WriteField(v, fields[0], style);
    var field := Field(fields[0].key, Normal(fields[0].value));
    FieldsSplit(f, pos, v, fields, style);
    ReadsField(f, pos, v, fields[0], style, depth);
    FieldsStep(f, pos, depth, field, pos + |first|);
    if |fields| == 1 {
      assert NormalFields(v, fields) == [field];
    } else {
      var q := pos + |first| + |style.beforeComma|;
      var rest := WriteFields(v, fields[1..], style);
      AfterSpace(f, q + 1, style, rest + [125]);
      ReadsFields(f, q + 1 + |style.afterComma|, v, fields[1..], style, depth);
      QuoteIsNoSpace();
      SpaceBefore(f, q + 1, style.afterComma, depth);
      CommaLength(style);
      assert [field] + NormalFields(v, fields[1..]) == NormalFields(v, fields);
    }
  }

  lemma QuoteIsNoSpace()
    ensures !IsSpace(QUOTE)
  {
  }

  /** A written value with space around it decodes to what it means. */
  lemma DecodesWriting(v: Json, style: Style, before: Bytes, after: Bytes)
    requires Readable(v, MAX_DEPTH) && IsStyle(style) && AllSpace(before) && AllSpace(after)
    ensures Decode(before + (Write(v, style) + after)) == Ok(Normal(v))
  {
    hide ValueAt, ItemsAt, FieldAt, FieldsAt, Readable, Write, IsStyle, Normal, HasAt, SkipSpace, Stops, AllSpace;
    var text := before + (Write(v, style) + after);
    WholeText(text);
    HasAtSplit(text, 0, before, Write(v, style) + after);
    HasAtSplit(text, |before|, Write(v, style), after);
    var end := |before| + |Write(v, style)|;
    SpaceStops(text, end, after);
    ReadsWriting(text, |before|, v, style, MAX_DEPTH);
    SpaceBefore(text, 0, before, MAX_DEPTH);
    SkipsSpace(text, end, after);
  }

  lemma WholeText(f: Bytes)
    ensures HasAt(f, 0, f)
  {
  }

  lemma SpaceStops(f: Bytes, pos: nat, w: Bytes)
    requires AllSpace(w) && HasAt(f, pos, w) && pos + |w| == |f|
    ensures Stops(f, pos)
  {
    if w != [] {
      ByteAt(f, pos, w, 0);
    }
  }

  /** Anything but space behind a written value that is no number is refused. */
  lemma RefusesRest(v: Json, style: Style, rest: Bytes)
    requires Readable(v, MAX_DEPTH) && IsStyle(style) && rest != [] && !IsSpace(rest[0]) && !v.Num?
    ensures Decode(Write(v, style) + rest).Err?
  {
    hide ValueAt, Readable, Write, IsStyle, Normal;
    var text := Write(v, style) + rest;
    assert HasAt(text, 0, text);
    HasAtSplit(text, 0, Write(v, style), rest);
    ByteAt(text, |Write(v, style)|, rest, 0);
    ReadsWriting(text, 0, v, style, MAX_DEPTH);
  }

  /** `n` opening brackets at `pos`. */
  ghost predicate Brackets(f: Bytes, pos: nat, n: nat) {
    pos + n <= |f| && forall i | pos <= i < pos + n :: f[i] == 91
  }

  /** Deeper nesting than the limit is refused. */
  lemma {:induction false} RefusesDeep(f: Bytes, pos: nat, n: nat, depth: nat)
    requires Brackets(f, pos, n) && 0 < depth <= n
    ensures ValueAt(f, pos, depth).Err?
    decreases n
  {
    assert f[pos] == 91 && SkipSpace(f, pos) == pos;
    if depth > 1 {
      BracketValue(f, pos, depth);
      RefusesDeep(f, pos + 1, n - 1, depth - 1);
      assert f[pos + 1] == 91 && SkipSpace(f, pos + 1) == pos + 1;
    }
  }

  /** An array is read up to a nesting of 127, and refused beyond it. */
  lemma DeepTextIsRefused(f: Bytes)
    requires Brackets(f, 0, 128)
    ensures Decode(f).Err?
  {
    hide ValueAt;
    RefusesDeep(f, 0, 128, MAX_DEPTH);
  }

  /** A written value and at most one newline behind it decode to the value. */
  lemma DecodesEncoding(v: Json, line: Bytes)
    requires Fits(v, MAX_DEPTH)
    requires line == Encode(v) || line == Encode(v) + [NEWLINE]
    ensures Decode(line) == Ok(v)
  {
    hide Decode, Fits, Readable, Write, Normal;
    NormalIsSame(v, MAX_DEPTH);
    var after := if line == Encode(v) then [] else [NEWLINE];
    assert line == [] + (Write(v, COMPACT) + after);
    DecodesWriting(v, COMPACT, [], after);
  }

  ghost predicate NoNewline(s: Bytes) {
    forall i | 0 <= i < |s| :: s[i] != NEWLINE
  }

  lemma {:induction false} EscapedHasNoNewline(s: Bytes)
    ensures NoNewline(EscapeAll(s))
  {
    if s != [] {
      assert NoNewline(Escape(s[0]));
      EscapedHasNoNewline(s[1..]);
    }
  }

  lemma {:induction false} DecimalHasNoNewline(n: nat)
    ensures NoNewline(Decimal(n))
  {
    if n >= 10 {
      DecimalHasNoNewline(n / 10);
    }
  }

  /** No gap breaks the line. */
  ghost predicate OneLine(style: Style) {
    && NoNewline(style.open) && NoNewline(style.close) && NoNewline(style.beforeComma) && NoNewline(style.afterComma)
    && NoNewline(style.beforeColon) && NoNewline(style.afterColon)
  }

  /** Strings with newlines are escaped, so a written value is one line. */
  lemma {:induction false} WritingHasNoNewline(v: Json, style: Style)
    requires OneLine(style)
    ensures NoNewline(Write(v, style))
    decreases v
  {
    match v
    case Num(n) =>
      DecimalHasNoNewline(if n < 0 then -n else n);
    case Str(s) =>
      EscapedHasNoNewline(s);
    case Arr(items) =>
      if items != [] {
        ItemsHaveNoNewline(v, items, style);
      }
    case Obj(fields) =>
      if fields != [] {
        FieldsHaveNoNewline(v, fields, style);
      }
    case _ =>
  }

  lemma {:induction false} ItemsHaveNoNewline(v: Json, items: seq<Json>, style: Style)
    requires items != [] && (forall i | 0 <= i < |items| :: items[i] < v) && OneLine(style)
    ensures NoNewline(WriteItems(v, items, style))
    decreases v, |items|
  {
    WritingHasNoNewline(items[0], style);
    if |items| > 1 {
      ItemsHaveNoNewline(v, items[1..], style);
    }
  }

  lemma {:induction false} FieldsHaveNoNewline(v: Json, fields: seq<Field>, style: Style)
    requires fields != [] && (forall i | 0 <= i < |fields| :: fields[i].value < v) && OneLine(style)
    ensures NoNewline(WriteFields(v, fields, style))
    decreases v, |fields|
  {
    EscapedHasNoNewline(fields[0].key);
    WritingHasNoNewline(fields[0].value, style);
    assert NoNewline(WriteField(v, fields[0], style));
    if |fields| > 1 {
      FieldsHaveNoNewline(v, fields[1..], style);
    }
  }

  lemma EncodingHasNoNewline(v: Json)
    ensures NoNewline(Encode(v))
  {
    WritingHasNoNewline(v, COMPACT);
  }
}
