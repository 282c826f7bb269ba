/**
 Events as other clients write them: fields in any order, any spacing, and data in the header line, in a
 block behind it, or in both. The reader gives back what they mean.
 */
module WyomingClients {
  import opened Common
  import J = Json
  import R = JsonRoundTrip
  import O = JsonObjects
  import opened Wyoming
  import W = WyomingRoundTrip

  /** The fields of a header as a map; a header that is no object has none. */
  ghost function Meaning(header: J.Json): map<Bytes, J.Json> {
    if header.Obj? then O.MapOf(R.Normal(header).fields) else map[]
  }

  /** The kind of the event, if the header names one. */
  ghost function Kind(m: map<Bytes, J.Json>): Option<Bytes> {
    if TYPE_KEY in m && m[TYPE_KEY].Str? then Some(m[TYPE_KEY].s) else None
  }

  /** A length that the header announces: 0 if it says nothing, None if it is no natural number. */
  ghost function Announced(m: map<Bytes, J.Json>, key: Bytes): Option<nat> {
    if key !in m || m[key].Null? then Some(0)
    else if m[key].Num? && m[key].n >= 0 then Some(m[key].n)
    else None
  }

  /** The data in the header line. */
  ghost function Inline(m: map<Bytes, J.Json>): map<Bytes, J.Json> {
    if DATA_KEY in m && m[DATA_KEY].Obj? then O.MapOf(m[DATA_KEY].fields) else map[]
  }

  /** The data in the block; None if it is no JSON. */
  ghost function Block(raw: Bytes): Option<map<Bytes, J.Json>> {
    if raw == [] then Some(map[])
    else match J.Decode(raw)
      case Ok(v) => Some(O.MapOf(Fields(v)))
      case Err(_) => None
  }

  /** An event can be read: its header line has `length` bytes and ends at `end`. */
  ghost predicate Legible(f: Bytes, end: nat, length: nat, m: map<Bytes, J.Json>) {
    var data, payload := Announced(m, DATA_LENGTH), Announced(m, PAYLOAD_LENGTH);
    && length <= MAX_HEADER && Kind(m).Some?
    && data.Some? && data.value <= MAX_DATA && payload.Some? && payload.value <= MAX_PAYLOAD
    && end + data.value + payload.value <= |f|
    && Block(f[end..end + data.value]).Some?
  }

  /** The event of this header. The fields of the block override those of the header line. */
  ghost predicate IsEvent(f: Bytes, end: nat, m: map<Bytes, J.Json>, a: At) {
    && Legible(f, end, 0, m)
    && var data, payload := Announced(m, DATA_LENGTH).value, Announced(m, PAYLOAD_LENGTH).value;
    && a.event.kind == Kind(m).value && a.pos == end + data + payload
    && J.Sorted(a.event.data)
    && O.MapOf(a.event.data) == Inline(m) + Block(f[end..end + data]).value
    && a.event.payload == if payload == 0 then None else Some(f[end + data..end + data + payload])
  }

  lemma FieldsMean(header: J.Json)
    ensures J.Sorted(Fields(R.Normal(header))) && O.MapOf(Fields(R.Normal(header))) == Meaning(header)
  {
    if header.Obj? {
      O.NormalIsMap(header, []);
    }
  }

  lemma HeaderField(header: J.Json, key: Bytes)
    ensures J.Get(Fields(R.Normal(header)), key) ==
              if key in Meaning(header) then Some(Meaning(header)[key]) else None
  {
    hide R.Normal, O.MapOf, Meaning;
    FieldsMean(header);
    O.GetIsLookup(Fields(R.Normal(header)), key);
  }

  lemma AnnouncedLength(header: J.Json, key: Bytes, max: nat)
    ensures Length(R.Normal(header), key, max) ==
              match Announced(Meaning(header), key)
              case None => Err(BadLength)
              case Some(n) => if n > max then Err(TooLarge) else Ok(n)
  {
    hide R.Normal, Meaning, J.Get, Fields;
    HeaderField(header, key);
  }

  lemma InlineData(header: J.Json)
    ensures J.Sorted(HeaderData(R.Normal(header)))
    ensures O.MapOf(HeaderData(R.Normal(header))) == Inline(Meaning(header))
  {
    hide R.Normal, J.Get, J.Sorted, O.MapOf;
    HeaderField(header, DATA_KEY);
    NoData();
    if DATA_KEY in Meaning(header) {
      O.NormalIsMap(header, DATA_KEY);
      var v := O.MapOf(header.fields)[DATA_KEY];
      if v.Obj? {
        O.NormalIsMap(v, []);
      } else {
        OtherStays(v);
      }
    }
  }

  lemma NoData()
    ensures O.MapOf([]) == map[] && J.Sorted([])
  {
  }

  lemma OtherStays(v: J.Json)
    requires !v.Obj?
    ensures !R.Normal(v).Obj?
  {
  }

  lemma MergedIsMap(inline: seq<J.Field>, raw: Bytes)
    requires J.Sorted(inline)
    ensures Block(raw).None? ==> MergedData(inline, raw) == Err(BadData)
    ensures Block(raw).Some? ==>
              && MergedData(inline, raw).Ok? && J.Sorted(MergedData(inline, raw).value)
              && O.MapOf(MergedData(inline, raw).value) == O.MapOf(inline) + Block(raw).value
  {
    hide J.Decode, J.Sorted, J.InsertAll, O.MapOf;
    if raw != [] && J.Decode(raw).Ok? {
      O.InsertAllIsMerge(inline, Fields(J.Decode(raw).value));
    }
  }

  lemma ReadsAnyBody(f: Bytes, end: nat, header: J.Json)
    requires end <= |f| && Kind(Meaning(header)).Some?
    ensures var r := BodyAt(f, end, R.Normal(header), Kind(Meaning(header)).value);
            && (r.Ok? <==> Legible(f, end, 0, Meaning(header)))
            && (r.Ok? ==> IsEvent(f, end, Meaning(header), r.value))
  {
    hide R.Normal, Meaning, Length, HeaderData, MergedData, J.Sorted, O.MapOf, Announced, Inline, Block, Kind;
    AnnouncedLength(header, DATA_LENGTH, MAX_DATA);
    AnnouncedLength(header, PAYLOAD_LENGTH, MAX_PAYLOAD);
    InlineData(header);
    var data := Length(R.Normal(header), DATA_LENGTH, MAX_DATA);
    if data.Ok? && end + data.value <= |f| {
      MergedIsMap(HeaderData(R.Normal(header)), f[end..end + data.value]);
    }
  }

  /** Reading an event of any client: whether it can be read, and what it means. */
  lemma ReadsAnyEvent(f: Bytes, pos: nat, header: J.Json, style: J.Style)
    requires R.Readable(header, J.MAX_DEPTH) && R.IsStyle(style) && R.OneLine(style)
    requires HasAt(f, pos, J.Write(header, style) + [J.NEWLINE])
    ensures var length := |J.Write(header, style)| + 1;
            var m, r := Meaning(header), ReadAt(f, pos);
            && (r.Ok? <==> Legible(f, pos + length, length, m))
            && (r.Ok? ==> r.value.Some? && IsEvent(f, pos + length, m, r.value.value))
  {
    hide R.Normal, Meaning, J.Write, J.Decode, J.Get, LineEnd, BodyAt, IsEvent, Legible, R.Readable, R.IsStyle, Fields;
    var text := J.Write(header, style);
    var end := pos + |text| + 1;
    R.WritingHasNoNewline(header, style);
    FindsLine(f, pos, text);
    LegibleLength(f, end, |text| + 1, Meaning(header));
    if |text| + 1 <= MAX_HEADER {
      assert text + [J.NEWLINE] == [] + (text + [J.NEWLINE]);
      NewlineIsSpace();
      R.DecodesWriting(header, style, [], [J.NEWLINE]);
      HeaderField(header, TYPE_KEY);
      if Kind(Meaning(header)).Some? {
        ReadsAnyBody(f, end, header);
      }
    }
  }

  lemma NewlineIsSpace()
    ensures R.AllSpace([J.NEWLINE]) && R.AllSpace([])
  {
  }

  lemma FindsLine(f: Bytes, pos: nat, text: Bytes)
    requires R.NoNewline(text) && HasAt(f, pos, text + [J.NEWLINE])
    ensures LineEnd(f, pos, MAX_HEADER + 1) == pos + Min(|text| + 1, MAX_HEADER + 1)
    ensures f[pos..pos + |text| + 1] == text + [J.NEWLINE]
  {
    hide LineEnd;
    W.FindsLineEnd(f, pos, text, MAX_HEADER + 1);
  }

  lemma LegibleLength(f: Bytes, end: nat, length: nat, m: map<Bytes, J.Json>)
    ensures Legible(f, end, length, m) <==> length <= MAX_HEADER && Legible(f, end, 0, m)
    ensures Legible(f, end, 0, m) ==> Kind(m).Some?
  {
  }

  // Data in the header line

  /** The header of an event with all of its data inline, in the order of the Python client. */
  function InlineHeader(kind: Bytes, data: seq<J.Field>): J.Json {
    J.Obj([J.Field(TYPE_KEY, J.Str(kind)), J.Field(DATA_KEY, J.Obj(data))])
  }

  lemma InlineMeaning(kind: Bytes, data: seq<J.Field>)
    requires R.Fits(J.Obj(data), J.MAX_DEPTH - 1)
    ensures R.Readable(InlineHeader(kind, data), J.MAX_DEPTH)
    ensures var m := Meaning(InlineHeader(kind, data));
            && Kind(m) == Some(kind) && Announced(m, DATA_LENGTH) == Announced(m, PAYLOAD_LENGTH) == Some(0)
            && Inline(m) == O.MapOf(data)
  {
    var header := InlineHeader(kind, data);
    W.KeysDiffer();
    R.NormalIsSame(J.Obj(data), J.MAX_DEPTH - 1);
    hide R.Normal, R.Fits, J.Sorted, O.MapOf, R.Readable;
    ReadableHeader(kind, data);
    O.TwoFields(header.fields[0], header.fields[1]);
    TextStays(kind);
    O.NormalIsMap(header, TYPE_KEY);
    O.NormalIsMap(header, DATA_KEY);
    O.NormalIsMap(header, DATA_LENGTH);
    O.NormalIsMap(header, PAYLOAD_LENGTH);
  }

  lemma ReadableHeader(kind: Bytes, data: seq<J.Field>)
    requires R.Readable(J.Obj(data), J.MAX_DEPTH - 1)
    ensures R.Readable(InlineHeader(kind, data), J.MAX_DEPTH)
  {
  }

  lemma TextStays(s: Bytes)
    ensures R.Normal(J.Str(s)) == J.Str(s)
  {
  }

  /** An event whose data is in the header line is read back as it is, however the line is spaced. */
  lemma InlineRoundTrip(f: Bytes, pos: nat, kind: Bytes, data: seq<J.Field>, style: J.Style)
    requires R.Fits(J.Obj(data), J.MAX_DEPTH - 1) && R.IsStyle(style) && R.OneLine(style)
    requires HasAt(f, pos, J.Write(InlineHeader(kind, data), style) + [J.NEWLINE])
    requires |J.Write(InlineHeader(kind, data), style)| < MAX_HEADER
    ensures ReadAt(f, pos) ==
              Ok(Some(At(Event(kind, data, None), pos + |J.Write(InlineHeader(kind, data), style)| + 1)))
  {
    hide Meaning, ReadAt, J.Write, R.Readable, R.IsStyle, R.OneLine, J.Decode, O.MapOf, InlineHeader;
    InlineMeaning(kind, data);
    ReadsAnyEvent(f, pos, InlineHeader(kind, data), style);
    O.SortedIsUnique(ReadAt(f, pos).value.value.event.data, data);
  }

  /** The Python client writes a space behind each comma and colon. */
  const PYTHON := J.Style([], [], [], [32], [], [32])

  lemma PythonRoundTrip(f: Bytes, pos: nat, kind: Bytes, data: seq<J.Field>)
    requires R.Fits(J.Obj(data), J.MAX_DEPTH - 1)
    requires HasAt(f, pos, J.Write(InlineHeader(kind, data), PYTHON) + [J.NEWLINE])
    requires |J.Write(InlineHeader(kind, data), PYTHON)| < MAX_HEADER
    ensures ReadAt(f, pos) ==
              Ok(Some(At(Event(kind, data, None), pos + |J.Write(InlineHeader(kind, data), PYTHON)| + 1)))
  {
    hide J.Write, ReadAt, R.Fits, InlineHeader;
    InlineRoundTrip(f, pos, kind, data, PYTHON);
  }
}
