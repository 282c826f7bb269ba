/** Reading the written form of a list of events gives back the list. */
module WyomingRoundTrip {
  import opened Common
  import J = Json
  import R = JsonRoundTrip
  import opened Wyoming

  /** The data is a JSON object of the codec and the sizes are machine integers. */
  ghost predicate Representable(e: Event) {
    && R.Fits(J.Obj(e.data), J.MAX_DEPTH)
    && |DataBytes(e)| < U64 && |PayloadBytes(e)| < U64
  }

  /** The size limits of the reader. */
  predicate WithinLimits(e: Event) {
    |HeaderLine(e)| <= MAX_HEADER && |DataBytes(e)| <= MAX_DATA && |PayloadBytes(e)| <= MAX_PAYLOAD
  }

  /** An empty payload is not told apart from no payload. */
  function Normal(e: Event): Event {
    if e.payload == Some([]) then e.(payload := None) else e
  }

  lemma KeyOrder()
    ensures J.Less(DATA_LENGTH, PAYLOAD_LENGTH) && J.Less(PAYLOAD_LENGTH, TYPE_KEY)
    ensures J.Less(DATA_LENGTH, TYPE_KEY) && J.Less(TYPE_KEY, VERSION_KEY)
  {
  }

  lemma HeaderFits(e: Event)
    requires Representable(e)
    ensures R.Fits(HeaderOf(e), J.MAX_DEPTH)
  {
    hide DataBytes, J.Less;
    KeyOrder();
  }

  lemma KeysDiffer()
    ensures DATA_LENGTH != PAYLOAD_LENGTH && DATA_LENGTH != TYPE_KEY && DATA_LENGTH != DATA_KEY
    ensures PAYLOAD_LENGTH != TYPE_KEY && PAYLOAD_LENGTH != DATA_KEY && TYPE_KEY != DATA_KEY
    ensures VERSION_KEY !in {DATA_LENGTH, PAYLOAD_LENGTH, TYPE_KEY, DATA_KEY}
  {
    assert |PAYLOAD_LENGTH| == 14 && |DATA_LENGTH| == 11 && |VERSION_KEY| == 7;
    assert TYPE_KEY[0] != DATA_KEY[0];
  }

  lemma GetCons(field: J.Field, rest: seq<J.Field>, key: Bytes)
    ensures J.Get([field] + rest, key) == if field.key == key then Some(field.value) else J.Get(rest, key)
  {
    assert ([field] + rest)[1..] == rest;
  }

  /** The reader finds in the header what the writer put there. */
  lemma HeaderLookup(e: Event, key: Bytes)
    requires key in {DATA_LENGTH, PAYLOAD_LENGTH, TYPE_KEY, DATA_KEY}
    ensures J.Get(Fields(HeaderOf(e)), key) ==
            if key == TYPE_KEY then Some(J.Str(e.kind))
            else if key == DATA_LENGTH && e.data != [] then Some(J.Num(|DataBytes(e)|))
            else if key == PAYLOAD_LENGTH && e.payload.Some? then Some(J.Num(|PayloadBytes(e)|))
            else None
  {
    hide DataBytes;
    KeysDiffer();
    var version := J.Field(VERSION_KEY, J.Str(VERSION));
    var kind := J.Field(TYPE_KEY, J.Str(e.kind));
    GetCons(version, [], key);
    GetCons(kind, [version], key);
    assert [kind] + [version] == [kind, version] && [version] + [] == [version];
    var fields := [kind, version];
    if e.payload.Some? {
      var payload := J.Field(PAYLOAD_LENGTH, J.Num(|PayloadBytes(e)|));
      GetCons(payload, fields, key);
      fields := [payload] + fields;
    }
    if e.data != [] {
      var data := J.Field(DATA_LENGTH, J.Num(|DataBytes(e)|));
      GetCons(data, fields, key);
      fields := [data] + fields;
    }
    assert Fields(HeaderOf(e)) == fields;
  }

  lemma LengthsOf(e: Event)
    ensures Length(HeaderOf(e), DATA_LENGTH, MAX_DATA) ==
            if |DataBytes(e)| <= MAX_DATA then Ok(|DataBytes(e)|) else Err(TooLarge)
    ensures Length(HeaderOf(e), PAYLOAD_LENGTH, MAX_PAYLOAD) ==
            if |PayloadBytes(e)| <= MAX_PAYLOAD then Ok(|PayloadBytes(e)|) else Err(TooLarge)
    ensures HeaderData(HeaderOf(e)) == []
  {
    hide HeaderOf, J.Encode, J.Get;
    KeysDiffer();
    HeaderLookup(e, DATA_LENGTH);
    HeaderLookup(e, PAYLOAD_LENGTH);
    HeaderLookup(e, DATA_KEY);
  }

  lemma {:induction false} FindsLineEnd(f: Bytes, pos: nat, s: Bytes, limit: nat)
    requires R.NoNewline(s) && HasAt(f, pos, s + [J.NEWLINE])
    ensures LineEnd(f, pos, limit) == pos + Min(|s| + 1, limit)
    decreases |s|
  {
    if limit > 0 {
      R.ByteAt(f, pos, s + [J.NEWLINE], 0);
      if s != [] {
        assert s + [J.NEWLINE] == [s[0]] + (s[1..] + [J.NEWLINE]);
        HasAtSplit(f, pos, [s[0]], s[1..] + [J.NEWLINE]);
        FindsLineEnd(f, pos + 1, s[1..], limit - 1);
      }
    }
  }

  lemma DataRoundTrip(e: Event)
    requires Representable(e)
    ensures MergedData([], DataBytes(e)) == Ok(e.data)
    ensures DataBytes(e) == [] <==> e.data == []
  {
    hide J.Decode, J.Encode, J.InsertAll, J.Less;
    if e.data != [] {
      R.DecodesEncoding(J.Obj(e.data), DataBytes(e));
      assert [] + e.data == e.data;
      J.InsertAllSorted([], e.data);
      NonEmptyObject(e.data);
    }
  }

  lemma NonEmptyObject(fields: seq<J.Field>)
    requires fields != []
    ensures J.Encode(J.Obj(fields)) != []
  {
  }

  /** The body behind the header of a written event. */
  lemma ReadsBody(f: Bytes, pos: nat, e: Event)
    requires Representable(e) && HasAt(f, pos, DataBytes(e) + PayloadBytes(e))
    ensures var small := |DataBytes(e)| <= MAX_DATA && |PayloadBytes(e)| <= MAX_PAYLOAD;
            var r := BodyAt(f, pos, HeaderOf(e), e.kind);
            if small then r == Ok(At(Normal(e), pos + |DataBytes(e)| + |PayloadBytes(e)|)) else r.Err?
  {
    hide Length, HeaderData, MergedData, HeaderOf, DataBytes;
    LengthsOf(e);
    DataRoundTrip(e);
    HasAtSplit(f, pos, DataBytes(e), PayloadBytes(e));
  }

  /** The header line of a written event, up to the limit of the reader. */
  lemma ReadsHeader(f: Bytes, pos: nat, e: Event)
    requires Representable(e) && HasAt(f, pos, HeaderLine(e))
    ensures LineEnd(f, pos, MAX_HEADER + 1) == pos + Min(|HeaderLine(e)|, MAX_HEADER + 1)
    ensures J.Decode(f[pos..pos + |HeaderLine(e)|]) == Ok(HeaderOf(e))
  {
    hide J.Decode, HeaderOf, J.Encode, R.Fits;
    HeaderFits(e);
    R.EncodingHasNoNewline(HeaderOf(e));
    FindsLineEnd(f, pos, J.Encode(HeaderOf(e)), MAX_HEADER + 1);
    R.DecodesEncoding(HeaderOf(e), HeaderLine(e));
  }

  /** One event: it comes back (with an empty payload as no payload) if it is within the limits,
      and is refused otherwise. */
  lemma EventRoundTrip(f: Bytes, pos: nat, e: Event)
    requires Representable(e) && HasAt(f, pos, Encode(e))
    ensures WithinLimits(e) ==> ReadAt(f, pos) == Ok(Some(At(Normal(e), pos + |Encode(e)|)))
    ensures !WithinLimits(e) ==> ReadAt(f, pos).Err?
  {
    hide LineEnd, J.Decode, BodyAt, HeaderOf, DataBytes, PayloadBytes, J.Encode, J.Get;
    HasAtSplit(f, pos, HeaderLine(e), DataBytes(e) + PayloadBytes(e));
    ReadsHeader(f, pos, e);
    if |HeaderLine(e)| <= MAX_HEADER {
      HeaderLookup(e, TYPE_KEY);
      ReadsBody(f, pos + |HeaderLine(e)|, e);
    }
  }

  /** Any event whose payload is present but empty is read back without one. */
  lemma EmptyPayloadIsLost(e: Event)
    requires Representable(e) && WithinLimits(e) && e.payload == Some([])
    ensures ReadAt(Encode(e), 0) == Ok(Some(At(e.(payload := None), |Encode(e)|)))
  {
    hide ReadAt, Encode, WithinLimits, Representable;
    assert HasAt(Encode(e), 0, Encode(e));
    EventRoundTrip(Encode(e), 0, e);
  }

  /** All events up to the end of the stream. */
  function ReadAll(f: Bytes, pos: nat): Result<seq<Event>, Error>
    requires pos <= |f|
    decreases |f| - pos
  {
    var a :- ReadAt(f, pos);
    match a
    case None => Ok([])
    case Some(at) =>
      var rest :- ReadAll(f, at.pos);
      Ok([at.event] + rest)
  }

  ghost predicate Returns(e: Event) {
    WithinLimits(e) && e.payload != Some([])
  }

  ghost predicate AllReturn(es: seq<Event>) {
    forall i | 0 <= i < |es| :: Returns(es[i])
  }

  lemma AllReturnSplit(es: seq<Event>)
    requires es != []
    ensures AllReturn(es) <==> Returns(es[0]) && AllReturn(es[1..])
  {
    if Returns(es[0]) && AllReturn(es[1..]) {
      forall i | 0 <= i < |es|
        ensures Returns(es[i])
      {
        assert i > 0 ==> es[i] == es[1..][i - 1];
      }
    }
  }

  lemma {:induction false} ReadAllStep(f: Bytes, pos: nat, at: At, es: seq<Event>)
    requires pos <= |f| && es != [] && ReadAt(f, pos) == Ok(Some(at))
    ensures ReadAll(f, pos) == Ok(es) <==> at.event == es[0] && ReadAll(f, at.pos) == Ok(es[1..])
  {
    hide ReadAt;
    assert es == [es[0]] + es[1..];
  }

  lemma {:induction false} ReadsEvents(f: Bytes, pos: nat, es: seq<Event>)
    requires forall i | 0 <= i < |es| :: Representable(es[i])
    requires HasAt(f, pos, EncodeAll(es)) && pos + |EncodeAll(es)| == |f|
    ensures ReadAll(f, pos) == Ok(es) <==> AllReturn(es)
    decreases |es|
  {
    hide ReadAt, Encode, WithinLimits, Representable, HasAt;
    if es != [] {
      HasAtSplit(f, pos, Encode(es[0]), EncodeAll(es[1..]));
      EventRoundTrip(f, pos, es[0]);
      AllReturnSplit(es);
      if WithinLimits(es[0]) {
        hide ReadAll, AllReturn;
        ReadAllStep(f, pos, At(Normal(es[0]), pos + |Encode(es[0])|), es);
        ReadsEvents(f, pos + |Encode(es[0])|, es[1..]);
      }
    }
  }

  /** The stream round trip: reading the concatenation of the written forms gives back the same
      events and then the end of the stream, exactly if every event is within the limits and no
      payload is present but empty. */
  lemma {:induction false} StreamRoundTrip(es: seq<Event>)
    requires forall i | 0 <= i < |es| :: Representable(es[i])
    ensures ReadAll(EncodeAll(es), 0) == Ok(es) <==> AllReturn(es)
  {
    hide EncodeAll, ReadAll, AllReturn, Representable;
    ReadsEvents(EncodeAll(es), 0, es);
  }
}
