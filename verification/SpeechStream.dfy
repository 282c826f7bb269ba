/** Synthesized speech on the wire: when the bytes that the speaker writes reach a listener. */
module SpeechStream {
  import opened Common
  import opened Audio
  import opened Wav
  import J = Json
  import R = JsonRoundTrip
  import opened Wyoming
  import opened WyomingRoundTrip
  import opened Speech
  import opened Synthesis

  // The events of speech are small

  lemma {:induction false} DecimalLength(n: nat, k: nat)
    requires 0 < k && n < Pow256(k)
    ensures |J.Decimal(n)| <= 3 * k
    decreases k
  {
    DigitStep(n);
    DigitStep(n / 10);
    DigitStep(n / 10 / 10);
    if k > 1 {
      assert Pow256(k) == 256 * Pow256(k - 1);
      DecimalLength(n / 10 / 10 / 10, k - 1);
    } else {
      Pow256Values();
    }
  }

  lemma DigitStep(n: nat)
    ensures |J.Decimal(n)| == if n < 10 then 1 else |J.Decimal(n / 10)| + 1
  {
  }

  lemma {:induction false} EscapedLength(s: Bytes)
    ensures |J.EscapeAll(s)| <= 6 * |s|
  {
    if s != [] {
      EscapedLength(s[1..]);
    }
  }

  predicate SmallField(f: J.Field) {
    && |f.key| <= 20
    && match f.value
       case Null => true
       case Num(n) => 0 <= n < U64
       case Str(s) => |s| <= 20
       case _ => false
  }

  lemma FieldLength(context: J.Json, f: J.Field)
    requires f.value < context && SmallField(f)
    ensures |J.WriteField(context, f, J.COMPACT)| <= 250
  {
    EscapedLength(f.key);
    match f.value
    case Num(n) =>
      Pow256Values();
      DecimalLength(n, 8);
    case Str(s) =>
      EscapedLength(s);
    case _ =>
  }

  lemma {:induction false} FieldsLength(context: J.Json, fields: seq<J.Field>)
    requires fields != [] && forall i | 0 <= i < |fields| :: fields[i].value < context && SmallField(fields[i])
    ensures |J.WriteFields(context, fields, J.COMPACT)| <= 251 * |fields|
    decreases |fields|
  {
    hide SmallField, J.WriteField;
    FieldLength(context, fields[0]);
    if |fields| > 1 {
      FieldsLength(context, fields[1..]);
    }
  }

  lemma ObjectLength(fields: seq<J.Field>)
    requires forall i | 0 <= i < |fields| :: SmallField(fields[i])
    ensures |J.Encode(J.Obj(fields))| <= 251 * |fields| + 2
  {
    hide SmallField, J.WriteFields;
    if fields != [] {
      FieldsLength(J.Obj(fields), fields);
    }
  }

  ghost predicate SmallEvent(e: Event) {
    && |e.kind| <= 20 && |e.data| <= 10 && |PayloadBytes(e)| < U64
    && forall i | 0 <= i < |e.data| :: SmallField(e.data[i])
  }

  lemma SmallHeader(e: Event)
    requires SmallEvent(e)
    ensures |HeaderLine(e)| <= MAX_HEADER && |DataBytes(e)| <= MAX_DATA
  {
    hide J.Encode, SmallField;
    ObjectLength(e.data);
    var fields := Fields(HeaderOf(e));
    SmallKeys(|DataBytes(e)|, |PayloadBytes(e)|, e.kind);
    ObjectLength(fields);
  }

  lemma SmallKeys(data: nat, payload: nat, kind: Bytes)
    requires data < U64 && payload < U64 && |kind| <= 20
    ensures SmallField(J.Field(DATA_LENGTH, J.Num(data))) && SmallField(J.Field(PAYLOAD_LENGTH, J.Num(payload)))
    ensures SmallField(J.Field(TYPE_KEY, J.Str(kind))) && SmallField(J.Field(VERSION_KEY, J.Str(VERSION)))
  {
  }

  lemma FormatFields(f: Format)
    requires FitsFields(f)
    ensures R.Fits(J.Obj(FormatData(f)), J.MAX_DEPTH) && |FormatData(f)| == 4
    ensures forall i | 0 <= i < 4 :: SmallField(FormatData(f)[i])
  {
    var data := FormatData(f);
    assert J.Less(CHANNELS, RATE) && J.Less(RATE, TIMESTAMP) && J.Less(TIMESTAMP, WIDTH);
    assert data[0].key == CHANNELS && data[1].key == RATE && data[2].key == TIMESTAMP && data[3].key == WIDTH;
    assert J.Sorted(data);
    forall i | 0 <= i < 4
      ensures R.Fits(data[i].value, J.MAX_DEPTH - 1) && SmallField(data[i])
    {
    }
  }

  lemma StopFields()
    ensures R.Fits(J.Obj(STOP_EVENT.data), J.MAX_DEPTH) && SmallField(J.Field(TIMESTAMP, J.Null))
  {
  }

  // Which events arrive

  lemma FormatEvent(f: Format, e: Event)
    requires FitsFields(f) && e.data == FormatData(f) && |e.kind| <= 20 && |PayloadBytes(e)| < U64 && e.payload != Some([])
    ensures Representable(e) && (Returns(e) <==> |PayloadBytes(e)| <= MAX_PAYLOAD)
  {
    hide FormatData, HeaderLine, DataBytes, R.Fits, SmallField;
    FormatFields(f);
    SmallHeader(e);
  }

  lemma StopEvent()
    ensures Representable(STOP_EVENT) && Returns(STOP_EVENT)
  {
    hide HeaderLine, DataBytes, R.Fits, SmallField;
    StopFields();
    SmallHeader(STOP_EVENT);
  }

  lemma ChunkSizeFits(f: Format)
    requires FitsFields(f)
    ensures ChunkSize(f) < U64
  {
    ProductBelow(CHUNK_SAMPLES * f.width, f.channels, CHUNK_SAMPLES * U16);
  }

  lemma ProductBelow(a: nat, b: nat, limit: nat)
    requires a <= limit && b < U16
    ensures a * b <= limit * U16
  {
    assert (limit - a) * b >= 0;
    assert limit * b <= limit * U16;
  }

  /** The first piece is the largest one. */
  lemma {:induction false} PieceAtMost(pcm: Bytes, size: nat, i: nat)
    requires size > 0 && i < |Pieces(pcm, size)|
    ensures 0 < |Pieces(pcm, size)[i]| <= Min(size, |pcm|)
    ensures |Pieces(pcm, size)[0]| == Min(size, |pcm|)
    decreases |pcm|
  {
    if i > 0 {
      PieceAtMost(pcm[Min(size, |pcm|)..], size, i - 1);
    }
  }

  lemma PieceEvent(w: Wave, i: nat)
    requires FitsFields(w.format) && i < |Pieces(w.data, ChunkSize(w.format))|
    ensures var e := ChunkEvent(w.format, Pieces(w.data, ChunkSize(w.format))[i]);
            && Representable(e)
            && (Returns(e) <==> |Pieces(w.data, ChunkSize(w.format))[i]| <= MAX_PAYLOAD)
  {
    hide Representable, Returns, FormatData, Pieces, ChunkSize;
    ChunkSizeFits(w.format);
    PieceAtMost(w.data, ChunkSize(w.format), i);
    FormatEvent(w.format, ChunkEvent(w.format, Pieces(w.data, ChunkSize(w.format))[i]));
  }

  /** The bytes that `Speak` writes are read back as its events, and then the end of the stream, if and only
      if no chunk is larger than a payload may be. */
  lemma SpeechArrives(w: Wave)
    requires FitsFields(w.format)
    ensures ReadAll(EncodeAll(SpokenEvents(w)), 0) == Ok(SpokenEvents(w))
       <==> Min(ChunkSize(w.format), |w.data|) <= MAX_PAYLOAD
  {
    hide Representable, Returns, ReadAll, EncodeAll, FormatData, Pieces, ChunkSize, ChunkEvent;
    var pieces, es := Pieces(w.data, ChunkSize(w.format)), SpokenEvents(w);
    var largest := Min(ChunkSize(w.format), |w.data|);
    FormatEvent(w.format, StartEvent(w.format));
    StopEvent();
    assert es[0] == StartEvent(w.format) && es[|es| - 1] == STOP_EVENT;
    forall i | 0 <= i < |pieces|
      ensures es[i + 1] == ChunkEvent(w.format, pieces[i]) && Representable(es[i + 1])
      ensures Returns(es[i + 1]) <==> |pieces[i]| <= MAX_PAYLOAD
      ensures |pieces[i]| <= largest && |pieces[0]| == largest
    {
      PieceEvent(w, i);
      PieceAtMost(w.data, ChunkSize(w.format), i);
    }
    NoPiecesOfNothing(w);
    EventsReturn(es, pieces, largest);
    StreamRoundTrip(es);
  }

  lemma NoPiecesOfNothing(w: Wave)
    ensures Pieces(w.data, ChunkSize(w.format)) == [] <==> w.data == []
  {
  }

  lemma EventsReturn(es: seq<Event>, pieces: seq<Bytes>, largest: nat)
    requires |es| == |pieces| + 2
    requires Representable(es[0]) && Representable(es[|es| - 1])
    requires (Returns(es[0]) <==> true) && Returns(es[|es| - 1])
    requires forall i | 0 <= i < |pieces| ::
               Representable(es[i + 1]) && (Returns(es[i + 1]) <==> |pieces[i]| <= MAX_PAYLOAD) && |pieces[i]| <= largest
    requires if pieces == [] then largest == 0 else |pieces[0]| == largest
    ensures forall i | 0 <= i < |es| :: Representable(es[i])
    ensures AllReturn(es) <==> largest <= MAX_PAYLOAD
  {
    hide Representable, Returns;
    forall i | 0 <= i < |es|
      ensures Representable(es[i]) && (largest <= MAX_PAYLOAD ==> Returns(es[i]))
    {
      if 0 < i < |es| - 1 {
        var k := i - 1;
        assert es[k + 1] == es[i] && |pieces[k]| <= largest;
      }
    }
    if AllReturn(es) && pieces != [] {
      assert Returns(es[0 + 1]);
    }
  }

  /** So a listener of the same protocol, whatever it received before, hears the whole utterance from the
      bytes. */
  lemma ListenerHearsBytes(s: Connection, w: Wave) returns (es: seq<Event>)
    requires FitsFields(w.format) && Min(ChunkSize(w.format), |w.data|) <= MAX_PAYLOAD
    ensures ReadAll(EncodeAll(SpokenEvents(w)), 0) == Ok(es)
    ensures Run(s, es) == Connection(w.format, [], s.heard + [Pcm(Whole(w.format, w.data))])
  {
    hide ReadAll, EncodeAll, SpokenEvents, Run, Pcm;
    SpeechArrives(w);
    es := SpokenEvents(w);
    ListenerHearsUtterance(s, w);
  }

  /** A file with 65535 channels of 16 bits makes chunks of more than 512 MiB: an utterance of more than
      16 MiB does not arrive. */
  lemma {:induction false} WideSpeechIsRefused(data: Bytes)
    requires |data| > MAX_PAYLOAD
    ensures var w := Wave(Format(48_000, 2, 65_535), data);
            FitsFields(w.format) && ReadAll(EncodeAll(SpokenEvents(w)), 0) != Ok(SpokenEvents(w))
  {
    hide ReadAll, EncodeAll, SpokenEvents;
    SpeechArrives(Wave(Format(48_000, 2, 65_535), data));
  }
}
