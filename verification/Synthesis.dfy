/** Synthesized speech leaves as chunk events (src/wyoming/mod.rs), and a listener gets it back. */
module Synthesis {
  import opened Common
  import opened Audio
  import opened Wav
  import J = Json
  import opened Wyoming
  import opened Speech

  /** The samples of `pcm` in pieces of `size` bytes; the last one may be shorter. */
  function Pieces(pcm: Bytes, size: nat): seq<Bytes>
    requires size > 0
    decreases |pcm|
  {
    if pcm == [] then []
    else [pcm[..Min(size, |pcm|)]] + Pieces(pcm[Min(size, |pcm|)..], size)
  }

  function ChunkSize(f: Format): (size: nat)
    ensures size > 0
  {
    Max(CHUNK_SAMPLES * f.width * f.channels, 1)
  }

  function FormatData(f: Format): seq<J.Field> {
    [J.Field(CHANNELS, J.Num(f.channels)), J.Field(RATE, J.Num(f.rate)),
     J.Field(TIMESTAMP, J.Null), J.Field(WIDTH, J.Num(f.width))]
  }

  function ChunkEvent(f: Format, piece: Bytes): Event {
    Event(AUDIO_CHUNK, FormatData(f), Some(piece))
  }

  function ChunkEvents(f: Format, pieces: seq<Bytes>): (es: seq<Event>)
    ensures |es| == |pieces|
    ensures forall i | 0 <= i < |pieces| :: es[i] == ChunkEvent(f, pieces[i])
  {
    seq(|pieces|, i requires 0 <= i < |pieces| => ChunkEvent(f, pieces[i]))
  }

  function StartEvent(f: Format): Event {
    Event(AUDIO_START, FormatData(f), None)
  }

  const STOP_EVENT := Event(AUDIO_STOP, [J.Field(TIMESTAMP, J.Null)], None)

  function SpokenEvents(w: Wave): seq<Event> {
    [StartEvent(w.format)] + ChunkEvents(w.format, Pieces(w.data, ChunkSize(w.format))) + [STOP_EVENT]
  }

  /** Sends the answer of the speech engine. A response that is no WAV file is an error. */
  method Speak(wav: Bytes, writer: EventWriter) returns (r: Result<(), Wav.Error>)
    modifies writer
    ensures match ParseOf(wav)
            case Ok(w) => r.Ok? && writer.out == old(writer.out) + EncodeAll(SpokenEvents(w))
            case Err(e) => r == Err(e) && writer.out == old(writer.out)
  {
    hide ParseOf, Wyoming.Encode, EncodeAll, Pieces, ChunkEvents, FormatData;
    var w :- ParseWav(wav);
    var size := ChunkSize(w.format);
    ghost var sent := [StartEvent(w.format)];
    writer.WriteEvent(StartEvent(w.format));
    EncodeOne(StartEvent(w.format));
    ghost var pieces := Pieces(w.data, size);
    ghost var n := 0;
    var rest := w.data;
    assert [StartEvent(w.format)] + ChunkEvents(w.format, []) == [StartEvent(w.format)];
    while rest != []
      invariant n <= |pieces| && Pieces(rest, size) == pieces[n..]
      invariant sent == [StartEvent(w.format)] + ChunkEvents(w.format, pieces[..n])
      invariant writer.out == old(writer.out) + EncodeAll(sent)
      decreases |rest|
    {
      var piece := rest[..Min(size, |rest|)];
      NextPiece(pieces, rest, size, n);
      writer.WriteEvent(ChunkEvent(w.format, piece));
      EncodeAllAppend(sent, ChunkEvent(w.format, piece));
      sent := sent + [ChunkEvent(w.format, piece)];
      rest := rest[Min(size, |rest|)..];
      ChunkEventsAppend(w.format, pieces, n);
      n := n + 1;
    }
    NoPieces(pieces, size, n);
    writer.WriteEvent(STOP_EVENT);
    EncodeAllAppend(sent, STOP_EVENT);
    return Ok(());
  }

  lemma NextPiece(pieces: seq<Bytes>, rest: Bytes, size: nat, n: nat)
    requires size > 0 && rest != [] && n <= |pieces| && Pieces(rest, size) == pieces[n..]
    ensures n < |pieces| && pieces[n] == rest[..Min(size, |rest|)]
    ensures Pieces(rest[Min(size, |rest|)..], size) == pieces[n + 1..]
  {
    assert pieces[n] == pieces[n..][0];
    assert pieces[n + 1..] == pieces[n..][1..];
  }

  lemma NoPieces(pieces: seq<Bytes>, size: nat, n: nat)
    requires size > 0 && n <= |pieces| && Pieces([], size) == pieces[n..]
    ensures pieces[..n] == pieces
  {
    assert |pieces[n..]| == 0;
  }

  lemma ChunkEventsAppend(f: Format, pieces: seq<Bytes>, n: nat)
    requires n < |pieces|
    ensures ChunkEvents(f, pieces[..n + 1]) == ChunkEvents(f, pieces[..n]) + [ChunkEvent(f, pieces[n])]
  {
  }

  lemma EncodeOne(e: Event)
    ensures EncodeAll([e]) == Wyoming.Encode(e)
  {
    hide Wyoming.Encode;
    assert EncodeAll([e]) == Wyoming.Encode(e) + EncodeAll([]);
  }

  lemma {:induction false} EncodeAllAppend(es: seq<Event>, e: Event)
    ensures EncodeAll(es + [e]) == EncodeAll(es) + Wyoming.Encode(e)
  {
    hide Wyoming.Encode;
    if es == [] {
      assert es + [e] == [e];
      EncodeOne(e);
    } else {
      assert (es + [e])[1..] == es[1..] + [e];
      EncodeAllAppend(es[1..], e);
    }
  }

  function Concat(pieces: seq<Bytes>): Bytes {
    if pieces == [] then [] else pieces[0] + Concat(pieces[1..])
  }

  /** The pieces hold all bytes in order; every piece but the last is full, and none is empty. */
  lemma {:induction false} PiecesPartition(pcm: Bytes, size: nat)
    requires size > 0
    ensures Concat(Pieces(pcm, size)) == pcm
    ensures forall i | 0 <= i < |Pieces(pcm, size)| :: 0 < |Pieces(pcm, size)[i]| <= size
    ensures forall i | 0 <= i < |Pieces(pcm, size)| - 1 :: |Pieces(pcm, size)[i]| == size
    decreases |pcm|
  {
    if pcm != [] {
      var k := Min(size, |pcm|);
      PiecesPartition(pcm[k..], size);
      assert pcm[..k] + pcm[k..] == pcm;
    }
  }

  ghost predicate FitsFields(f: Format) {
    f.rate < U32 && f.width < U16 && f.channels < U16
  }

  /** The listener reads the format that the speaker wrote. */
  lemma FormatRoundTrip(f: Format, fallback: Format)
    requires FitsFields(f)
    ensures FormatOf(FormatData(f), fallback) == f
  {
    var data := FormatData(f);
    assert |CHANNELS| == 8 && |RATE| == 4 && |WIDTH| == 5 && |TIMESTAMP| == 9;
    assert J.Get(data, CHANNELS) == Some(J.Num(f.channels));
    assert data[1..][0].key == RATE && data[1..][1..][0].key == TIMESTAMP;
    assert data[1..][1..][1..] == [J.Field(WIDTH, J.Num(f.width))];
    assert J.Get(data, RATE) == J.Get(data[1..], RATE) == Some(J.Num(f.rate));
    assert J.Get(data, WIDTH) == J.Get(data[1..], WIDTH) == J.Get(data[1..][1..], WIDTH)
        == J.Get(data[1..][1..][1..], WIDTH) == Some(J.Num(f.width));
  }

  function Whole(f: Format, raw: Bytes): seq<Segment> {
    if raw == [] then [] else [Segment(f, raw)]
  }

  lemma AddsPiece(f: Format, raw: Bytes, piece: Bytes)
    requires piece != []
    ensures AddChunk(Whole(f, raw), Segment(f, piece)) == Whole(f, raw + piece)
  {
    if raw == [] {
      assert raw + piece == piece;
    } else {
      assert Whole(f, raw)[..0] == [];
    }
  }

  lemma HearsPiece(s: Connection, f: Format, piece: Bytes, raw: Bytes)
    requires FitsFields(f) && s.audio == Whole(f, raw) && piece != []
    ensures Step(s, ChunkEvent(f, piece)) == s.(audio := Whole(f, raw + piece))
  {
    hide FormatOf, FormatData;
    FormatRoundTrip(f, s.format);
    AddsPiece(f, raw, piece);
  }

  lemma {:induction false} HearsPieces(s: Connection, f: Format, pieces: seq<Bytes>, raw: Bytes)
    requires FitsFields(f) && s.audio == Whole(f, raw)
    requires forall i | 0 <= i < |pieces| :: pieces[i] != []
    ensures Run(s, ChunkEvents(f, pieces)) == s.(audio := Whole(f, raw + Concat(pieces)))
    decreases |pieces|
  {
    hide FormatOf, FormatData;
    if pieces == [] {
      assert raw + Concat(pieces) == raw;
    } else {
      var e := ChunkEvent(f, pieces[0]);
      HearsPiece(s, f, pieces[0], raw);
      hide Step, Whole;
      assert ChunkEvents(f, pieces)[1..] == ChunkEvents(f, pieces[1..]);
      assert raw + Concat(pieces) == raw + pieces[0] + Concat(pieces[1..]);
      HearsPieces(Step(s, e), f, pieces[1..], raw + pieces[0]);
    }
  }

  /** A listener of the same protocol hears the whole utterance once, whatever came before. */
  lemma ListenerHearsUtterance(s: Connection, w: Wave)
    requires FitsFields(w.format)
    ensures Run(s, SpokenEvents(w)) == Connection(w.format, [], s.heard + [Pcm(Whole(w.format, w.data))])
  {
    hide FormatOf, FormatData, Pcm, Run;
    var pieces := Pieces(w.data, ChunkSize(w.format));
    var start, chunks := [StartEvent(w.format)], ChunkEvents(w.format, pieces);
    PiecesPartition(w.data, ChunkSize(w.format));
    FormatRoundTrip(w.format, STT);
    RunOne(s, StartEvent(w.format));
    RunAppend(s, start, chunks);
    HearsPieces(Run(s, start), w.format, pieces, []);
    assert [] + Concat(pieces) == w.data;
    RunAppend(s, start + chunks, [STOP_EVENT]);
    RunOne(Run(s, start + chunks), STOP_EVENT);
  }

  // What the recogniser hears

  /** Samples of 16 kHz, 16 bits and one channel are heard as they are, however they are cut into chunks. */
  lemma HearsSamples(s: Connection, pcm: seq<i16>, pieces: seq<Bytes>)
    requires Concat(pieces) == PcmBytes(pcm) && forall i | 0 <= i < |pieces| :: pieces[i] != []
    ensures var f := Format(16_000, 2, 1);
            Run(s, [StartEvent(f)] + ChunkEvents(f, pieces) + [STOP_EVENT]).heard == s.heard + [pcm]
  {
    hide FormatOf, FormatData, Pcm, Run;
    var f := Format(16_000, 2, 1);
    var start, chunks := [StartEvent(f)], ChunkEvents(f, pieces);
    FormatRoundTrip(f, STT);
    RunOne(s, StartEvent(f));
    RunAppend(s, start, chunks);
    HearsPieces(Run(s, start), f, pieces, []);
    assert [] + Concat(pieces) == PcmBytes(pcm);
    RunAppend(s, start + chunks, [STOP_EVENT]);
    RunOne(Run(s, start + chunks), STOP_EVENT);
    PcmOfSamples(pcm);
  }

  lemma PcmOfSamples(pcm: seq<i16>)
    ensures Pcm(Whole(Format(16_000, 2, 1), PcmBytes(pcm))) == pcm
  {
    hide ToMono;
    SameFormatIsACopy(pcm);
    NoPcm();
    if pcm != [] {
      PcmStep(Whole(STT, PcmBytes(pcm)));
    }
  }

  /** Chunks that name their format. */
  function NamedChunks(cs: seq<Segment>): (es: seq<Event>)
    ensures |es| == |cs| && forall i | 0 <= i < |cs| :: es[i] == ChunkEvent(cs[i].format, cs[i].raw)
  {
    seq(|cs|, i requires 0 <= i < |cs| => ChunkEvent(cs[i].format, cs[i].raw))
  }

  lemma {:induction false} NamedChunksAreChunks(cs: seq<Segment>, format: Format)
    requires forall i | 0 <= i < |cs| :: FitsFields(cs[i].format)
    ensures ChunksOf(NamedChunks(cs), format) == cs
    decreases |cs|
  {
    if cs != [] {
      hide FormatOf, FormatData, FitsFields;
      var n := |cs| - 1;
      NamedChunksAreChunks(cs[..n], format);
      assert NamedChunks(cs)[..n] == NamedChunks(cs[..n]);
      FormatRoundTrip(cs[n].format, format);
    }
  }

  /** Audio in several formats: however it is cut, a listener hears its parts of one format one after the other. */
  lemma HearsParts(s: Connection, f: Format, cs: seq<Segment>, parts: seq<Segment>)
    requires forall i | 0 <= i < |cs| :: FitsFields(cs[i].format) && cs[i].raw != []
    requires Canonical(parts) && Labels(parts) == Labels(cs)
    ensures Run(s, [StartEvent(f)] + NamedChunks(cs) + [STOP_EVENT]).heard == s.heard + [Pcm(parts)]
  {
    hide FormatOf, FormatData, Pcm, Run, Labels, AddChunks, ChunksOf;
    var start, chunks := [StartEvent(f)], NamedChunks(cs);
    RunOne(s, StartEvent(f));
    RunAppend(s, start, chunks);
    var ready := Run(s, start);
    RunsChunks(ready, chunks);
    NamedChunksAreChunks(cs, ready.format);
    AddChunksLabels([], cs);
    NoLabels();
    CanonicalIsUnique(AddChunks([], cs), parts);
    RunAppend(s, start + chunks, [STOP_EVENT]);
    RunOne(Run(s, start + chunks), STOP_EVENT);
  }

  /** What is heard of parts is what is heard of each, in order; one part is converted to 16 kHz. */
  lemma {:induction false} PcmOfParts(a: seq<Segment>, b: seq<Segment>, c: Segment)
    ensures Pcm(a + b) == Pcm(a) + Pcm(b)
    ensures Pcm([c]) == ToMono(c.raw, c.format, 16_000)
    decreases |a|
  {
    hide ToMono, Pcm;
    NoPcm();
    PcmStep([c]);
    assert [c][1..] == [];
    if a == [] {
      assert a + b == b;
    } else {
      assert (a + b)[1..] == a[1..] + b;
      PcmStep(a);
      PcmStep(a + b);
      PcmOfParts(a[1..], b, c);
    }
  }

  /** An event without a format has that of the announcement, and an announcement without one is 16 kHz, 16 bits
      and one channel. */
  lemma MissingFormat(s: Connection, raw: Bytes)
    requires raw != []
    ensures FormatOf([], s.format) == s.format
    ensures Step(s, Event(AUDIO_START, [], None)).format == Format(16_000, 2, 1)
    ensures var next := Step(s.(audio := []), Event(AUDIO_CHUNK, [], Some(raw)));
            next.audio == [Segment(s.format, raw)]
  {
  }
}
