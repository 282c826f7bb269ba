/**
 The audio of a Wyoming connection (src/wyoming/mod.rs): received chunks are collected per
 format and converted once at audio-stop; synthesized audio leaves in chunks.
 */
module Speech {
  import opened Common
  import opened Audio
  import J = Json
  import opened Wyoming

  const CHUNK_SAMPLES := 4096
  const STT_RATE := 16_000

  // "audio-start", "audio-chunk", "audio-stop"
  const AUDIO_START: Bytes := [97, 117, 100, 105, 111, 45, 115, 116, 97, 114, 116]
  const AUDIO_CHUNK: Bytes := [97, 117, 100, 105, 111, 45, 99, 104, 117, 110, 107]
  const AUDIO_STOP: Bytes := [97, 117, 100, 105, 111, 45, 115, 116, 111, 112]
  // "rate", "width", "channels", "timestamp"
  const RATE: Bytes := [114, 97, 116, 101]
  const WIDTH: Bytes := [119, 105, 100, 116, 104]
  const CHANNELS: Bytes := [99, 104, 97, 110, 110, 101, 108, 115]
  const TIMESTAMP: Bytes := [116, 105, 109, 101, 115, 116, 97, 109, 112]

  /** Raw audio of one format. */
  datatype Segment = Segment(format: Format, raw: Bytes)

  /** An unsigned field, cut to its machine width; other values count as absent. */
  function Field(data: seq<J.Field>, key: Bytes, modulus: nat, fallback: nat): nat
    requires modulus > 0
  {
    match J.Get(data, key)
    case Some(Num(n)) => if n >= 0 then n % modulus else fallback
    case _ => fallback
  }

  function FormatOf(data: seq<J.Field>, fallback: Format): Format {
    Format(Field(data, RATE, U32, fallback.rate),
           Field(data, WIDTH, U16, fallback.width),
           Field(data, CHANNELS, U16, fallback.channels))
  }

  /** A chunk extends the last segment of its format or opens a new one. */
  function AddChunk(audio: seq<Segment>, c: Segment): seq<Segment> {
    if audio != [] && audio[|audio| - 1].format == c.format then
      audio[..|audio| - 1] + [Segment(c.format, audio[|audio| - 1].raw + c.raw)]
    else audio + [c]
  }

  function AddChunks(audio: seq<Segment>, cs: seq<Segment>): seq<Segment> {
    if cs == [] then audio else AddChunk(AddChunks(audio, cs[..|cs| - 1]), cs[|cs| - 1])
  }

  function Pcm(audio: seq<Segment>): seq<i16> {
    if audio == [] then []
    else ToMono(audio[0].raw, audio[0].format, STT_RATE) + Pcm(audio[1..])
  }

  /** The connection: the announced format, the audio so far, and what went to the speech
      recognizer at each audio-stop. */
  datatype Connection = Connection(format: Format, audio: seq<Segment>, heard: seq<seq<i16>>)

  const START := Connection(STT, [], [])

  function Step(s: Connection, e: Event): Connection {
    if e.kind == AUDIO_START then Connection(FormatOf(e.data, STT), [], s.heard)
    else if e.kind == AUDIO_CHUNK then
      match e.payload
      case None => s
      case Some(p) => s.(audio := AddChunk(s.audio, Segment(FormatOf(e.data, s.format), p)))
    else if e.kind == AUDIO_STOP then Connection(s.format, [], s.heard + [Pcm(s.audio)])
    else s
  }

  function Run(s: Connection, es: seq<Event>): Connection
    decreases |es|
  {
    if es == [] then s else Run(Step(s, es[0]), es[1..])
  }

  /** The conversion at audio-stop, segment by segment. */
  method Convert(segments: seq<Segment>) returns (pcm: seq<i16>)
    ensures pcm == Pcm(segments)
  {
    pcm := [];
    for i := 0 to |segments|
      invariant pcm + Pcm(segments[i..]) == Pcm(segments)
    {
      PcmStep(segments[i..]);
      assert segments[i..][1..] == segments[i + 1..];
      pcm := pcm + ToMono(segments[i].raw, segments[i].format, STT_RATE);
    }
    assert segments[|segments|..] == [];
    NoPcm();
  }

  /** The receiving side of one connection. */
  class Session {
    var format: Format
    var audio: seq<Segment>
    var heard: seq<seq<i16>>

    function State(): Connection
      reads this
    {
      Connection(format, audio, heard)
    }

    constructor ()
      ensures State() == START
    {
      format := STT;
      audio := [];
      heard := [];
    }

    method Handle(e: Event)
      modifies this
      ensures State() == Step(old(State()), e)
    {
      hide Pcm, FormatOf;
      if e.kind == AUDIO_START {
        format := FormatOf(e.data, STT);
        audio := [];
      } else if e.kind == AUDIO_CHUNK {
        var chunkFormat := FormatOf(e.data, format);
        if e.payload.Some? {
          var last := |audio| - 1;
          if last >= 0 && audio[last].format == chunkFormat {
            audio := audio[last := audio[last].(raw := audio[last].raw + e.payload.value)];
          } else {
            audio := audio + [Segment(chunkFormat, e.payload.value)];
          }
        }
      } else if e.kind == AUDIO_STOP {
        var segments := audio;
        audio := [];
        var pcm := Convert(segments);
        heard := heard + [pcm];
      }
    }

    /** The event loop of a connection. */
    method Serve(es: seq<Event>)
      modifies this
      ensures State() == Run(old(State()), es)
    {
      hide Step;
      for i := 0 to |es|
        invariant Run(State(), es[i..]) == Run(old(State()), es)
      {
        Handle(es[i]);
        assert es[i..][1..] == es[i + 1..];
      }
    }
  }

  lemma PcmStep(audio: seq<Segment>)
    requires audio != []
    ensures Pcm(audio) == ToMono(audio[0].raw, audio[0].format, STT_RATE) + Pcm(audio[1..])
  {
    hide ToMono;
  }

  lemma NoPcm()
    ensures Pcm([]) == []
  {
  }

  /** One byte of audio with its format. */
  datatype Labelled = Labelled(format: Format, b: byte)

  function Label(format: Format, raw: Bytes): (l: seq<Labelled>)
    ensures |l| == |raw|
    ensures forall i | 0 <= i < |raw| :: l[i] == Labelled(format, raw[i])
  {
    seq(|raw|, i requires 0 <= i < |raw| => Labelled(format, raw[i]))
  }

  /** The audio without any borders: each byte with its format. */
  function Labels(audio: seq<Segment>): seq<Labelled> {
    if audio == [] then [] else Label(audio[0].format, audio[0].raw) + Labels(audio[1..])
  }

  /** No empty segment, and neighbours differ in their format. */
  ghost predicate Canonical(audio: seq<Segment>) {
    && (forall i | 0 <= i < |audio| :: audio[i].raw != [])
    && (forall i | 0 <= i < |audio| - 1 :: audio[i].format != audio[i + 1].format)
  }

  lemma {:induction false} LabelsAppend(a: seq<Segment>, c: Segment)
    ensures Labels(a + [c]) == Labels(a) + Label(c.format, c.raw)
  {
    if a == [] {
      assert a + [c] == [c];
      assert Labels([c]) == Label(c.format, c.raw) + Labels([]);
    } else {
      assert (a + [c])[1..] == a[1..] + [c];
      LabelsAppend(a[1..], c);
    }
  }

  lemma AddChunkLabels(audio: seq<Segment>, c: Segment)
    requires Canonical(audio) && c.raw != []
    ensures Canonical(AddChunk(audio, c))
    ensures Labels(AddChunk(audio, c)) == Labels(audio) + Label(c.format, c.raw)
  {
    hide Labels;
    LabelsAppend(audio, c);
    if audio != [] && audio[|audio| - 1].format == c.format {
      var init, last := audio[..|audio| - 1], audio[|audio| - 1];
      LabelsAppend(init, last);
      LabelsAppend(init, Segment(c.format, last.raw + c.raw));
      assert audio == init + [last];
      assert Label(c.format, last.raw + c.raw) == Label(c.format, last.raw) + Label(c.format, c.raw);
    }
  }

  lemma {:induction false} AddChunksLabels(audio: seq<Segment>, cs: seq<Segment>)
    requires Canonical(audio) && forall i | 0 <= i < |cs| :: cs[i].raw != []
    ensures Canonical(AddChunks(audio, cs))
    ensures Labels(AddChunks(audio, cs)) == Labels(audio) + Labels(cs)
    decreases |cs|
  {
    if cs == [] {
      NoLabels();
    } else {
      hide Labels, Label, AddChunk, Canonical;
      var init, last := cs[..|cs| - 1], cs[|cs| - 1];
      AddChunksLabels(audio, init);
      AddChunkLabels(AddChunks(audio, init), last);
      LabelsAppend(init, last);
      assert cs == init + [last];
    }
  }

  /** Where the first run of a format ends. */
  lemma FirstRun(a: seq<Segment>)
    requires a != [] && Canonical(a)
    ensures var n := |a[0].raw|;
            && 0 < n <= |Labels(a)|
            && Labels(a)[..n] == Label(a[0].format, a[0].raw) && Labels(a)[n..] == Labels(a[1..])
            && Labels(a)[0].format == a[0].format
            && (forall k | 0 <= k < n :: Labels(a)[k].format == a[0].format)
            && (n < |Labels(a)| ==> Labels(a)[n].format != a[0].format)
  {
    hide Label;
    var n := |a[0].raw|;
    assert Labels(a) == Label(a[0].format, a[0].raw) + Labels(a[1..]);
    if |a| > 1 {
      assert Labels(a[1..])[0] == Label(a[1].format, a[1].raw)[0];
    }
  }

  /** The bytes with their formats determine the canonical segments. */
  lemma {:induction false} CanonicalIsUnique(a: seq<Segment>, b: seq<Segment>)
    requires Canonical(a) && Canonical(b) && Labels(a) == Labels(b)
    ensures a == b
    decreases |a|
  {
    hide Labels, Label;
    NoLabels();
    if a != [] {
      FirstRun(a);
    }
    if b != [] {
      FirstRun(b);
    }
    if a != [] {
      SameLabel(a[0], b[0]);
      CanonicalIsUnique(a[1..], b[1..]);
    }
  }

  lemma NoLabels()
    ensures Labels([]) == []
  {
  }

  lemma SameLabel(a: Segment, b: Segment)
    requires a.raw != [] && Label(a.format, a.raw) == Label(b.format, b.raw)
    ensures a == b
  {
    var l := Label(a.format, a.raw);
    assert l[0] == Labelled(b.format, b.raw[0]);
    forall i | 0 <= i < |a.raw|
      ensures a.raw[i] == b.raw[i]
    {
      assert l[i] == Labelled(a.format, a.raw[i]) == Labelled(b.format, b.raw[i]);
    }
  }

  /** Audio chunks as the reader delivers them: a present payload is not empty. */
  ghost predicate Chunks(es: seq<Event>) {
    forall i | 0 <= i < |es| :: es[i].kind == AUDIO_CHUNK && es[i].payload != Some([])
  }

  /** The audio of chunk events. */
  function ChunksOf(es: seq<Event>, format: Format): seq<Segment> {
    if es == [] then []
    else
      var init, last := ChunksOf(es[..|es| - 1], format), es[|es| - 1];
      match last.payload
      case None => init
      case Some(p) => init + [Segment(FormatOf(last.data, format), p)]
  }

  lemma {:induction false} RunAppend(s: Connection, es: seq<Event>, more: seq<Event>)
    ensures Run(s, es + more) == Run(Run(s, es), more)
    decreases |es|
  {
    hide Step;
    if es == [] {
      assert es + more == more;
    } else {
      assert (es + more)[1..] == es[1..] + more;
      RunAppend(Step(s, es[0]), es[1..], more);
    }
  }

  lemma RunOne(s: Connection, e: Event)
    ensures Run(s, [e]) == Step(s, e)
  {
    hide Step;
    assert Run(s, [e]) == Run(Step(s, e), []);
  }

  lemma {:induction false} RunsChunks(s: Connection, es: seq<Event>)
    requires Chunks(es)
    ensures Run(s, es) == s.(audio := AddChunks(s.audio, ChunksOf(es, s.format)))
    ensures forall i | 0 <= i < |ChunksOf(es, s.format)| :: ChunksOf(es, s.format)[i].raw != []
    decreases |es|
  {
    if es != [] {
      hide Run, AddChunks, AddChunk, FormatOf;
      var init, last := es[..|es| - 1], es[|es| - 1];
      assert es == init + [last];
      RunsChunks(s, init);
      RunAppend(s, init, [last]);
      RunOne(Run(s, init), last);
      if last.payload.Some? {
        AddsLast(s, init, last);
      }
    } else {
      NoChunks(s);
    }
  }

  lemma NoChunks(s: Connection)
    ensures Run(s, []) == s && AddChunks(s.audio, []) == s.audio
  {
  }

  lemma AddsLast(s: Connection, init: seq<Event>, e: Event)
    requires e.payload.Some?
    ensures AddChunks(s.audio, ChunksOf(init + [e], s.format))
         == AddChunk(AddChunks(s.audio, ChunksOf(init, s.format)),
                     Segment(FormatOf(e.data, s.format), e.payload.value))
  {
    hide FormatOf, AddChunk;
    assert (init + [e])[..|init|] == init;
    var cs := ChunksOf(init, s.format);
    var c := Segment(FormatOf(e.data, s.format), e.payload.value);
    assert ChunksOf(init + [e], s.format) == cs + [c];
    assert (cs + [c])[..|cs|] == cs;
  }

  /** The borders of chunks leave no trace: two chunk sequences with the same bytes and formats
      take the connection to the same state. */
  lemma {:induction false} ChunkBordersDoNotMatter(s: Connection, es: seq<Event>, other: seq<Event>)
    requires Canonical(s.audio) && Chunks(es) && Chunks(other)
    requires Labels(ChunksOf(es, s.format)) == Labels(ChunksOf(other, s.format))
    ensures Run(s, es) == Run(s, other)
  {
    RunsChunks(s, es);
    RunsChunks(s, other);
    AddChunksLabels(s.audio, ChunksOf(es, s.format));
    AddChunksLabels(s.audio, ChunksOf(other, s.format));
    CanonicalIsUnique(Run(s, es).audio, Run(s, other).audio);
  }

  lemma StepKeepsCanonical(s: Connection, e: Event)
    requires Canonical(s.audio) && e.payload != Some([])
    ensures Canonical(Step(s, e).audio)
  {
    hide FormatOf, Pcm;
    if e.kind == AUDIO_CHUNK && e.payload.Some? {
      AddChunkLabels(s.audio, Segment(FormatOf(e.data, s.format), e.payload.value));
    }
  }

  lemma {:induction false} RunKeepsCanonical(s: Connection, es: seq<Event>)
    requires Canonical(s.audio) && forall i | 0 <= i < |es| :: es[i].payload != Some([])
    ensures Canonical(Run(s, es).audio)
    decreases |es|
  {
    if es != [] {
      StepKeepsCanonical(s, es[0]);
      RunKeepsCanonical(Step(s, es[0]), es[1..]);
    }
  }

  /** In a whole session, a stretch of chunks can be cut in any other way: the recognizer hears
      the same samples at every audio-stop. */
  lemma NoSeams(before: seq<Event>, es: seq<Event>, other: seq<Event>, after: seq<Event>)
    requires forall i | 0 <= i < |before| :: before[i].payload != Some([])
    requires Chunks(es) && Chunks(other)
    requires var format := Run(START, before).format;
             Labels(ChunksOf(es, format)) == Labels(ChunksOf(other, format))
    ensures Run(START, before + es + after).heard == Run(START, before + other + after).heard
  {
    hide Run;
    var s := Run(START, before);
    RunKeepsCanonical(START, before);
    ChunkBordersDoNotMatter(s, es, other);
    RunAppend(START, before, es);
    RunAppend(START, before + es, after);
    RunAppend(START, before, other);
    RunAppend(START, before + other, after);
  }
}
