/**
 RIFF/WAVE files (src/audio.rs; Multimedia Programming Interface and Data Specifications
 1.0, chapters 2 and 3): the writer, the chunk walk of the reader, and why the walk returns
 the format and the data of every well-formed file.
 */
module Wav {
  import opened Common
  import opened Audio

  datatype Error = NotRiff | FmtTruncated | DataBeforeFmt | NoData

  datatype Wave = Wave(format: Format, data: Bytes)

  const RIFF: Bytes := [0x52, 0x49, 0x46, 0x46]
  const WAVE: Bytes := [0x57, 0x41, 0x56, 0x45]
  const FMT: Bytes := [0x66, 0x6d, 0x74, 0x20]
  const DATA: Bytes := [0x64, 0x61, 0x74, 0x61]
  const STREAMED := 0xffff_ffff

  /** The fields of a fmt chunk that the reader uses. */
  function FmtFormat(f: Bytes): Format
    requires |f| >= 16
  {
    Format(FromLE(f[4..8]), FromLE(f[14..16]) / 8, FromLE(f[2..4]))
  }

  /** The end of a data chunk; size 0 and 0xFFFFFFFF stand for "up to the end of the file". */
  function DataEnd(len: nat, body: nat, size: nat): (end: nat)
    requires body <= len
    ensures body <= end <= len
  {
    if size == 0 || size == STREAMED then len else Min(body + size, len)
  }

  /** The chunk walk from `pos`, with the format seen so far. */
  function Walk(f: Bytes, pos: nat, format: Option<Format>): Result<Wave, Error>
    decreases |f| - pos
  {
    if pos + 8 > |f| then Err(NoData)
    else
      var id, size, body := f[pos..pos + 4], FromLE(f[pos + 4..pos + 8]), pos + 8;
      if id == FMT then
        if body + 16 > |f| then Err(FmtTruncated)
        else Walk(f, body + size + size % 2, Some(FmtFormat(f[body..body + 16])))
      else if id == DATA then
        match format
        case None => Err(DataBeforeFmt)
        case Some(fmt) => Ok(Wave(fmt, f[body..DataEnd(|f|, body, size)]))
      else Walk(f, body + size + size % 2, format)
  }

  function ParseOf(f: Bytes): Result<Wave, Error> {
    if |f| < 12 || f[..4] != RIFF || f[8..12] != WAVE then Err(NotRiff) else Walk(f, 12, None)
  }

  method ParseWav(f: Bytes) returns (r: Result<Wave, Error>)
    ensures r == ParseOf(f)
  {
    hide FmtFormat, FromLE;
    if |f| < 12 || f[..4] != RIFF || f[8..12] != WAVE {
      return Err(NotRiff);
    }
    var pos := 12;
    var format: Option<Format> := None;
    while pos + 8 <= |f|
      invariant 12 <= pos
      invariant Walk(f, 12, None) == Walk(f, pos, format)
      decreases |f| - pos
    {
      var id := f[pos..pos + 4];
      var size := FromLE(f[pos + 4..pos + 8]);
      var body := pos + 8;
      if id == FMT {
        if body + 16 > |f| {
          return Err(FmtTruncated);
        }
        format := Some(FmtFormat(f[body..body + 16]));
      } else if id == DATA {
        if format.None? {
          return Err(DataBeforeFmt);
        }
        return Ok(Wave(format.value, f[body..DataEnd(|f|, body, size)]));
      }
      pos := body + size + size % 2;
    }
    return Err(NoData);
  }

  datatype Chunk = Chunk(id: Bytes, body: Bytes)

  /** Any chunk but a data chunk; a fmt chunk has its 16 fixed bytes. */
  ghost predicate BeforeData(c: Chunk) {
    |c.id| == 4 && c.id != DATA && |c.body| < U32 && (c.id == FMT ==> |c.body| >= 16)
  }

  function Padding(size: nat): (p: Bytes)
    ensures |p| == size % 2
  {
    if size % 2 == 1 then [0] else []
  }

  function EncodeChunk(c: Chunk): Bytes {
    c.id + (ToLE(4, |c.body|) + (c.body + Padding(|c.body|)))
  }

  function EncodeChunks(cs: seq<Chunk>): Bytes {
    if cs == [] then [] else EncodeChunk(cs[0]) + EncodeChunks(cs[1..])
  }

  /** The format after the chunks `cs`: the last fmt chunk decides. */
  function LastFormat(cs: seq<Chunk>, before: Option<Format>): Option<Format>
    requires forall i | 0 <= i < |cs| :: BeforeData(cs[i])
  {
    if cs == [] then before
    else
      var last := cs[|cs| - 1];
      assert BeforeData(last);
      if last.id == FMT then Some(FmtFormat(last.body)) else LastFormat(cs[..|cs| - 1], before)
  }

  lemma {:induction false} LastFormatFromFront(cs: seq<Chunk>, before: Option<Format>)
    requires cs != [] && forall i | 0 <= i < |cs| :: BeforeData(cs[i])
    ensures LastFormat(cs, before) ==
            LastFormat(cs[1..], if cs[0].id == FMT then Some(FmtFormat(cs[0].body)) else before)
  {
    if |cs| > 1 {
      var init := cs[..|cs| - 1];
      LastFormatFromFront(init, before);
      assert init[1..] == cs[1..][..|cs| - 2];
    }
  }

  lemma ReadsSize(f: Bytes, pos: nat, size: nat)
    requires HasAt(f, pos, ToLE(4, size)) && size < U32
    ensures FromLE(f[pos..pos + 4]) == size
  {
    Pow256Values();
    LERoundTrip(4, size);
  }

  lemma FormatOfPrefix(body: Bytes)
    requires |body| >= 16
    ensures FmtFormat(body[..16]) == FmtFormat(body)
  {
    assert body[..16][4..8] == body[4..8];
    assert body[..16][14..16] == body[14..16];
    assert body[..16][2..4] == body[2..4];
  }

  lemma ChunkFields(f: Bytes, pos: nat, c: Chunk)
    requires |c.id| == 4 && |c.body| < U32 && HasAt(f, pos, EncodeChunk(c))
    ensures |EncodeChunk(c)| == 8 + |c.body| + |c.body| % 2 && pos + |EncodeChunk(c)| <= |f|
    ensures f[pos..pos + 4] == c.id && FromLE(f[pos + 4..pos + 8]) == |c.body|
    ensures |c.body| >= 16 ==> f[pos + 8..pos + 24] == c.body[..16]
  {
    var size := ToLE(4, |c.body|);
    HasAtSplit(f, pos, c.id, size + (c.body + Padding(|c.body|)));
    HasAtSplit(f, pos + 4, size, c.body + Padding(|c.body|));
    HasAtSplit(f, pos + 8, c.body, Padding(|c.body|));
    ReadsSize(f, pos + 4, |c.body|);
  }

  /** The walk steps over one chunk and its padding. */
  lemma WalksChunk(f: Bytes, pos: nat, c: Chunk, format: Option<Format>)
    requires BeforeData(c) && HasAt(f, pos, EncodeChunk(c))
    ensures Walk(f, pos, format) ==
            Walk(f, pos + |EncodeChunk(c)|, if c.id == FMT then Some(FmtFormat(c.body)) else format)
  {
    hide FmtFormat, EncodeChunk, FromLE, HasAt;
    ChunkFields(f, pos, c);
    if c.id == FMT {
      FormatOfPrefix(c.body);
    }
  }

  lemma {:induction false} WalksChunks(f: Bytes, pos: nat, cs: seq<Chunk>, format: Option<Format>)
    requires forall i | 0 <= i < |cs| :: BeforeData(cs[i])
    requires HasAt(f, pos, EncodeChunks(cs))
    ensures Walk(f, pos, format) == Walk(f, pos + |EncodeChunks(cs)|, LastFormat(cs, format))
    decreases |cs|
  {
    hide EncodeChunk, FmtFormat, Walk, HasAt;
    if cs != [] {
      var c := cs[0];
      HasAtSplit(f, pos, EncodeChunk(c), EncodeChunks(cs[1..]));
      WalksChunk(f, pos, c, format);
      LastFormatFromFront(cs, format);
      WalksChunks(f, pos + |EncodeChunk(c)|, cs[1..], if c.id == FMT then Some(FmtFormat(c.body)) else format);
    }
  }

  /** A RIFF file: its size field is never read; chunks `cs`, then a data chunk that declares
      `size` bytes and is followed by `rest` (the data, and what comes after it). */
  function RiffFile(riffSize: nat, cs: seq<Chunk>, size: nat, rest: Bytes): Bytes {
    (RIFF + (ToLE(4, riffSize) + WAVE)) + (EncodeChunks(cs) + (DATA + (ToLE(4, size) + rest)))
  }

  /** What the reader must return for such a file. */
  function Content(cs: seq<Chunk>, size: nat, rest: Bytes): Result<Wave, Error>
    requires forall i | 0 <= i < |cs| :: BeforeData(cs[i])
  {
    match LastFormat(cs, None)
    case None => Err(DataBeforeFmt)
    case Some(format) =>
      Ok(Wave(format, if size == 0 || size == STREAMED then rest else rest[..Min(size, |rest|)]))
  }

  lemma ReadsRiffHead(f: Bytes, riffSize: nat)
    requires HasAt(f, 0, RIFF + (ToLE(4, riffSize) + WAVE))
    ensures ParseOf(f) == Walk(f, 12, None)
  {
    hide Walk, ToLE;
    HasAtSplit(f, 0, RIFF, ToLE(4, riffSize) + WAVE);
    HasAtSplit(f, 4, ToLE(4, riffSize), WAVE);
  }

  /** The chunk walk finds the format and exactly the data, whatever chunks stand around them. */
  lemma ParsesRiffFile(riffSize: nat, cs: seq<Chunk>, size: nat, rest: Bytes)
    requires size < U32
    requires forall i | 0 <= i < |cs| :: BeforeData(cs[i])
    ensures ParseOf(RiffFile(riffSize, cs, size, rest)) == Content(cs, size, rest)
  {
    hide EncodeChunks, FmtFormat, Walk, ToLE, ParseOf;
    var f := RiffFile(riffSize, cs, size, rest);
    var head, body := RIFF + (ToLE(4, riffSize) + WAVE), EncodeChunks(cs);
    var tail := DATA + (ToLE(4, size) + rest);
    var pos := 12 + |body|;
    HasAtSplit(f, 0, head, body + tail);
    ReadsRiffHead(f, riffSize);
    HasAtSplit(f, 12, body, tail);
    HasAtSplit(f, pos, DATA, ToLE(4, size) + rest);
    HasAtSplit(f, pos + 4, ToLE(4, size), rest);
    WalksChunks(f, 12, cs, None);
    DataChunk(f, pos, LastFormat(cs, None), size, rest);
  }

  lemma DataChunk(f: Bytes, pos: nat, format: Option<Format>, size: nat, rest: Bytes)
    requires HasAt(f, pos, DATA) && HasAt(f, pos + 4, ToLE(4, size)) && size < U32
    requires HasAt(f, pos + 8, rest) && |f| == pos + 8 + |rest|
    ensures Walk(f, pos, format) ==
            match format
            case None => Err(DataBeforeFmt)
            case Some(fmt) =>
              Ok(Wave(fmt, if size == 0 || size == STREAMED then rest else rest[..Min(size, |rest|)]))
  {
    ReadsSize(f, pos + 4, size);
    assert f[pos + 8..] == rest;
    assert f[pos + 8..DataEnd(|f|, pos + 8, size)] == rest[..DataEnd(|f|, pos + 8, size) - (pos + 8)];
  }

  /** The 16 bytes of the fmt chunk of 16-bit PCM; the products wrap like the machine integers. */
  function FmtBody(rate: nat, channels: nat): (b: Bytes)
    ensures |b| == 16
  {
    ToLE(2, 1) + (ToLE(2, channels) + (ToLE(4, rate) + (ToLE(4, rate * channels * 2)
      + (ToLE(2, channels * 2) + ToLE(2, 16)))))
  }

  /** The declared size of the data: the largest number if the length does not fit. */
  function DataLength(pcm: seq<i16>): nat {
    if 2 * |pcm| < U32 then 2 * |pcm| else STREAMED
  }

  function WavFile(pcm: seq<i16>, rate: nat, channels: nat): Bytes {
    RiffFile(36 + DataLength(pcm), [Chunk(FMT, FmtBody(rate, channels))], DataLength(pcm), PcmBytes(pcm))
  }

  lemma {:induction false} PcmBytesAppend(pcm: seq<i16>, s: i16)
    ensures PcmBytes(pcm + [s]) == PcmBytes(pcm) + ToLE(2, s % U16)
  {
    if pcm == [] {
      assert pcm + [s] == [s];
      assert PcmBytes([s]) == ToLE(2, s % U16) + PcmBytes([]);
    } else {
      assert (pcm + [s])[1..] == pcm[1..] + [s];
      PcmBytesAppend(pcm[1..], s);
    }
  }

  lemma WavFileIs(pcm: seq<i16>, rate: nat, channels: nat)
    ensures WavFile(pcm, rate, channels)
         == RIFF + ToLE(4, 36 + DataLength(pcm)) + WAVE + FMT + ToLE(4, 16) + ToLE(2, 1)
            + ToLE(2, channels) + ToLE(4, rate) + ToLE(4, rate * channels * 2)
            + ToLE(2, channels * 2) + ToLE(2, 16) + DATA + ToLE(4, DataLength(pcm)) + PcmBytes(pcm)
  {
    hide ToLE, PcmBytes, FmtBody;
    var c := Chunk(FMT, FmtBody(rate, channels));
    assert EncodeChunks([c]) == EncodeChunk(c) + EncodeChunks([]);
    FmtBodyIs(rate, channels);
  }

  lemma FmtBodyIs(rate: nat, channels: nat)
    ensures FmtBody(rate, channels) == ToLE(2, 1) + ToLE(2, channels) + ToLE(4, rate)
      + ToLE(4, rate * channels * 2) + ToLE(2, channels * 2) + ToLE(2, 16)
  {
  }

  method WavBytes(pcm: seq<i16>, rate: nat, channels: nat) returns (out: Bytes)
    requires rate < U32 && channels < U16
    ensures out == WavFile(pcm, rate, channels)
  {
    hide WavFile, ToLE;
    var dataLen := DataLength(pcm);
    out := RIFF;
    out := out + ToLE(4, 36 + dataLen);
    out := out + WAVE + FMT;
    out := out + ToLE(4, 16);
    out := out + ToLE(2, 1);
    out := out + ToLE(2, channels);
    out := out + ToLE(4, rate);
    out := out + ToLE(4, rate * channels * 2);
    out := out + ToLE(2, channels * 2);
    out := out + ToLE(2, 16);
    out := out + DATA;
    out := out + ToLE(4, dataLen);
    ghost var header := out;
    for i := 0 to |pcm|
      invariant out == header + PcmBytes(pcm[..i])
    {
      PcmBytesAppend(pcm[..i], pcm[i]);
      assert pcm[..i + 1] == pcm[..i] + [pcm[i]];
      out := out + ToLE(2, pcm[i] % U16);
    }
    assert pcm[..|pcm|] == pcm;
    WavFileIs(pcm, rate, channels);
  }

  lemma FormatOfFmtBody(rate: nat, channels: nat)
    requires rate < U32 && channels < U16
    ensures FmtFormat(FmtBody(rate, channels)) == Format(rate, 2, channels)
  {
    var b := FmtBody(rate, channels);
    assert b[2..4] == ToLE(2, channels);
    assert b[4..8] == ToLE(4, rate);
    assert b[14..16] == ToLE(2, 16);
    Pow256Values();
    LERoundTrip(2, channels);
    LERoundTrip(4, rate);
    LERoundTrip(2, 16);
  }

  /** The reader inverts the writer for all samples, also for more than a size field can hold. */
  lemma WavRoundTrip(pcm: seq<i16>, rate: nat, channels: nat)
    requires rate < U32 && channels < U16
    ensures ParseOf(WavFile(pcm, rate, channels)) == Ok(Wave(Format(rate, 2, channels), PcmBytes(pcm)))
  {
    hide FmtFormat, FmtBody, ParseOf, PcmBytes, RiffFile;
    var c := Chunk(FMT, FmtBody(rate, channels));
    assert BeforeData(c);
    FormatOfFmtBody(rate, channels);
    ParsesRiffFile(36 + DataLength(pcm), [c], DataLength(pcm), PcmBytes(pcm));
    assert LastFormat([c], None) == Some(FmtFormat(c.body));
    assert PcmBytes(pcm)[..|PcmBytes(pcm)|] == PcmBytes(pcm);
  }

  // Other files

  /** The fixed fields of a fmt chunk. */
  function FmtFields(tag: nat, f: Format, bits: nat, byteRate: nat, align: nat): (b: Bytes)
    ensures |b| == 16
  {
    ToLE(2, tag) + ToLE(2, f.channels) + ToLE(4, f.rate) + ToLE(4, byteRate) + ToLE(2, align) + ToLE(2, bits)
  }

  /** The reader takes rate, channels and sample width from their fields, for every width. */
  lemma ReadsFmtFields(tag: nat, f: Format, bits: nat, byteRate: nat, align: nat)
    requires f.channels < U16 && f.rate < U32 && bits < U16 && bits / 8 == f.width
    ensures FmtFormat(FmtFields(tag, f, bits, byteRate, align)) == f
  {
    var b := FmtFields(tag, f, bits, byteRate, align);
    Pow256Values();
    assert b[2..4] == ToLE(2, f.channels) && b[4..8] == ToLE(4, f.rate) && b[14..16] == ToLE(2, bits);
    LERoundTrip(2, f.channels);
    LERoundTrip(4, f.rate);
    LERoundTrip(2, bits);
  }

  /** Only RIFF/WAVE files are read. */
  lemma OnlyRiffFiles(f: Bytes)
    ensures ParseOf(f) == Err(NotRiff) <==> |f| < 12 || f[..4] != RIFF || f[8..12] != WAVE
  {
    hide Walk;
    WalkErrors(f, 12, None);
  }

  lemma {:induction false} WalkErrors(f: Bytes, pos: nat, format: Option<Format>)
    ensures Walk(f, pos, format) != Err(NotRiff)
    decreases |f| - pos
  {
    if pos + 8 <= |f| {
      var size := FromLE(f[pos + 4..pos + 8]);
      if f[pos..pos + 4] == FMT {
        if pos + 24 <= |f| {
          WalkErrors(f, pos + 8 + size + size % 2, Some(FmtFormat(f[pos + 8..pos + 24])));
        }
      } else if f[pos..pos + 4] != DATA {
        WalkErrors(f, pos + 8 + size + size % 2, format);
      }
    }
  }

  /** A file that ends inside a fmt chunk or without a data chunk is refused. */
  lemma EndsTooEarly(riffSize: nat, cs: seq<Chunk>, size: nat, cut: Bytes)
    requires (forall i | 0 <= i < |cs| :: BeforeData(cs[i])) && size < U32
    requires |cut| < 16
    ensures var head := RIFF + (ToLE(4, riffSize) + WAVE);
            && ParseOf(head + EncodeChunks(cs)) == Err(NoData)
            && ParseOf(head + (EncodeChunks(cs) + (FMT + (ToLE(4, size) + cut)))) == Err(FmtTruncated)
  {
    hide EncodeChunks, FmtFormat, Walk, ToLE, ParseOf, FromLE;
    var head, body := RIFF + (ToLE(4, riffSize) + WAVE), EncodeChunks(cs);
    var end := 12 + |body|;
    var f := head + body;
    assert f == head + (body + []);
    HasAtSplit(f, 0, head, body + []);
    HasAtSplit(f, 12, body, []);
    ReadsRiffHead(f, riffSize);
    WalksChunks(f, 12, cs, None);
    WalkStops(f, end, LastFormat(cs, None));
    var tail := FMT + (ToLE(4, size) + cut);
    var g := head + (body + tail);
    HasAtSplit(g, 0, head, body + tail);
    HasAtSplit(g, 12, body, tail);
    ReadsRiffHead(g, riffSize);
    WalksChunks(g, 12, cs, None);
    HasAtSplit(g, end, FMT, ToLE(4, size) + cut);
    WalkCut(g, end, LastFormat(cs, None));
  }

  lemma WalkStops(f: Bytes, pos: nat, format: Option<Format>)
    requires pos + 8 > |f|
    ensures Walk(f, pos, format) == Err(NoData)
  {
  }

  lemma WalkCut(f: Bytes, pos: nat, format: Option<Format>)
    requires HasAt(f, pos, FMT) && pos + 8 <= |f| < pos + 24
    ensures Walk(f, pos, format) == Err(FmtTruncated)
  {
    assert f[pos..pos + 4] == FMT;
  }
}
