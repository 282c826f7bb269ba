/** PCM conversion (src/audio.rs). Samples are exact integers. */
module Audio {
  import opened Common

  datatype Format = Format(rate: nat, width: nat, channels: nat)

  const STT := Format(16_000, 2, 1)

  type i16 = x: int | -0x8000 <= x < 0x8000

  /** The two's complement value of little-endian bytes. */
  function SignedLE(b: Bytes): int {
    if FromLE(b) < Pow256(|b|) / 2 then FromLE(b) else FromLE(b) - Pow256(|b|)
  }

  /** One sample of any width, scaled to 16 bits. The shifts of the source round down. */
  function DecodeSample(b: Bytes): int {
    match |b|
    case 1 => (b[0] - 128) * 0x100
    case 2 => SignedLE(b)
    case 3 => SignedLE([0] + b) / U16
    case 4 => SignedLE(b) / U16
    case _ => 0
  }

  lemma Signed16Range(b: Bytes)
    requires |b| == 2
    ensures -0x8000 <= SignedLE(b) < 0x8000
  {
    FromLEBound(b);
    assert Pow256(2) == U16;
  }

  lemma {:induction false} FromLESplit(a: Bytes, b: Bytes)
    ensures FromLE(a + b) == FromLE(a) + Pow256(|a|) * FromLE(b)
  {
    if a == [] {
      assert a + b == b;
    } else {
      assert (a + b)[1..] == a[1..] + b;
      FromLESplit(a[1..], b);
    }
  }

  /** Dropping the low 16 bits of a 32-bit sample leaves its two high bytes. */
  lemma ShiftKeepsHighBytes(b: Bytes)
    requires |b| == 4
    ensures SignedLE(b) / U16 == SignedLE(b[2..])
  {
    FromLESplit(b[..2], b[2..]);
    assert b == b[..2] + b[2..];
    FromLEBound(b[..2]);
    FromLEBound(b[2..]);
    Pow256Values();
    var low, high := FromLE(b[..2]), FromLE(b[2..]);
    assert FromLE(b) == low + U16 * high;
    assert SignedLE(b) == low + U16 * SignedLE(b[2..]);
  }

  /** Wide samples keep their two most significant bytes, and every sample fits 16 bits. */
  lemma {:induction false} SampleFits(b: Bytes)
    ensures -0x8000 <= DecodeSample(b) < 0x8000
    ensures |b| in {3, 4} ==> DecodeSample(b) == SignedLE(b[|b| - 2..])
  {
    if |b| == 2 {
      Signed16Range(b);
    } else if |b| == 3 {
      ShiftKeepsHighBytes([0] + b);
      assert ([0] + b)[2..] == b[1..];
      Signed16Range(b[1..]);
    } else if |b| == 4 {
      ShiftKeepsHighBytes(b);
      Signed16Range(b[2..]);
    }
  }

  /** The sum of the first `n` samples of `frame`. */
  function PartialSum(frame: Bytes, width: nat, n: nat): int
    requires n * width <= |frame|
  {
    if n == 0 then 0
    else
      assert (n - 1) * width + width == n * width;
      PartialSum(frame, width, n - 1) + DecodeSample(frame[(n - 1) * width..n * width])
  }

  /** Rust's division: it rounds toward zero. */
  function TruncDiv(a: int, b: int): int
    requires b > 0
  {
    if a >= 0 then a / b else -(-a / b)
  }

  lemma {:induction false} SumRange(frame: Bytes, width: nat, n: nat)
    requires n * width <= |frame|
    ensures -0x8000 * n <= PartialSum(frame, width, n) <= 0x7fff * n
  {
    if n > 0 {
      assert (n - 1) * width + width == n * width;
      SumRange(frame, width, n - 1);
      SampleFits(frame[(n - 1) * width..n * width]);
    }
  }

  lemma DivAtMost(n: nat, d: nat, hi: nat)
    requires d > 0 && n <= hi * d
    ensures n / d <= hi
  {
    var q := n / d;
    assert (q - hi) * d <= 0;
    ProductAtLeast(q - hi, d);
  }

  lemma AverageRange(sum: int, channels: int)
    requires channels > 0 && -0x8000 * channels <= sum <= 0x7fff * channels
    ensures -0x8000 <= TruncDiv(sum, channels) <= 0x7fff
  {
    if sum < 0 {
      DivAtMost(-sum, channels, 0x8000);
    } else {
      DivAtMost(sum, channels, 0x7fff);
    }
  }

  /** The mean of the channels of one frame. */
  function FrameValue(frame: Bytes, width: nat, channels: nat): int
    requires channels > 0 && |frame| == channels * width
  {
    TruncDiv(PartialSum(frame, width, channels), channels)
  }

  /** No channel count of a u16 takes the running sum out of an i32 or the mean out of an i16. */
  lemma FrameFits(frame: Bytes, width: nat, channels: nat, n: nat)
    requires 0 < channels < U16 && |frame| == channels * width && n <= channels
    requires n * width <= |frame|
    ensures -0x8000_0000 <= PartialSum(frame, width, n) < 0x8000_0000
    ensures -0x8000 <= FrameValue(frame, width, channels) < 0x8000
  {
    SumRange(frame, width, n);
    SumRange(frame, width, channels);
    AverageRange(PartialSum(frame, width, channels), channels);
  }

  /** The mono samples of the complete frames of `data`. */
  function Mono(data: Bytes, width: nat, channels: nat): seq<int>
    requires width > 0 && channels > 0
    decreases |data|
  {
    var frame := channels * width;
    assert frame > 0;
    if |data| < frame then []
    else [FrameValue(data[..frame], width, channels)] + Mono(data[frame..], width, channels)
  }

  lemma {:induction false} MonoFits(data: Bytes, width: nat, channels: nat)
    requires width > 0 && 0 < channels < U16
    ensures forall i | 0 <= i < |Mono(data, width, channels)| ::
              -0x8000 <= Mono(data, width, channels)[i] < 0x8000
    decreases |data|
  {
    var frame := channels * width;
    assert frame > 0;
    if frame <= |data| {
      FrameFits(data[..frame], width, channels, channels);
      MonoFits(data[frame..], width, channels);
    }
  }

  function Clamp(v: int): (r: i16)
    ensures -0x8000 <= v < 0x8000 ==> r == v
  {
    if v < -0x8000 then -0x8000 else if v > 0x7fff then 0x7fff else v
  }

  function ClampAll(s: seq<int>): (r: seq<i16>)
    ensures |r| == |s|
    ensures forall i | 0 <= i < |s| :: r[i] == Clamp(s[i])
  {
    seq(|s|, i requires 0 <= i < |s| => Clamp(s[i]))
  }

  /** `n / d` rounded to the nearest integer, halves away from zero. */
  function RoundDiv(n: int, d: int): int
    requires d > 0
  {
    if n >= 0 then (2 * n + d) / (2 * d) else -((-2 * n + d) / (2 * d))
  }

  /** Sample `i` of the linear interpolation from rate `from` to rate `to`. */
  function Interpolated(mono: seq<int>, from: nat, to: nat, i: nat): int
    requires mono != [] && to > 0
  {
    var last := |mono| - 1;
    var idx, rest := i * from / to, i * from % to;
    var a, b := mono[Min(idx, last)], mono[Min(idx + 1, last)];
    RoundDiv(a * to + (b - a) * rest, to)
  }

  function ToMono(data: Bytes, from: Format, rate: nat): seq<i16>
    requires rate > 0
  {
    var mono := Mono(data, Max(from.width, 1), Max(from.channels, 1));
    if from.rate == rate || from.rate == 0 || mono == [] then ClampAll(mono)
    else
      ClampAll(seq(|mono| * rate / from.rate, i requires i >= 0 => Interpolated(mono, from.rate, rate, i)))
  }

  lemma RoundDivBetween(lo: int, hi: int, n: int, d: int)
    requires d > 0 && lo * d <= n <= hi * d
    ensures lo <= RoundDiv(n, d) <= hi
  {
    var m := if n >= 0 then 2 * n + d else -2 * n + d;
    var q := m / (2 * d);
    assert q * (2 * d) <= m < (q + 1) * (2 * d);
    if n >= 0 {
      assert (q - hi) * (2 * d) <= d;
      assert (lo - q - 1) * (2 * d) < 0;
      LessThanOne(q - hi, d);
      Negative(lo - q - 1, 2 * d);
    } else {
      assert (q + lo) * (2 * d) <= d;
      assert (-hi - q - 1) * (2 * d) < 0;
      LessThanOne(q + lo, d);
      Negative(-hi - q - 1, 2 * d);
    }
  }

  lemma LessThanOne(x: int, d: int)
    requires d > 0 && x * (2 * d) <= d
    ensures x <= 0
  {
    ProductAtLeast(x, 2 * d);
  }

  lemma Negative(x: int, d: int)
    requires d > 0 && x * d < 0
    ensures x < 0
  {
  }

  /** An interpolated sample stays within the range of the input. */
  lemma InterpolatedBetween(mono: seq<int>, from: nat, to: nat, i: nat, lo: int, hi: int)
    requires mono != [] && to > 0
    requires forall k | 0 <= k < |mono| :: lo <= mono[k] <= hi
    ensures lo <= Interpolated(mono, from, to, i) <= hi
  {
    var last := |mono| - 1;
    var idx, rest := i * from / to, i * from % to;
    var a, b := mono[Min(idx, last)], mono[Min(idx + 1, last)];
    assert a * to + (b - a) * rest == a * (to - rest) + b * rest;
    WeightedMean(a, b, to - rest, rest, lo, hi);
    RoundDivBetween(lo, hi, a * to + (b - a) * rest, to);
  }

  lemma WeightedMean(a: int, b: int, u: nat, v: nat, lo: int, hi: int)
    requires lo <= a <= hi && lo <= b <= hi
    ensures lo * (u + v) <= a * u + b * v <= hi * (u + v)
  {
    assert (a - lo) * u >= 0 && (b - lo) * v >= 0;
    assert (hi - a) * u >= 0 && (hi - b) * v >= 0;
  }

  /** The clamp never changes a sample: at equal rates the result is the mean of the channels,
      at other rates the interpolation. */
  lemma ClampIsIdentity(data: Bytes, from: Format, rate: nat)
    requires rate > 0 && from.channels < U16
    ensures var mono := Mono(data, Max(from.width, 1), Max(from.channels, 1));
            if from.rate == rate || from.rate == 0 || mono == [] then ToMono(data, from, rate) == mono
            else
              && |ToMono(data, from, rate)| == |mono| * rate / from.rate
              && forall i | 0 <= i < |ToMono(data, from, rate)| ::
                ToMono(data, from, rate)[i] == Interpolated(mono, from.rate, rate, i)
  {
    var mono := Mono(data, Max(from.width, 1), Max(from.channels, 1));
    MonoFits(data, Max(from.width, 1), Max(from.channels, 1));
    if from.rate != rate && from.rate != 0 && mono != [] {
      forall i: nat
        ensures -0x8000 <= Interpolated(mono, from.rate, rate, i) < 0x8000
      {
        InterpolatedBetween(mono, from.rate, rate, i, -0x8000, 0x7fff);
      }
    }
  }

  /** The little-endian bytes of 16-bit samples. */
  function PcmBytes(pcm: seq<i16>): (b: Bytes)
    ensures |b| == 2 * |pcm|
  {
    if pcm == [] then [] else ToLE(2, pcm[0] % U16) + PcmBytes(pcm[1..])
  }

  lemma DecodesSample(s: i16)
    ensures DecodeSample(ToLE(2, s % U16)) == s
  {
    Pow256Values();
    LERoundTrip(2, s % U16);
  }

  lemma {:induction false} MonoCopies(pcm: seq<i16>)
    ensures Mono(PcmBytes(pcm), 2, 1) == pcm
  {
    if pcm != [] {
      var first := ToLE(2, pcm[0] % U16);
      var data := PcmBytes(pcm);
      assert data[..2] == first && data[2..] == PcmBytes(pcm[1..]);
      DecodesSample(pcm[0]);
      assert PartialSum(first, 2, 1) == PartialSum(first, 2, 0) + DecodeSample(first[0..2]);
      assert first[0..2] == first;
      MonoCopies(pcm[1..]);
    }
  }

  /** What Home Assistant sends is copied sample by sample. */
  lemma SameFormatIsACopy(pcm: seq<i16>)
    ensures ToMono(PcmBytes(pcm), STT, 16_000) == pcm
  {
    MonoCopies(pcm);
  }

  // What single samples, frames and ramps become

  /** A 16-bit sample in the high bytes of a wider one is decoded as it is, whatever the low bytes are. */
  lemma {:induction false} DecodesWideSample(low: Bytes, s: i16)
    requires |low| <= 2
    ensures DecodeSample(low + ToLE(2, s % U16)) == s
  {
    hide DecodeSample, SignedLE, FromLE, ToLE;
    var high := ToLE(2, s % U16);
    var b := low + high;
    DecodesSample(s);
    SampleFits(b);
    TwoBytes(high);
    assert b[|b| - 2..] == high;
    if low == [] {
      assert b == high;
    }
  }

  lemma TwoBytes(b: Bytes)
    requires |b| == 2
    ensures DecodeSample(b) == SignedLE(b)
  {
    hide SignedLE;
  }

  /** Eight-bit samples are unsigned around 128, and become multiples of 256. */
  lemma DecodesByte(k: int)
    requires -128 <= k < 128
    ensures DecodeSample([k + 128]) == 256 * k
  {
  }

  function SumOf(samples: seq<int>): int {
    if samples == [] then 0 else samples[0] + SumOf(samples[1..])
  }

  lemma {:induction false} SumAppend(samples: seq<int>, last: int)
    ensures SumOf(samples + [last]) == SumOf(samples) + last
  {
    if samples == [] {
      assert [last][1..] == [];
    } else {
      assert (samples + [last])[1..] == samples[1..] + [last];
      SumAppend(samples[1..], last);
    }
  }

  lemma {:induction false} PcmAt(pcm: seq<i16>, i: nat)
    requires i < |pcm|
    ensures PcmBytes(pcm)[2 * i..2 * i + 2] == ToLE(2, pcm[i] % U16)
  {
    hide ToLE;
    var first, rest := ToLE(2, pcm[0] % U16), PcmBytes(pcm[1..]);
    if i == 0 {
      assert PcmBytes(pcm)[..2] == first;
    } else {
      PcmAt(pcm[1..], i - 1);
      assert PcmBytes(pcm)[2 * i..2 * i + 2] == rest[2 * i - 2..2 * i];
    }
  }

  lemma SumStep(frame: Bytes, n: nat)
    requires 0 < n && 2 * n <= |frame|
    ensures PartialSum(frame, 2, n) == PartialSum(frame, 2, n - 1) + DecodeSample(frame[2 * (n - 1)..2 * (n - 1) + 2])
  {
    hide DecodeSample;
    assert (n - 1) * 2 == 2 * (n - 1) && n * 2 == 2 * (n - 1) + 2;
  }

  lemma {:induction false} PartialSumIs(frame: seq<i16>, n: nat)
    requires n <= |frame|
    ensures PartialSum(PcmBytes(frame), 2, n) == SumOf(frame[..n])
  {
    if n == 0 {
      assert frame[..0] == [];
    } else {
      hide DecodeSample, ToLE, PcmBytes, PartialSum, SumOf;
      PartialSumIs(frame, n - 1);
      SumStep(PcmBytes(frame), n);
      PcmAt(frame, n - 1);
      DecodesSample(frame[n - 1]);
      assert frame[..n] == frame[..n - 1] + [frame[n - 1]];
      SumAppend(frame[..n - 1], frame[n - 1]);
    }
  }

  /** Rust's division cuts toward zero. */
  lemma TowardZero(a: int, b: int)
    requires b > 0
    ensures var q := TruncDiv(a, b);
            && (a >= 0 ==> 0 <= q * b <= a < q * b + b)
            && (a < 0 ==> q * b - b < a <= q * b <= 0)
  {
    if a >= 0 {
      Quotient(a, b);
    } else {
      Quotient(-a, b);
      assert TruncDiv(a, b) == -(-a / b);
      assert TruncDiv(a, b) * b == -(-a / b * b);
    }
  }

  lemma Quotient(n: nat, d: nat)
    requires d > 0
    ensures 0 <= n / d * d <= n < n / d * d + d
  {
    assert n / d * d + n % d == n;
  }

  /** All frames one after another, with their channels interleaved. */
  function Interleaved(frames: seq<seq<i16>>): Bytes {
    if frames == [] then [] else PcmBytes(frames[0]) + Interleaved(frames[1..])
  }

  function Means(frames: seq<seq<i16>>, channels: nat): (m: seq<int>)
    requires channels > 0
    ensures |m| == |frames|
    ensures forall i | 0 <= i < |m| :: m[i] == TruncDiv(SumOf(frames[i]), channels)
  {
    seq(|frames|, i requires 0 <= i < |frames| => TruncDiv(SumOf(frames[i]), channels))
  }

  /** Mono is the mean of the channels of each frame, for any number of channels. */
  lemma {:induction false} MonoIsMean(frames: seq<seq<i16>>, channels: nat)
    requires channels > 0 && forall i | 0 <= i < |frames| :: |frames[i]| == channels
    ensures Mono(Interleaved(frames), 2, channels) == Means(frames, channels)
    decreases |frames|
  {
    if frames == [] {
      assert Mono([], 2, channels) == [];
    } else {
      var first, rest := PcmBytes(frames[0]), Interleaved(frames[1..]);
      var data := Interleaved(frames);
      assert data[..2 * channels] == first && data[2 * channels..] == rest;
      MonoIsMean(frames[1..], channels);
      PartialSumIs(frames[0], channels);
      assert frames[0][..channels] == frames[0];
      hide PartialSum, PcmBytes;
      assert Mono(data, 2, channels) == [FrameValue(first, 2, channels)] + Mono(rest, 2, channels);
      assert Means(frames, channels) == [TruncDiv(SumOf(frames[0]), channels)] + Means(frames[1..], channels);
    }
  }

  /** The nearest integer of a quotient. */
  lemma Nearest(n: int, d: int)
    requires d > 0
    ensures -d <= 2 * (RoundDiv(n, d) * d - n) <= d
  {
    var m := if n >= 0 then 2 * n + d else -2 * n + d;
    var q := m / (2 * d);
    assert q * (2 * d) <= m < q * (2 * d) + 2 * d;
  }

  /** A ramp stays a ramp at any rate, up to rounding: sample `i` of the result is its value at time
      `i * from / to`. */
  lemma RampStaysRamp(mono: seq<int>, first: int, step: int, from: nat, to: nat, i: nat)
    requires to > 0 && i * from / to + 1 < |mono|
    requires forall k | 0 <= k < |mono| :: mono[k] == first + step * k
    ensures Interpolated(mono, from, to, i) == RoundDiv(first * to + step * (i * from), to)
  {
    hide RoundDiv;
    var idx, rest := i * from / to, i * from % to;
    assert idx * to + rest == i * from;
    var a, b := mono[idx], mono[idx + 1];
    assert b - a == step by {
      assert step * (idx + 1) == step * idx + step;
    }
    RampPoint(first, step, idx, rest, to);
  }

  lemma RampPoint(first: int, step: int, idx: nat, rest: nat, to: nat)
    ensures (first + step * idx) * to + step * rest == first * to + step * (idx * to + rest)
  {
    assert (step * idx) * to == step * (idx * to);
    assert (first + step * idx) * to == first * to + (step * idx) * to;
    assert step * (idx * to + rest) == step * (idx * to) + step * rest;
  }

  /** An interpolated sample depends on its two neighbours only, and is one of them where they are equal. */
  lemma BetweenNeighbours(mono: seq<int>, from: nat, to: nat, i: nat)
    requires mono != [] && to > 0
    ensures var last := |mono| - 1;
            var a, b := mono[Min(i * from / to, last)], mono[Min(i * from / to + 1, last)];
            Min(a, b) <= Interpolated(mono, from, to, i) <= Max(a, b)
  {
    hide RoundDiv;
    var last := |mono| - 1;
    var idx, rest := i * from / to, i * from % to;
    var a, b := mono[Min(idx, last)], mono[Min(idx + 1, last)];
    var lo, hi := Min(a, b), Max(a, b);
    assert a * to + (b - a) * rest == a * (to - rest) + b * rest;
    WeightedMean(a, b, to - rest, rest, lo, hi);
    RoundDivBetween(lo, hi, a * to + (b - a) * rest, to);
  }
}
