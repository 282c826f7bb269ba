/**
 The other direction of `GgufEncoding`: whatever the parser reads is the encoding of a header. So it accepts
 nothing but GGUF headers.
 */
module GgufDecoding {
  import opened Common
  import opened Gguf
  import opened GgufEncoding

  lemma HasAtJoin(f: Bytes, pos: nat, a: Bytes, b: Bytes)
    requires HasAt(f, pos, a) && HasAt(f, pos + |a|, b)
    ensures HasAt(f, pos, a + b)
  {
    SliceJoin(f, pos, pos + |a|, pos + |a| + |b|);
  }

  lemma SliceJoin(f: Bytes, i: nat, j: nat, k: nat)
    requires i <= j <= k <= |f|
    ensures f[i..k] == f[i..j] + f[j..k]
  {
  }

  lemma {:induction false} LEInverse(b: Bytes)
    ensures ToLE(|b|, FromLE(b)) == b
  {
    if b != [] {
      hide FromLE;
      FirstByte(b);
      LEInverse(b[1..]);
      assert b == [b[0]] + b[1..];
    }
  }

  lemma FirstByte(b: Bytes)
    requires b != []
    ensures FromLE(b) % 256 == b[0] && FromLE(b) / 256 == FromLE(b[1..])
  {
  }

  lemma NumberIsEncoded(f: Bytes, pos: nat, width: nat)
    requires NumberAt(f, pos, width).Ok? && width > 0
    ensures var n := NumberAt(f, pos, width).value.value;
            HasAt(f, pos, ToLE(width, n)) && n < Pow256(width)
  {
    var b := f[pos..pos + width];
    LEInverse(b);
    FromLEBound(b);
  }

  lemma Number4IsEncoded(f: Bytes, pos: nat)
    requires NumberAt(f, pos, 4).Ok?
    ensures var n := NumberAt(f, pos, 4).value.value;
            HasAt(f, pos, ToLE(4, n)) && n < U32
  {
    Pow256Values();
    NumberIsEncoded(f, pos, 4);
  }

  lemma Number8IsEncoded(f: Bytes, pos: nat)
    requires NumberAt(f, pos, 8).Ok?
    ensures var n := NumberAt(f, pos, 8).value.value;
            HasAt(f, pos, ToLE(8, n)) && n < U64
  {
    Pow256Values();
    NumberIsEncoded(f, pos, 8);
  }

  lemma StringIsEncoded(f: Bytes, pos: nat)
    requires StringAt(f, pos).Ok?
    ensures var s := StringAt(f, pos).value;
            HasAt(f, pos, EncodeString(s.value)) && |s.value| <= MAX_STRING
  {
    hide FromLE, ToLE;
    Number8IsEncoded(f, pos);
    var s := StringAt(f, pos).value.value;
    assert HasAt(f, pos + 8, s);
    HasAtJoin(f, pos, ToLE(8, |s|), s);
  }

  /** The encodings of some values one after another. */
  function Concat(items: seq<Value>): Bytes {
    if items == [] then [] else EncodeValue(items[0]) + Concat(items[1..])
  }

  lemma {:induction false} ItemsAreConcat(context: Value, items: seq<Value>)
    requires forall i | 0 <= i < |items| :: items[i] < context
    ensures EncodeItems(context, items) == Concat(items)
    decreases |items|
  {
    hide EncodeValue;
    if items != [] {
      ItemsAreConcat(context, items[1..]);
    }
  }

  ghost predicate AllOf(items: seq<Value>, t: nat) {
    forall i | 0 <= i < |items| :: TypeOf(items[i]) == t && WellFormed(items[i])
  }

  lemma AllOfCons(v: Value, items: seq<Value>, t: nat)
    requires TypeOf(v) == t && WellFormed(v) && AllOf(items, t)
    ensures AllOf([v] + items, t)
  {
    hide WellFormed;
  }

  lemma ConcatCons(v: Value, items: seq<Value>)
    ensures Concat([v] + items) == EncodeValue(v) + Concat(items)
  {
    hide EncodeValue;
    assert ([v] + items)[1..] == items;
  }

  /** `count` values of the same scalar type. */
  lemma {:induction false} ScalarsAreEncoded(f: Bytes, pos: nat, t: nat, n: nat, count: nat) returns (items: seq<Value>)
    requires ScalarSize(t) == Some(n) && t < U32 && pos + n * count <= |f|
    ensures |items| == count && AllOf(items, t)
    ensures HasAt(f, pos, Concat(items)) && |Concat(items)| == n * count
    decreases count
  {
    items := [];
    if count > 0 {
      hide ScalarSize;
      assert n * count == n + n * (count - 1);
      var first := Scalar(t, f[pos..pos + n]);
      var rest := ScalarsAreEncoded(f, pos + n, t, n, count - 1);
      items := [first] + rest;
      AllOfCons(first, rest, t);
      ConcatCons(first, rest);
      HasAtJoin(f, pos, EncodeValue(first), Concat(rest));
    }
  }

  lemma ArrayIsEncoded(f: Bytes, pos: nat, elem: nat, items: seq<Value>) returns (v: Value)
    requires elem < U32 && |items| < U64 && AllOf(items, elem)
    requires HasAt(f, pos, ToLE(4, elem)) && HasAt(f, pos + 4, ToLE(8, |items|)) && HasAt(f, pos + 12, Concat(items))
    ensures WellFormed(v) && TypeOf(v) == ARRAY
    ensures HasAt(f, pos, EncodeValue(v)) && |EncodeValue(v)| == 12 + |Concat(items)|
  {
    hide ToLE, Concat, HasAt;
    v := Arr(elem, items);
    ItemsAreConcat(v, items);
    HasAtJoin(f, pos + 4, ToLE(8, |items|), Concat(items));
    HasAtJoin(f, pos, ToLE(4, elem), ToLE(8, |items|) + Concat(items));
  }

  /** A value that was skipped within the file is the encoding of a value of its type. */
  lemma {:induction false} ValueIsEncoded(f: Bytes, pos: nat, t: nat) returns (v: Value)
    requires SkipValueAt(f, pos, t).Ok? && SkipValueAt(f, pos, t).value <= |f| && t < U32
    ensures WellFormed(v) && TypeOf(v) == t
    ensures HasAt(f, pos, EncodeValue(v)) && SkipValueAt(f, pos, t).value == pos + |EncodeValue(v)|
    decreases Left(f, pos), 0, 0
  {
    var p := SkipValueAt(f, pos, t).value;
    if ScalarSize(t).Some? {
      v := Scalar(t, f[pos..p]);
    } else if t == STRING {
      v := TextIsEncoded(f, pos);
    } else {
      hide ToLE, FromLE, ScalarSize, Concat, HasAt;
      var elem, count := NumberAt(f, pos, 4).value.value, NumberAt(f, pos + 4, 8).value.value;
      Number4IsEncoded(f, pos);
      Number8IsEncoded(f, pos + 4);
      var items;
      if ScalarSize(elem).Some? {
        items := ScalarsAreEncoded(f, pos + 12, elem, ScalarSize(elem).value, count);
      } else {
        items := ManyAreEncoded(f, pos + 12, elem, count);
      }
      v := ArrayIsEncoded(f, pos, elem, items);
    }
  }

  lemma TextIsEncoded(f: Bytes, pos: nat) returns (v: Value)
    requires SkipValueAt(f, pos, STRING).Ok? && SkipValueAt(f, pos, STRING).value <= |f|
    ensures WellFormed(v) && TypeOf(v) == STRING
    ensures HasAt(f, pos, EncodeValue(v)) && SkipValueAt(f, pos, STRING).value == pos + |EncodeValue(v)|
  {
    hide ToLE, FromLE;
    Number8IsEncoded(f, pos);
    var s := f[pos + 8..SkipValueAt(f, pos, STRING).value];
    v := Str(s);
    HasAtJoin(f, pos, ToLE(8, |s|), s);
  }

  lemma ManySplit(f: Bytes, pos: nat, t: nat, count: nat)
    requires ScalarSize(t).None? && count > 0 && SkipManyAt(f, pos, t, count).Ok?
    ensures SkipValueAt(f, pos, t).Ok?
    ensures var q := SkipValueAt(f, pos, t).value;
            && SkipManyAt(f, pos, t, count) == SkipManyAt(f, q, t, count - 1)
            && pos < q <= SkipManyAt(f, pos, t, count).value && pos + 8 <= |f|
  {
    hide SkipValueAt, ScalarSize;
  }

  lemma NoneAreEncoded(f: Bytes, pos: nat, t: nat)
    requires ScalarSize(t).None? && pos <= |f|
    ensures AllOf([], t) && HasAt(f, pos, Concat([])) && Concat([]) == []
    ensures SkipManyAt(f, pos, t, 0) == Ok(pos)
  {
  }

  lemma {:induction false} ManyAreEncoded(f: Bytes, pos: nat, t: nat, count: nat) returns (items: seq<Value>)
    requires ScalarSize(t).None? && t < U32
    requires SkipManyAt(f, pos, t, count).Ok? && SkipManyAt(f, pos, t, count).value <= |f|
    ensures |items| == count && AllOf(items, t)
    ensures HasAt(f, pos, Concat(items)) && SkipManyAt(f, pos, t, count).value == pos + |Concat(items)|
    decreases Left(f, pos), 1, count
  {
    hide EncodeValue, WellFormed, AllOf, HasAt, Concat, SkipValueAt, SkipManyAt, ScalarSize, TypeOf;
    items := [];
    if count == 0 {
      NoneAreEncoded(f, pos, t);
    } else {
      ManySplit(f, pos, t, count);
      var q := SkipValueAt(f, pos, t).value;
      var first := ValueIsEncoded(f, pos, t);
      var rest := ManyAreEncoded(f, q, t, count - 1);
      items := [first] + rest;
      AllOfCons(first, rest, t);
      ConcatCons(first, rest);
      HasAtJoin(f, pos, EncodeValue(first), Concat(rest));
    }
  }

  lemma {:induction false} PairIsEncoded(f: Bytes, pos: nat, alignment: nat) returns (kv: KeyValue)
    requires 0 < alignment < U64 && PairAt(f, pos, alignment).Ok? && PairAt(f, pos, alignment).value.pos <= |f|
    ensures WellFormedPair(kv)
    ensures HasAt(f, pos, EncodePair(kv)) && PairAt(f, pos, alignment).value.pos == pos + |EncodePair(kv)|
  {
    hide ToLE, FromLE, StringAt, SkipValueAt, HasAt, WellFormed, EncodeString, EncodeValue;
    var key := StringAt(f, pos).value;
    StringIsEncoded(f, pos);
    StringLength(key.value);
    Number4IsEncoded(f, key.pos);
    var t := NumberAt(f, key.pos, 4).value;
    var end := PairAt(f, pos, alignment).value.pos;
    var v;
    if ScalarSize(t.value).Some? && IsAlignmentKey(key.value) {
      v := ScalarIsEncoded(f, t.pos, t.value);
    } else {
      v := ValueIsEncoded(f, t.pos, t.value);
    }
    kv := KeyValue(key.value, v);
    HasAtJoin(f, key.pos, ToLE(4, t.value), EncodeValue(v));
    HasAtJoin(f, pos, EncodeString(key.value), ToLE(4, t.value) + EncodeValue(v));
  }

  lemma StringLength(s: Bytes)
    ensures |EncodeString(s)| == 8 + |s|
  {
  }

  lemma ScalarIsEncoded(f: Bytes, pos: nat, t: nat) returns (v: Value)
    requires ScalarSize(t).Some? && t < U32 && pos + ScalarSize(t).value <= |f|
    ensures WellFormed(v) && TypeOf(v) == t
    ensures HasAt(f, pos, EncodeValue(v)) && |EncodeValue(v)| == ScalarSize(t).value
  {
    v := Scalar(t, f[pos..pos + ScalarSize(t).value]);
  }

  lemma {:induction false} PairsAreEncoded(f: Bytes, pos: nat, count: nat, alignment: nat) returns (kvs: seq<KeyValue>)
    requires 0 < alignment < U64
    requires PairsAt(f, pos, count, alignment).Ok? && PairsAt(f, pos, count, alignment).value.pos <= |f|
    ensures |kvs| == count && forall i | 0 <= i < |kvs| :: WellFormedPair(kvs[i])
    ensures HasAt(f, pos, EncodePairs(kvs)) && PairsAt(f, pos, count, alignment).value.pos == pos + |EncodePairs(kvs)|
    decreases count
  {
    hide *;
    kvs := [];
    if count == 0 {
      NoPairs(f, pos, alignment);
    } else {
      PairsSplit(f, pos, count, alignment);
      var a := PairAt(f, pos, alignment).value;
      var first := PairIsEncoded(f, pos, alignment);
      var rest := PairsAreEncoded(f, a.pos, count - 1, a.value);
      kvs := [first] + rest;
      PairsCons(first, rest);
      HasAtJoin(f, pos, EncodePair(first), EncodePairs(rest));
    }
  }

  lemma NoPairs(f: Bytes, pos: nat, alignment: nat)
    requires 0 < alignment < U64 && pos <= |f|
    ensures PairsAt(f, pos, 0, alignment) == Ok(At(alignment, pos)) && HasAt(f, pos, EncodePairs([]))
    ensures EncodePairs([]) == []
  {
  }

  lemma PairsSplit(f: Bytes, pos: nat, count: nat, alignment: nat)
    requires 0 < alignment < U64 && count > 0 && PairsAt(f, pos, count, alignment).Ok?
    ensures PairAt(f, pos, alignment).Ok?
    ensures var a := PairAt(f, pos, alignment).value;
            && 0 < a.value < U64
            && PairsAt(f, pos, count, alignment) == PairsAt(f, a.pos, count - 1, a.value)
            && a.pos <= PairsAt(f, pos, count, alignment).value.pos
  {
    hide PairAt;
  }

  lemma PairsCons(kv: KeyValue, kvs: seq<KeyValue>)
    ensures EncodePairs([kv] + kvs) == EncodePair(kv) + EncodePairs(kvs)
  {
    hide EncodePair;
    assert ([kv] + kvs)[1..] == kvs;
  }

  lemma {:induction false} DimsAreEncoded(f: Bytes, pos: nat, count: nat, elems: nat) returns (dims: seq<nat>)
    requires elems < U64 && DimsAt(f, pos, count, elems).Ok? && DimsAt(f, pos, count, elems).value.pos <= |f|
    ensures |dims| == count && forall i | 0 <= i < |dims| :: dims[i] < U64
    ensures HasAt(f, pos, EncodeDims(dims)) && DimsAt(f, pos, count, elems).value.pos == pos + |EncodeDims(dims)|
    decreases count
  {
    dims := [];
    if count > 0 {
      hide ToLE, FromLE, HasAt;
      var d := NumberAt(f, pos, 8).value;
      Number8IsEncoded(f, pos);
      var rest := DimsAreEncoded(f, d.pos, count - 1, SaturatingMul(elems, d.value));
      dims := [d.value] + rest;
      assert dims[1..] == rest;
      HasAtJoin(f, pos, ToLE(8, d.value), EncodeDims(rest));
    } else {
      assert HasAt(f, pos, []);
    }
  }

  lemma {:induction false} TensorIsEncoded(f: Bytes, pos: nat) returns (t: Tensor)
    requires TensorAt(f, pos).Ok? && TensorAt(f, pos).value.pos <= |f|
    ensures WellFormedTensor(t)
    ensures HasAt(f, pos, EncodeTensor(t)) && TensorAt(f, pos).value.pos == pos + |EncodeTensor(t)|
  {
    hide ToLE, FromLE, StringAt, DimsAt, EncodeString, EncodeDims, HasAt, TensorEnd;
    var name := StringAt(f, pos).value;
    StringIsEncoded(f, pos);
    StringLength(name.value);
    Number4IsEncoded(f, name.pos);
    var count := NumberAt(f, name.pos, 4).value;
    var dims := DimsAreEncoded(f, count.pos, count.value, 1);
    var p := count.pos + |EncodeDims(dims)|;
    Number4IsEncoded(f, p);
    Number8IsEncoded(f, p + 4);
    var kind, offset := NumberAt(f, p, 4).value.value, NumberAt(f, p + 4, 8).value.value;
    t := Tensor(name.value, dims, kind, offset);
    HasAtJoin(f, p, ToLE(4, kind), ToLE(8, offset));
    HasAtJoin(f, count.pos, EncodeDims(dims), ToLE(4, kind) + ToLE(8, offset));
    HasAtJoin(f, name.pos, ToLE(4, |dims|), EncodeDims(dims) + (ToLE(4, kind) + ToLE(8, offset)));
    HasAtJoin(f, pos, EncodeString(name.value),
              ToLE(4, |dims|) + (EncodeDims(dims) + (ToLE(4, kind) + ToLE(8, offset))));
  }

  lemma TensorsSplit(f: Bytes, pos: nat, count: nat, maxEnd: nat)
    requires maxEnd < U64 && count > 0 && TensorsAt(f, pos, count, maxEnd).Ok?
    ensures TensorAt(f, pos).Ok?
    ensures var end := TensorAt(f, pos).value;
            && 0 <= Max(maxEnd, end.value) < U64
            && TensorsAt(f, pos, count, maxEnd) == TensorsAt(f, end.pos, count - 1, Max(maxEnd, end.value))
            && end.pos <= TensorsAt(f, pos, count, maxEnd).value.pos
  {
    hide TensorAt;
  }

  lemma {:induction false} TensorsAreEncoded(f: Bytes, pos: nat, count: nat, maxEnd: nat) returns (ts: seq<Tensor>)
    requires maxEnd < U64
    requires TensorsAt(f, pos, count, maxEnd).Ok? && TensorsAt(f, pos, count, maxEnd).value.pos <= |f|
    ensures |ts| == count && forall i | 0 <= i < |ts| :: WellFormedTensor(ts[i])
    ensures HasAt(f, pos, EncodeTensors(ts)) && TensorsAt(f, pos, count, maxEnd).value.pos == pos + |EncodeTensors(ts)|
    decreases count
  {
    hide *;
    ts := [];
    if count == 0 {
      NoTensors(f, pos, maxEnd);
    } else {
      TensorsSplit(f, pos, count, maxEnd);
      var end := TensorAt(f, pos).value;
      var first := TensorIsEncoded(f, pos);
      var rest := TensorsAreEncoded(f, end.pos, count - 1, Max(maxEnd, end.value));
      ts := [first] + rest;
      TensorsCons(first, rest);
      HasAtJoin(f, pos, EncodeTensor(first), EncodeTensors(rest));
    }
  }

  lemma NoTensors(f: Bytes, pos: nat, maxEnd: nat)
    requires maxEnd < U64 && pos <= |f|
    ensures TensorsAt(f, pos, 0, maxEnd) == Ok(At(maxEnd, pos)) && HasAt(f, pos, EncodeTensors([]))
    ensures EncodeTensors([]) == []
  {
  }

  lemma TensorsCons(t: Tensor, ts: seq<Tensor>)
    ensures EncodeTensors([t] + ts) == EncodeTensor(t) + EncodeTensors(ts)
  {
    hide EncodeTensor;
    assert ([t] + ts)[1..] == ts;
  }

  lemma CountsAreEncoded(f: Bytes) returns (version: nat)
    requires CountsAt(f, 0).Ok?
    ensures version < U32
    ensures var c := CountsAt(f, 0).value.value;
            && c.tensors < U64 && c.kvs < U64
            && HasAt(f, 0, MAGIC + (ToLE(4, version) + (ToLE(8, c.tensors) + ToLE(8, c.kvs))))
  {
    hide ToLE, FromLE;
    assert HasAt(f, 0, MAGIC);
    Number4IsEncoded(f, 4);
    Number8IsEncoded(f, 8);
    Number8IsEncoded(f, 16);
    version := NumberAt(f, 4, 4).value.value;
    var tensors, kvs := NumberAt(f, 8, 8).value.value, NumberAt(f, 16, 8).value.value;
    HasAtJoin(f, 8, ToLE(8, tensors), ToLE(8, kvs));
    HasAtJoin(f, 4, ToLE(4, version), ToLE(8, tensors) + ToLE(8, kvs));
    HasAtJoin(f, 0, MAGIC, ToLE(4, version) + (ToLE(8, tensors) + ToLE(8, kvs)));
  }

  /** A header that was read within the file is the encoding of one. */
  lemma {:induction false} HeaderIsEncoded(f: Bytes) returns (h: Header)
    requires LayoutOf(f).Ok? && LayoutOf(f).value.dataStart <= |f| <= MAX_I64
    ensures WellFormedHeader(h) && Encode(h) <= f
  {
    hide CountsAt, PairsAt, TensorsAt, ToLE, EncodePairs, EncodeTensors, HasAt, WellFormedPair, WellFormedTensor;
    var version := CountsAreEncoded(f);
    var counts := CountsAt(f, 0).value;
    var pairs := PairsAt(f, counts.pos, counts.value.kvs, DEFAULT_ALIGNMENT).value;
    var end := TensorsAt(f, pairs.pos, counts.value.tensors, 0).value;
    assert pairs.pos <= end.pos <= LayoutOf(f).value.dataStart;
    var kvs := PairsAreEncoded(f, 24, counts.value.kvs, DEFAULT_ALIGNMENT);
    var ts := TensorsAreEncoded(f, pairs.pos, counts.value.tensors, 0);
    h := Header(version, kvs, ts);
    HasAtJoin(f, 24, EncodePairs(kvs), EncodeTensors(ts));
    HasAtJoin(f, 0, EncodeCounts(h), EncodePairs(kvs) + EncodeTensors(ts));
    PrefixOf(f, Encode(h));
  }

  lemma PrefixOf(f: Bytes, s: Bytes)
    requires HasAt(f, 0, s)
    ensures s <= f
  {
  }

  /** The parser reads a header whose data section begins in the file, if and only if the file begins with the
      encoding of one. */
  lemma ReadsOnlyHeaders(f: Bytes)
    requires |f| <= MAX_I64
    ensures (LayoutOf(f).Ok? && LayoutOf(f).value.dataStart <= |f|) <==>
              exists h :: WellFormedHeader(h) && Encode(h) <= f && DataStart(h) <= |f|
  {
    hide LayoutOf, Encode, WellFormedHeader, AlignUp, AlignmentOfHeader, MaxEnd;
    if LayoutOf(f).Ok? && LayoutOf(f).value.dataStart <= |f| {
      var h := HeaderIsEncoded(f);
      LayoutOfHeader(f, h);
    }
    if h :| WellFormedHeader(h) && Encode(h) <= f && DataStart(h) <= |f| {
      LayoutOfHeader(f, h);
    }
  }
}
