/**
 GGUF headers as values, their bytes, and what the parser reads from these bytes
 (ggml, docs/gguf.md, section "File Structure").
 */
module GgufEncoding {
  import opened Common
  import opened Gguf

  datatype Value =
    | Scalar(t: nat, bytes: Bytes)
    | Str(s: Bytes)
    | Arr(elem: nat, items: seq<Value>)

  datatype KeyValue = KeyValue(key: Bytes, value: Value)

  datatype Tensor = Tensor(name: Bytes, dims: seq<nat>, t: nat, offset: nat)

  datatype Header = Header(version: nat, kvs: seq<KeyValue>, tensors: seq<Tensor>)

  function TypeOf(v: Value): nat {
    match v
    case Scalar(t, _) => t
    case Str(_) => STRING
    case Arr(_, _) => ARRAY
  }

  /** A value that the format can hold: the lengths fit their fields. */
  ghost predicate WellFormed(v: Value) {
    match v
    case Scalar(t, bytes) => t < U32 && ScalarSize(t) == Some(|bytes|)
    case Str(s) => |s| < U64
    case Arr(elem, items) =>
      && elem < U32 && |items| < U64
      && forall i | 0 <= i < |items| :: TypeOf(items[i]) == elem && WellFormed(items[i])
  }

  ghost predicate WellFormedPair(kv: KeyValue) {
    |kv.key| <= MAX_STRING && WellFormed(kv.value) && TypeOf(kv.value) < U32
  }

  ghost predicate WellFormedTensor(t: Tensor) {
    && |t.name| <= MAX_STRING && |t.dims| < U32 && t.t < U32 && t.offset < U64
    && forall i | 0 <= i < |t.dims| :: t.dims[i] < U64
  }

  ghost predicate WellFormedHeader(h: Header) {
    && h.version < U32 && |h.kvs| < U64 && |h.tensors| < U64
    && (forall i | 0 <= i < |h.kvs| :: WellFormedPair(h.kvs[i]))
    && (forall i | 0 <= i < |h.tensors| :: WellFormedTensor(h.tensors[i]))
    && |Encode(h)| <= MAX_I64
  }

  function EncodeString(s: Bytes): Bytes {
    ToLE(8, |s|) + s
  }

  function EncodeValue(v: Value): Bytes
    decreases v
  {
    match v
    case Scalar(_, bytes) => bytes
    case Str(s) => EncodeString(s)
    case Arr(elem, items) => ToLE(4, elem) + (ToLE(8, |items|) + EncodeItems(v, items))
  }

  function EncodeItems(ghost context: Value, items: seq<Value>): Bytes
    requires forall i | 0 <= i < |items| :: items[i] < context
    decreases context, |items|
  {
    if items == [] then [] else EncodeValue(items[0]) + EncodeItems(context, items[1..])
  }

  function EncodePair(kv: KeyValue): Bytes {
    EncodeString(kv.key) + (ToLE(4, TypeOf(kv.value)) + EncodeValue(kv.value))
  }

  function EncodePairs(kvs: seq<KeyValue>): Bytes {
    if kvs == [] then [] else EncodePair(kvs[0]) + EncodePairs(kvs[1..])
  }

  function EncodeDims(dims: seq<nat>): Bytes {
    if dims == [] then [] else ToLE(8, dims[0]) + EncodeDims(dims[1..])
  }

  function EncodeTensor(t: Tensor): Bytes {
    EncodeString(t.name) + (ToLE(4, |t.dims|) + (EncodeDims(t.dims) + (ToLE(4, t.t) + ToLE(8, t.offset))))
  }

  function EncodeTensors(ts: seq<Tensor>): Bytes {
    if ts == [] then [] else EncodeTensor(ts[0]) + EncodeTensors(ts[1..])
  }

  function EncodeCounts(h: Header): Bytes {
    MAGIC + (ToLE(4, h.version) + (ToLE(8, |h.tensors|) + ToLE(8, |h.kvs|)))
  }

  function Encode(h: Header): Bytes {
    EncodeCounts(h) + (EncodePairs(h.kvs) + EncodeTensors(h.tensors))
  }

  lemma ReadsNumber(f: Bytes, pos: nat, width: nat, x: nat)
    requires HasAt(f, pos, ToLE(width, x)) && x < Pow256(width)
    ensures NumberAt(f, pos, width) == Ok(At(x, pos + width))
  {
    LERoundTrip(width, x);
  }

  lemma ReadsNumber4(f: Bytes, pos: nat, x: nat)
    requires HasAt(f, pos, ToLE(4, x)) && x < U32
    ensures NumberAt(f, pos, 4) == Ok(At(x, pos + 4))
  {
    Pow256Values();
    ReadsNumber(f, pos, 4, x);
  }

  lemma ReadsNumber8(f: Bytes, pos: nat, x: nat)
    requires HasAt(f, pos, ToLE(8, x)) && x < U64
    ensures NumberAt(f, pos, 8) == Ok(At(x, pos + 8))
  {
    Pow256Values();
    ReadsNumber(f, pos, 8, x);
  }

  lemma ReadsString(f: Bytes, pos: nat, s: Bytes)
    requires HasAt(f, pos, EncodeString(s)) && |s| <= MAX_STRING
    ensures StringAt(f, pos) == Ok(At(s, pos + |EncodeString(s)|))
  {
    HasAtSplit(f, pos, ToLE(8, |s|), s);
    ReadsNumber8(f, pos, |s|);
  }

  lemma {:induction false} ScalarItemsLength(v: Value, items: seq<Value>, n: nat)
    requires forall i | 0 <= i < |items| :: items[i] < v && items[i].Scalar? && |items[i].bytes| == n
    ensures |EncodeItems(v, items)| == n * |items|
  {
    if items != [] {
      ScalarItemsLength(v, items[1..], n);
      assert |EncodeValue(items[0])| == n;
    }
  }

  lemma SkipsScalars(f: Bytes, pos: nat, v: Value, n: nat)
    requires v.Arr? && WellFormed(v) && ScalarSize(v.elem) == Some(n)
    requires NumberAt(f, pos, 4) == Ok(At(v.elem, pos + 4))
    requires NumberAt(f, pos + 4, 8) == Ok(At(|v.items|, pos + 12))
    requires pos + 12 + |EncodeItems(v, v.items)| <= MAX_I64
    ensures SkipValueAt(f, pos, ARRAY) == Ok(pos + 12 + |EncodeItems(v, v.items)|)
  {
    forall i | 0 <= i < |v.items|
      ensures v.items[i].Scalar? && |v.items[i].bytes| == n
    {
      assert TypeOf(v.items[i]) == v.elem && WellFormed(v.items[i]);
    }
    ScalarItemsLength(v, v.items, n);
  }

  /** Skipping a value consumes exactly its bytes. */
  lemma {:induction false} SkipsExactly(f: Bytes, pos: nat, v: Value)
    requires WellFormed(v) && HasAt(f, pos, EncodeValue(v)) && pos + |EncodeValue(v)| <= MAX_I64
    ensures SkipValueAt(f, pos, TypeOf(v)) == Ok(pos + |EncodeValue(v)|)
    decreases v
  {
    match v
    case Scalar(_, _) =>
    case Str(s) =>
      HasAtSplit(f, pos, ToLE(8, |s|), s);
      ReadsNumber8(f, pos, |s|);
    case Arr(_, _) =>
      SkipsArray(f, pos, v);
  }

  lemma SkipsElements(f: Bytes, pos: nat, elem: nat, count: nat)
    requires ScalarSize(elem).None?
    requires NumberAt(f, pos, 4) == Ok(At(elem, pos + 4))
    requires NumberAt(f, pos + 4, 8) == Ok(At(count, pos + 12))
    ensures SkipValueAt(f, pos, ARRAY) == SkipManyAt(f, pos + 12, elem, count)
  {
    hide NumberAt, SkipManyAt;
  }

  lemma {:induction false} SkipsArray(f: Bytes, pos: nat, v: Value)
    requires v.Arr? && WellFormed(v) && HasAt(f, pos, EncodeValue(v)) && pos + |EncodeValue(v)| <= MAX_I64
    ensures SkipValueAt(f, pos, ARRAY) == Ok(pos + |EncodeValue(v)|)
    decreases v, |v.items| + 1
  {
    hide NumberAt, SkipValueAt, SkipManyAt, ToLE;
    var count, body := ToLE(8, |v.items|), EncodeItems(v, v.items);
    HasAtSplit(f, pos, ToLE(4, v.elem), count + body);
    HasAtSplit(f, pos + 4, count, body);
    ReadsNumber4(f, pos, v.elem);
    ReadsNumber8(f, pos + 4, |v.items|);
    match ScalarSize(v.elem)
    case Some(n) =>
      SkipsScalars(f, pos, v, n);
    case None =>
      SkipsElements(f, pos, v.elem, |v.items|);
      SkipsItems(f, pos + 12, v, v.items);
  }

  lemma SkipManyStep(f: Bytes, pos: nat, t: nat, count: nat, next: nat)
    requires ScalarSize(t).None? && count > 0 && SkipValueAt(f, pos, t) == Ok(next)
    ensures SkipManyAt(f, pos, t, count) == SkipManyAt(f, next, t, count - 1)
  {
  }

  lemma SplitItems(f: Bytes, pos: nat, v: Value, items: seq<Value>)
    requires v.Arr? && items != []
    requires forall i | 0 <= i < |items| :: items[i] < v && TypeOf(items[i]) == v.elem && WellFormed(items[i])
    requires HasAt(f, pos, EncodeItems(v, items))
    ensures forall i | 0 <= i < |items[1..]| ::
              items[1..][i] < v && TypeOf(items[1..][i]) == v.elem && WellFormed(items[1..][i])
    ensures var first, rest := EncodeValue(items[0]), EncodeItems(v, items[1..]);
            && |EncodeItems(v, items)| == |first| + |rest|
            && HasAt(f, pos, first) && HasAt(f, pos + |first|, rest)
  {
    hide HasAt, WellFormed, TypeOf, EncodeValue;
    HasAtSplit(f, pos, EncodeValue(items[0]), EncodeItems(v, items[1..]));
  }

  lemma NoItems(v: Value)
    ensures EncodeItems(v, []) == []
  {
  }

  lemma SkipNone(f: Bytes, pos: nat, t: nat)
    requires ScalarSize(t).None?
    ensures SkipManyAt(f, pos, t, 0) == Ok(pos)
  {
  }

  lemma {:induction false} SkipsItems(f: Bytes, pos: nat, v: Value, items: seq<Value>)
    requires v.Arr? && ScalarSize(v.elem).None?
    requires forall i | 0 <= i < |items| :: items[i] < v && TypeOf(items[i]) == v.elem && WellFormed(items[i])
    requires HasAt(f, pos, EncodeItems(v, items)) && pos + |EncodeItems(v, items)| <= MAX_I64
    ensures SkipManyAt(f, pos, v.elem, |items|) == Ok(pos + |EncodeItems(v, items)|)
    decreases v, |items|
  {
    if items != [] {
      hide *;
      SplitItems(f, pos, v, items);
      var next := pos + |EncodeValue(items[0])|;
      SkipsExactly(f, pos, items[0]);
      SkipManyStep(f, pos, v.elem, |items|, next);
      SkipsItems(f, next, v, items[1..]);
    } else {
      hide *;
      SkipNone(f, pos, v.elem);
      NoItems(v);
    }
  }

  predicate SetsAlignment(kv: KeyValue) {
    IsAlignmentKey(kv.key) && kv.value.Scalar?
  }

  function AlignmentValue(kv: KeyValue): nat
    requires SetsAlignment(kv)
  {
    Max(FromLE(kv.value.bytes), 1)
  }

  /** The alignment that the last pair with a scalar alignment sets, or `default`. */
  function AlignmentOf(kvs: seq<KeyValue>, default: nat): nat {
    if kvs == [] then default
    else
      var last := kvs[|kvs| - 1];
      if SetsAlignment(last) then AlignmentValue(last) else AlignmentOf(kvs[..|kvs| - 1], default)
  }

  lemma {:induction false} AlignmentFromFront(kvs: seq<KeyValue>, default: nat)
    requires kvs != []
    ensures AlignmentOf(kvs, default) ==
            AlignmentOf(kvs[1..], if SetsAlignment(kvs[0]) then AlignmentValue(kvs[0]) else default)
  {
    if |kvs| > 1 {
      var init := kvs[..|kvs| - 1];
      AlignmentFromFront(init, default);
      assert init[1..] == kvs[1..][..|kvs| - 2];
    }
  }

  lemma {:induction false} ReadsKeyAndType(f: Bytes, pos: nat, kv: KeyValue)
    requires WellFormedPair(kv) && HasAt(f, pos, EncodePair(kv))
    ensures StringAt(f, pos) == Ok(At(kv.key, pos + |EncodeString(kv.key)|))
    ensures NumberAt(f, pos + |EncodeString(kv.key)|, 4)
         == Ok(At(TypeOf(kv.value), pos + |EncodeString(kv.key)| + 4))
    ensures HasAt(f, pos + |EncodeString(kv.key)| + 4, EncodeValue(kv.value))
    ensures |EncodePair(kv)| == |EncodeString(kv.key)| + 4 + |EncodeValue(kv.value)|
  {
    var key, t, v := EncodeString(kv.key), ToLE(4, TypeOf(kv.value)), EncodeValue(kv.value);
    HasAtSplit(f, pos, key, t + v);
    HasAtSplit(f, pos + |key|, t, v);
    ReadsString(f, pos, kv.key);
    ReadsNumber4(f, pos + |key|, TypeOf(kv.value));
  }

  lemma TypeIsScalar(v: Value)
    requires WellFormed(v)
    ensures ScalarSize(TypeOf(v)) == if v.Scalar? then Some(|v.bytes|) else None
  {
  }

  lemma ReadsPair(f: Bytes, pos: nat, kv: KeyValue, alignment: nat)
    requires WellFormedPair(kv) && 0 < alignment < U64
    requires HasAt(f, pos, EncodePair(kv)) && pos + |EncodePair(kv)| <= MAX_I64
    ensures PairAt(f, pos, alignment) ==
            Ok(At(if SetsAlignment(kv) then AlignmentValue(kv) else alignment, pos + |EncodePair(kv)|))
  {
    hide IsAlignmentKey, StringAt, NumberAt, SkipValueAt, FromLE, EncodeString, EncodePair;
    ReadsKeyAndType(f, pos, kv);
    TypeIsScalar(kv.value);
    if !SetsAlignment(kv) {
      SkipsExactly(f, pos + |EncodeString(kv.key)| + 4, kv.value);
    }
  }

  lemma {:induction false} ReadsPairs(f: Bytes, pos: nat, kvs: seq<KeyValue>, alignment: nat)
    requires forall i | 0 <= i < |kvs| :: WellFormedPair(kvs[i])
    requires 0 < alignment < U64
    requires HasAt(f, pos, EncodePairs(kvs)) && pos + |EncodePairs(kvs)| <= MAX_I64
    ensures PairsAt(f, pos, |kvs|, alignment) == Ok(At(AlignmentOf(kvs, alignment), pos + |EncodePairs(kvs)|))
    decreases |kvs|
  {
    hide PairAt, EncodePair, SetsAlignment;
    if kvs != [] {
      HasAtSplit(f, pos, EncodePair(kvs[0]), EncodePairs(kvs[1..]));
      ReadsPair(f, pos, kvs[0], alignment);
      AlignmentFromFront(kvs, alignment);
      var a := PairAt(f, pos, alignment).value;
      ReadsPairs(f, a.pos, kvs[1..], a.value);
    }
  }

  /** The first string with the key `wanted`. */
  function FirstString(kvs: seq<KeyValue>, wanted: Bytes): Option<Bytes> {
    if kvs == [] then None
    else if kvs[0].key == wanted && kvs[0].value.Str? then Some(kvs[0].value.s)
    else FirstString(kvs[1..], wanted)
  }

  /** `metadata_string` reads its value with the length limit of keys; longer strings are an error. */
  function StringWithinLimit(s: Option<Bytes>): Result<Option<Bytes>, Error> {
    if s.Some? && |s.value| > MAX_STRING then Err(ImplausibleString(|s.value|)) else Ok(s)
  }

  lemma {:induction false} FindsFirstString(f: Bytes, pos: nat, kvs: seq<KeyValue>, wanted: Bytes)
    requires forall i | 0 <= i < |kvs| :: WellFormedPair(kvs[i])
    requires HasAt(f, pos, EncodePairs(kvs)) && pos + |EncodePairs(kvs)| <= MAX_I64
    ensures FindStringAt(f, pos, |kvs|, wanted) == StringWithinLimit(FirstString(kvs, wanted))
    decreases |kvs|
  {
    hide EncodePair, EncodeValue, EntryAt, WellFormedPair;
    if kvs != [] {
      var kv := kvs[0];
      HasAtSplit(f, pos, EncodePair(kv), EncodePairs(kvs[1..]));
      ReadsEntry(f, pos, kv, wanted);
      if !(kv.key == wanted && kv.value.Str?) {
        FindsFirstString(f, pos + |EncodePair(kv)|, kvs[1..], wanted);
      }
    }
  }

  lemma ReadsEntry(f: Bytes, pos: nat, kv: KeyValue, wanted: Bytes)
    requires WellFormedPair(kv)
    requires HasAt(f, pos, EncodePair(kv)) && pos + |EncodePair(kv)| <= MAX_I64
    ensures var e := EntryAt(f, pos, wanted);
            if kv.key != wanted || !kv.value.Str? then e == Ok(At(None, pos + |EncodePair(kv)|))
            else if |kv.value.s| > MAX_STRING then e == Err(ImplausibleString(|kv.value.s|))
            else e.Ok? && e.value.value == Some(kv.value.s)
  {
    hide NumberAt, SkipValueAt, EncodePair;
    ReadsKeyAndType(f, pos, kv);
    var p := pos + |EncodeString(kv.key)| + 4;
    if kv.key != wanted || !kv.value.Str? {
      TypeIsString(kv.value);
      SkipsExactly(f, p, kv.value);
    } else {
      HasAtSplit(f, p, ToLE(8, |kv.value.s|), kv.value.s);
      ReadsNumber8(f, p, |kv.value.s|);
    }
  }

  lemma TypeIsString(v: Value)
    requires WellFormed(v)
    ensures TypeOf(v) == STRING <==> v.Str?
  {
  }

  /** The product of the dimensions, not limited to 64 bits. */
  function Product(dims: seq<nat>): nat {
    if dims == [] then 1 else dims[0] * Product(dims[1..])
  }

  function SaturatingProduct(dims: seq<nat>): nat {
    Min(Product(dims), U64 - 1)
  }

  lemma {:induction false} ReadsDims(f: Bytes, pos: nat, dims: seq<nat>, elems: nat, exact: nat)
    requires forall i | 0 <= i < |dims| :: dims[i] < U64
    requires HasAt(f, pos, EncodeDims(dims))
    requires elems == Min(exact, U64 - 1)
    ensures DimsAt(f, pos, |dims|, elems)
         == Ok(At(Min(exact * Product(dims), U64 - 1), pos + |EncodeDims(dims)|))
    decreases |dims|
  {
    if dims != [] {
      var d := dims[0];
      HasAtSplit(f, pos, ToLE(8, d), EncodeDims(dims[1..]));
      ReadsNumber8(f, pos, d);
      SaturatesOnce(exact, d);
      ReadsDims(f, pos + 8, dims[1..], SaturatingMul(elems, d), exact * d);
      assert exact * d * Product(dims[1..]) == exact * Product(dims);
    }
  }

  lemma SaturatesOnce(exact: nat, d: nat)
    ensures SaturatingMul(Min(exact, U64 - 1), d) == Min(exact * d, U64 - 1)
  {
    if exact >= U64 && d > 0 {
      assert exact * d >= exact;
      assert (U64 - 1) * d >= U64 - 1;
    }
  }

  function EndOf(t: Tensor): nat {
    TensorEnd(t.t, SaturatingProduct(t.dims), t.offset)
  }

  function MaxEnd(ts: seq<Tensor>): (end: nat)
    ensures end < U64
  {
    if ts == [] then 0 else Max(EndOf(ts[0]), MaxEnd(ts[1..]))
  }

  lemma ReadsTensor(f: Bytes, pos: nat, t: Tensor)
    requires WellFormedTensor(t) && HasAt(f, pos, EncodeTensor(t))
    ensures TensorAt(f, pos) == Ok(At(EndOf(t), pos + |EncodeTensor(t)|))
  {
    hide TensorEnd, StringAt, NumberAt, DimsAt, ToLE, EncodeString, EncodeDims;
    var name, count, dims := EncodeString(t.name), ToLE(4, |t.dims|), EncodeDims(t.dims);
    var tt, offset := ToLE(4, t.t), ToLE(8, t.offset);
    HasAtSplit(f, pos, name, count + (dims + (tt + offset)));
    HasAtSplit(f, pos + |name|, count, dims + (tt + offset));
    HasAtSplit(f, pos + |name| + 4, dims, tt + offset);
    HasAtSplit(f, pos + |name| + 4 + |dims|, tt, offset);
    ReadsString(f, pos, t.name);
    ReadsNumber4(f, pos + |name|, |t.dims|);
    ReadsDims(f, pos + |name| + 4, t.dims, 1, 1);
    ReadsNumber4(f, pos + |name| + 4 + |dims|, t.t);
    ReadsNumber8(f, pos + |name| + 4 + |dims| + 4, t.offset);
  }

  lemma {:induction false} ReadsTensors(f: Bytes, pos: nat, ts: seq<Tensor>, maxEnd: nat)
    requires forall i | 0 <= i < |ts| :: WellFormedTensor(ts[i])
    requires HasAt(f, pos, EncodeTensors(ts)) && maxEnd < U64
    ensures TensorsAt(f, pos, |ts|, maxEnd) == Ok(At(Max(maxEnd, MaxEnd(ts)), pos + |EncodeTensors(ts)|))
    decreases |ts|
  {
    hide TensorAt, EncodeTensor, EndOf;
    if ts != [] {
      HasAtSplit(f, pos, EncodeTensor(ts[0]), EncodeTensors(ts[1..]));
      ReadsTensor(f, pos, ts[0]);
      var end := TensorAt(f, pos).value;
      ReadsTensors(f, end.pos, ts[1..], Max(maxEnd, end.value));
    }
  }

  lemma ReadsCounts(f: Bytes, h: Header)
    requires WellFormedHeader(h) && HasAt(f, 0, EncodeCounts(h))
    ensures CountsAt(f, 0) == Ok(At(Counts(|h.tensors|, |h.kvs|), 24))
  {
    var version, tensors, kvs := ToLE(4, h.version), ToLE(8, |h.tensors|), ToLE(8, |h.kvs|);
    HasAtSplit(f, 0, MAGIC, version + (tensors + kvs));
    HasAtSplit(f, 4, version, tensors + kvs);
    HasAtSplit(f, 8, tensors, kvs);
    ReadsNumber4(f, 4, h.version);
    ReadsNumber8(f, 8, |h.tensors|);
    ReadsNumber8(f, 16, |h.kvs|);
  }

  lemma SplitHeader(f: Bytes, h: Header)
    requires WellFormedHeader(h) && Encode(h) <= f
    ensures HasAt(f, 0, EncodeCounts(h)) && HasAt(f, 24, EncodePairs(h.kvs))
    ensures HasAt(f, 24 + |EncodePairs(h.kvs)|, EncodeTensors(h.tensors))
    ensures |Encode(h)| == 24 + |EncodePairs(h.kvs)| + |EncodeTensors(h.tensors)|
  {
    hide WellFormedHeader, EncodePairs, EncodeTensors;
    var counts, kvs, ts := EncodeCounts(h), EncodePairs(h.kvs), EncodeTensors(h.tensors);
    HasAtSplit(f, 0, counts, kvs + ts);
    HasAtSplit(f, 24, kvs, ts);
  }

  /** The parser inverts the encoder: the layout of a header, whatever bytes follow it. */
  lemma {:induction false} LayoutOfHeader(f: Bytes, h: Header)
    requires WellFormedHeader(h) && Encode(h) <= f
    ensures LayoutOf(f) ==
            Ok(Layout(AlignUp(|Encode(h)|, AlignmentOfHeader(h)), MaxEnd(h.tensors)))
  {
    hide CountsAt, PairsAt, TensorsAt, Encode, EncodeCounts, EncodePairs, EncodeTensors, AlignUp, MaxEnd;
    SplitHeader(f, h);
    ReadsCounts(f, h);
    ReadsPairs(f, 24, h.kvs, DEFAULT_ALIGNMENT);
    ReadsTensors(f, 24 + |EncodePairs(h.kvs)|, h.tensors, 0);
  }

  function AlignmentOfHeader(h: Header): (a: nat)
    ensures a > 0
  {
    AlignmentPositive(h.kvs, DEFAULT_ALIGNMENT);
    AlignmentOf(h.kvs, DEFAULT_ALIGNMENT)
  }

  lemma {:induction false} AlignmentPositive(kvs: seq<KeyValue>, default: nat)
    requires default > 0
    ensures AlignmentOf(kvs, default) > 0
  {
    if kvs != [] {
      AlignmentPositive(kvs[..|kvs| - 1], default);
    }
  }

  /** `metadata_string` on an encoded header: the value of the first matching string key. */
  lemma MetadataOfHeader(f: Bytes, h: Header, wanted: Bytes)
    requires WellFormedHeader(h) && Encode(h) <= f
    ensures MetadataStringOf(f, wanted) == StringWithinLimit(FirstString(h.kvs, wanted))
  {
    hide CountsAt, FindStringAt, Encode, EncodeCounts, EncodePairs, EncodeTensors;
    SplitHeader(f, h);
    ReadsCounts(f, h);
    FindsFirstString(f, 24, h.kvs, wanted);
  }

  /** The end of a tensor in the data section, in unlimited integers. */
  function ExactEnd(t: Tensor): nat {
    match TypeSize(t.t)
    case Some(b) => t.offset + Product(t.dims) / b.elems * b.size
    case None => 0
  }

  function ExactMaxEnd(ts: seq<Tensor>): nat {
    if ts == [] then 0 else Max(ExactEnd(ts[0]), ExactMaxEnd(ts[1..]))
  }

  /** The size of the smallest complete file with this header, in unlimited integers. */
  function ExactMinSize(h: Header): nat {
    AlignUp(|Encode(h)|, AlignmentOfHeader(h)) + ExactMaxEnd(h.tensors)
  }

  /** The element count of the tensor fits 64 bits, if its size matters. */
  predicate Counted(t: Tensor) {
    TypeSize(t.t).Some? ==> Product(t.dims) < U64
  }

  /** Some tensor that reaches the largest end has a count that fits 64 bits. */
  ghost predicate Reached(ts: seq<Tensor>) {
    ExactMaxEnd(ts) == 0 || exists i | 0 <= i < |ts| :: Counted(ts[i]) && ExactEnd(ts[i]) == ExactMaxEnd(ts)
  }

  lemma EndIsExact(t: Tensor)
    requires Counted(t) && ExactEnd(t) < U64
    ensures EndOf(t) == ExactEnd(t)
  {
    match TypeSize(t.t)
    case Some(b) =>
      var size := Product(t.dims) / b.elems * b.size;
      assert size % U64 == size;
    case None =>
  }

  lemma LessProduct(a: nat, b: nat, size: nat)
    requires a < b && size > 0
    ensures a * size < b * size
  {
    ProductAtLeast(b - a, size);
  }

  /** A saturated count makes the end too small, never too large. */
  lemma EndIsTooSmall(t: Tensor)
    requires !Counted(t) && ExactEnd(t) < U64
    ensures EndOf(t) < ExactEnd(t)
  {
    hide TypeSize, Product;
    var b := TypeSize(t.t).value;
    var exact, counted := Product(t.dims) / b.elems, (U64 - 1) / b.elems;
    FewerBlocks(Product(t.dims), b.elems);
    ProductAtLeast(b.size, exact);
    LessProduct(counted, exact, b.size);
    SmallRemainder(counted * b.size, U64);
  }

  lemma FewerBlocks(p: nat, elems: nat)
    requires p >= U64 && elems in {1, 32, 256}
    ensures (U64 - 1) / elems < p / elems
    ensures elems == 1 ==> p / elems >= U64
  {
    if elems == 32 {
      assert p / 32 >= U64 / 32;
    } else if elems == 256 {
      assert p / 256 >= U64 / 256;
    } else {
      assert p / 1 == p;
    }
  }

  lemma {:induction false} EndsBelowMax(ts: seq<Tensor>, i: nat)
    requires i < |ts|
    ensures EndOf(ts[i]) <= MaxEnd(ts) && ExactEnd(ts[i]) <= ExactMaxEnd(ts)
    decreases |ts|
  {
    hide EndOf, ExactEnd;
    if i > 0 {
      EndsBelowMax(ts[1..], i - 1);
    }
  }

  lemma {:induction false} MaxIsReached(ts: seq<Tensor>)
    ensures MaxEnd(ts) == 0 || exists i | 0 <= i < |ts| :: EndOf(ts[i]) == MaxEnd(ts)
    decreases |ts|
  {
    hide EndOf;
    if ts != [] {
      MaxIsReached(ts[1..]);
      if MaxEnd(ts) != EndOf(ts[0]) && MaxEnd(ts) != 0 {
        var i :| 0 <= i < |ts[1..]| && EndOf(ts[1..][i]) == MaxEnd(ts[1..]);
        assert ts[i + 1] == ts[1..][i];
      }
    }
  }

  /** The largest computed end is the exact one if and only if a counted tensor reaches it. */
  lemma MaxEndIsExact(ts: seq<Tensor>)
    requires ExactMaxEnd(ts) < U64
    ensures MaxEnd(ts) <= ExactMaxEnd(ts)
    ensures MaxEnd(ts) == ExactMaxEnd(ts) <==> Reached(ts)
  {
    hide EndOf, ExactEnd, MaxEnd, ExactMaxEnd, Counted;
    forall i | 0 <= i < |ts|
      ensures EndOf(ts[i]) <= MaxEnd(ts) && ExactEnd(ts[i]) <= ExactMaxEnd(ts)
      ensures EndOf(ts[i]) <= ExactEnd(ts[i]) && (EndOf(ts[i]) == ExactEnd(ts[i]) <==> Counted(ts[i]))
    {
      EndsBelowMax(ts, i);
      if Counted(ts[i]) {
        EndIsExact(ts[i]);
      } else {
        EndIsTooSmall(ts[i]);
      }
    }
    MaxIsReached(ts);
  }

  lemma AlignUpFits(pos: nat, alignment: nat)
    requires 0 < pos <= MAX_I64 && 0 < alignment < U64
    ensures AlignUp(pos, alignment) < U64
  {
    hide AlignUp;
    if alignment > pos {
      AlignUpSmall(pos, alignment);
    }
  }

  lemma AlignUpSmall(pos: nat, alignment: nat)
    requires 0 < pos < alignment
    ensures AlignUp(pos, alignment) == alignment
  {
    SmallRemainder(pos, alignment);
  }

  lemma SmallRemainder(a: nat, b: nat)
    requires a < b
    ensures a % b == a
  {
    var q := a / b;
    assert q * b + a % b == a;
    ProductAtLeast(q, b);
  }

  lemma DataStartFits(h: Header)
    requires WellFormedHeader(h)
    ensures 0 < |Encode(h)| && AlignUp(|Encode(h)|, AlignmentOfHeader(h)) < U64
  {
    hide PairsAt, Encode, EncodePairs, EncodeTensors, AlignmentOf, AlignUp;
    SplitHeader(Encode(h), h);
    ReadsPairs(Encode(h), 24, h.kvs, DEFAULT_ALIGNMENT);
    AlignUpFits(|Encode(h)|, AlignmentOfHeader(h));
  }

  /** The size that the 64-bit arithmetic of the reader gives. */
  function ComputedMinSize(h: Header): nat {
    WrappingAdd(AlignUp(|Encode(h)|, AlignmentOfHeader(h)), MaxEnd(h.tensors))
  }

  /** The declared size is the exact one if and only if the exact one fits 64 bits and is reached by a
      tensor whose count fits 64 bits. */
  lemma {:induction false} DeclaredSizeIsExact(f: Bytes, h: Header)
    requires WellFormedHeader(h) && Encode(h) <= f
    ensures ExpectedMinSizeOf(f) == Ok(ComputedMinSize(h))
    ensures ComputedMinSize(h) == ExactMinSize(h) <==> ExactMinSize(h) < U64 && Reached(h.tensors)
    ensures ExactMinSize(h) < U64 ==> |Encode(h)| <= ComputedMinSize(h) <= ExactMinSize(h)
  {
    hide LayoutOf, Encode, AlignUp, MaxEnd, ExactMaxEnd, AlignmentOfHeader, WellFormedHeader, Reached;
    LayoutOfHeader(f, h);
    DataStartFits(h);
    if ExactMinSize(h) < U64 {
      MaxEndIsExact(h.tensors);
    }
  }

  /** The check tells complete from incomplete files, for all files that begin with this header. */
  ghost predicate Judges(h: Header) {
    forall f: Bytes | Encode(h) <= f && |f| <= MAX_I64 :: Accepts(Some(f)) <==> ExactMinSize(h) <= |f|
  }

  /** Where the data section begins. */
  function DataStart(h: Header): nat {
    AlignUp(|Encode(h)|, AlignmentOfHeader(h))
  }

  /** What a header must be for that. If a file can be that large: its exact size is reached by a tensor whose
      count fits 64 bits. If no file can: the tensor that ends last in the arithmetic of the reader (count
      saturated, product wrapped) still ends beyond every file, either below 2^64 or so far above it that the
      rest of the wrapped sum does too. */
  ghost predicate KeepsItsSize(h: Header) {
    var start, ts := DataStart(h), h.tensors;
    if ExactMinSize(h) <= MAX_I64 then Reached(ts)
    else if forall i | 0 <= i < |ts| :: start + EndOf(ts[i]) < U64 then
      start > MAX_I64 || exists i | 0 <= i < |ts| :: start + EndOf(ts[i]) > MAX_I64
    else
      exists i | 0 <= i < |ts| :: start + EndOf(ts[i]) > U64 + MAX_I64
  }

  /** The end of a tensor as the reader computes it, exactly: saturated count, wrapped product, saturated sum. */
  lemma EndLosses(t: Tensor)
    requires TypeSize(t.t).Some?
    ensures var b := TypeSize(t.t).value;
            var size := Min(Product(t.dims), U64 - 1) / b.elems * b.size;
            && EndOf(t) == Min(t.offset + size % U64, U64 - 1)
            && (EndOf(t) == ExactEnd(t) <==> Product(t.dims) < U64 && t.offset + size < U64)
  {
    var b := TypeSize(t.t).value;
    var size := Min(Product(t.dims), U64 - 1) / b.elems * b.size;
    if Product(t.dims) < U64 {
      if t.offset + size < U64 {
        SmallRemainder(size, U64);
      }
    } else if ExactEnd(t) < U64 {
      EndIsTooSmall(t);
    }
  }

  /** The computed size passes the largest file exactly as the ends say. */
  lemma LargeComputedSize(h: Header)
    requires WellFormedHeader(h) && ExactMinSize(h) > MAX_I64
    ensures KeepsItsSize(h) <==> ComputedMinSize(h) > MAX_I64
  {
    hide EndOf, MaxEnd, AlignUp, Encode, AlignmentOfHeader, WellFormedHeader, ExactMinSize;
    DataStartFits(h);
    forall i | 0 <= i < |h.tensors|
      ensures EndOf(h.tensors[i]) <= MaxEnd(h.tensors)
    {
      EndsBelowMax(h.tensors, i);
    }
    MaxIsReached(h.tensors);
  }

  /** The check is exact for a header if and only if its sizes survive the 64-bit arithmetic. */
  lemma {:induction false} ChecksCompleteness(h: Header)
    requires WellFormedHeader(h)
    ensures Judges(h) <==> KeepsItsSize(h)
  {
    hide Accepts, ExpectedMinSizeOf, ExactMinSize, ComputedMinSize, WellFormedHeader, Encode, Reached, DataStart, EndOf;
    if ExactMinSize(h) > MAX_I64 {
      LargeComputedSize(h);
    }
    if KeepsItsSize(h) {
      forall f: Bytes | Encode(h) <= f && |f| <= MAX_I64
        ensures Accepts(Some(f)) <==> ExactMinSize(h) <= |f|
      {
        DeclaredSizeIsExact(f, h);
        AcceptsFrom(f, ComputedMinSize(h));
      }
    } else {
      DeclaredSizeIsExact(Encode(h), h);
      var f := ShortFile(h);
      DeclaredSizeIsExact(f, h);
      AcceptsFrom(f, ComputedMinSize(h));
    }
  }

  lemma AcceptsFrom(f: Bytes, n: nat)
    requires ExpectedMinSizeOf(f) == Ok(n)
    ensures Accepts(Some(f)) <==> n <= |f|
  {
  }

  /** The header and zeros up to the computed size. */
  lemma ShortFile(h: Header) returns (f: Bytes)
    requires WellFormedHeader(h) && ComputedMinSize(h) <= MAX_I64
    ensures Encode(h) <= f && |f| == Max(ComputedMinSize(h), |Encode(h)|) <= MAX_I64
  {
    hide ComputedMinSize, Encode;
    var n := Max(ComputedMinSize(h), |Encode(h)|) - |Encode(h)|;
    f := Encode(h) + seq(n, _ => 0);
  }

  // Headers that lose their size

  // One F32 tensor of 2^62 elements: its 2^64 bytes wrap around to 0.
  const HUGE: Tensor := Tensor([119], [0x4000_0000_0000_0000], 0, 0)
  const WRAPPING: Header := Header(3, [], [HUGE])

  lemma HugeTensor()
    ensures WellFormedTensor(HUGE) && |EncodeTensor(HUGE)| == 33
    ensures Product(HUGE.dims) == 0x4000_0000_0000_0000
    ensures EndOf(HUGE) == 0 && ExactEnd(HUGE) == U64
  {
    assert EncodeDims(HUGE.dims) == ToLE(8, HUGE.dims[0]) + EncodeDims([]);
    assert Product(HUGE.dims) == HUGE.dims[0] * Product([]);
  }

  lemma WrappingHeader()
    ensures WellFormedHeader(WRAPPING) && |Encode(WRAPPING)| == 57
    ensures MaxEnd(WRAPPING.tensors) == 0 && ExactMaxEnd(WRAPPING.tensors) == U64
    ensures AlignmentOfHeader(WRAPPING) == 32
  {
    hide EncodeTensor, EndOf, ExactEnd, EncodePair;
    HugeTensor();
    assert EncodeTensors(WRAPPING.tensors) == EncodeTensor(HUGE) + EncodeTensors([]);
    assert MaxEnd(WRAPPING.tensors) == Max(EndOf(HUGE), MaxEnd([]));
    assert ExactMaxEnd(WRAPPING.tensors) == Max(ExactEnd(HUGE), ExactMaxEnd([]));
  }

  /** Its product wraps around: the check accepts a file that ends before its only tensor. */
  lemma {:induction false} WrapAroundAcceptsShortFile()
    ensures WellFormedHeader(WRAPPING) && !KeepsItsSize(WRAPPING)
    ensures ExactMinSize(WRAPPING) == U64 + 64
    ensures Accepts(Some(Encode(WRAPPING) + seq(7, _ => 0)))
  {
    hide LayoutOf, Encode, MaxEnd, ExactMaxEnd, AlignmentOfHeader, EncodeTensor, EncodeTensors, EncodePairs, EncodeCounts;
    HugeTensor();
    WrappingHeader();
    LayoutOfHeader(Encode(WRAPPING) + seq(7, _ => 0), WRAPPING);
  }

  // One F32 number at the last offset: the sum with the data start wraps around.
  const FAR: Tensor := Tensor([119], [], 0, U64 - 1)
  const FAR_HEADER: Header := Header(3, [], [FAR])

  lemma FarTensor()
    ensures WellFormedTensor(FAR) && |EncodeTensor(FAR)| == 25
    ensures EndOf(FAR) == U64 - 1 && ExactEnd(FAR) == U64 + 3
  {
    assert EncodeDims(FAR.dims) == [];
    assert Product(FAR.dims) == 1;
  }

  lemma OneTensor(t: Tensor)
    requires WellFormedTensor(t) && |EncodeTensor(t)| <= 1000
    ensures WellFormedHeader(Header(3, [], [t])) && |Encode(Header(3, [], [t]))| == 24 + |EncodeTensor(t)|
    ensures MaxEnd([t]) == EndOf(t) && ExactMaxEnd([t]) == ExactEnd(t)
    ensures AlignmentOfHeader(Header(3, [], [t])) == 32
  {
    hide EncodeTensor, EndOf, ExactEnd, EncodePair, WellFormedTensor;
    assert EncodeTensors([t]) == EncodeTensor(t) + EncodeTensors([]);
    assert MaxEnd([t]) == Max(EndOf(t), MaxEnd([]));
    assert ExactMaxEnd([t]) == Max(ExactEnd(t), ExactMaxEnd([]));
  }

  /** Its last sum wraps around: the check accepts a file that ends before its data section. */
  lemma FarOffsetAcceptsShortFile()
    ensures WellFormedHeader(FAR_HEADER) && !KeepsItsSize(FAR_HEADER)
    ensures ExactMinSize(FAR_HEADER) == U64 + 67 && ComputedMinSize(FAR_HEADER) == 63
    ensures Accepts(Some(Encode(FAR_HEADER) + seq(14, _ => 0)))
  {
    hide Accepts, ExpectedMinSizeOf, Encode, MaxEnd, ExactMaxEnd, AlignmentOfHeader, EncodeTensor, EndOf, ExactEnd, WellFormedHeader;
    FarTensor();
    OneTensor(FAR);
    var f := Encode(FAR_HEADER) + seq(14, _ => 0);
    DeclaredSizeIsExact(f, FAR_HEADER);
    AcceptsFrom(f, 63);
  }

  // 2^64 elements in blocks of 256 elements and 84 bytes: the count saturates at 2^64 - 1.
  const MANY: Tensor := Tensor([119], [U32, U32], 10, 0)
  const MANY_HEADER: Header := Header(3, [], [MANY])

  lemma ManyTensor()
    ensures WellFormedTensor(MANY) && |EncodeTensor(MANY)| == 41
  {
    hide EndOf, ExactEnd;
    assert MANY.dims[1..] == [U32] && [U32][1..] == [];
    assert EncodeDims([U32]) == ToLE(8, U32) + EncodeDims([]);
    assert EncodeDims(MANY.dims) == ToLE(8, U32) + EncodeDims([U32]);
  }

  lemma ManyElements()
    ensures ExactEnd(MANY) == 0x100_0000_0000_0000 * 84 && EndOf(MANY) == ExactEnd(MANY) - 84
  {
    assert MANY.dims[1..] == [U32] && [U32][1..] == [];
    assert Product([U32]) == U32 * Product([]);
    assert Product(MANY.dims) == U32 * Product([U32]) == U64;
  }

  /** Its count saturates: the check accepts a file that lacks the last block. */
  lemma {:induction false} SaturatedCountAcceptsShortFile() returns (f: Bytes)
    ensures WellFormedHeader(MANY_HEADER) && !KeepsItsSize(MANY_HEADER)
    ensures Encode(MANY_HEADER) <= f && |f| == ExactMinSize(MANY_HEADER) - 84 && Accepts(Some(f))
  {
    hide Accepts, ExpectedMinSizeOf, Encode, MaxEnd, ExactMaxEnd, AlignmentOfHeader, EncodeTensor, EndOf, ExactEnd, WellFormedHeader;
    ManyTensor();
    ManyElements();
    OneTensor(MANY);
    f := ShortFile(MANY_HEADER);
    DeclaredSizeIsExact(f, MANY_HEADER);
    AcceptsFrom(f, ComputedMinSize(MANY_HEADER));
  }
}
