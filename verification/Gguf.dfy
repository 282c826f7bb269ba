/**
 The truncation check of GGUF model files (src/gguf.rs).

 The functions `...At(f, pos)` say what each reader step does on the file `f` at the
 position `pos`; the class `Reader` moves its cursor step by step and is proved against
 them. A skip is a seek, so it may leave the cursor behind the end of the file.
 Integer arithmetic is that of the release build: it wraps around at 2^64.
 */
module Gguf {
  import opened Common

  datatype Error =
    | HeaderTruncated
    | ReadFailed
    | BadLength
    | SeekFailed
    | ImplausibleString(len: nat)
    | BadArray
    | UnknownValueType(t: nat)
    | BadMagic

  const MAGIC: Bytes := [0x47, 0x47, 0x55, 0x46]
  const STRING := 8
  const ARRAY := 9
  const MAX_STRING := 0x10_0000
  const DEFAULT_ALIGNMENT := 32

  predicate IsAlignmentKey(key: Bytes) {
    // "general.alignment"
    key == [103, 101, 110, 101, 114, 97, 108, 46, 97, 108, 105, 103, 110, 109, 101, 110, 116]
  }

  datatype Block = Block(elems: nat, size: nat)

  /** Elements and bytes of one block of a ggml tensor type. */
  function TypeSize(t: nat): (b: Option<Block>)
    ensures b.Some? ==> b.value.elems in {1, 32, 256} && 0 < b.value.size <= 292
  {
    match t
    case 0 => Some(Block(1, 4))
    case 1 => Some(Block(1, 2))
    case 2 => Some(Block(32, 18))
    case 3 => Some(Block(32, 20))
    case 6 => Some(Block(32, 22))
    case 7 => Some(Block(32, 24))
    case 8 => Some(Block(32, 34))
    case 9 => Some(Block(32, 36))
    case 10 => Some(Block(256, 84))
    case 11 => Some(Block(256, 110))
    case 12 => Some(Block(256, 144))
    case 13 => Some(Block(256, 176))
    case 14 => Some(Block(256, 210))
    case 15 => Some(Block(256, 292))
    case 18 => Some(Block(256, 98))
    case 20 => Some(Block(32, 18))
    case 21 => Some(Block(256, 110))
    case 23 => Some(Block(256, 136))
    case 24 => Some(Block(1, 1))
    case 25 => Some(Block(1, 2))
    case 26 => Some(Block(1, 4))
    case 27 => Some(Block(1, 8))
    case 28 => Some(Block(1, 8))
    case 30 => Some(Block(1, 2))
    case 39 => Some(Block(32, 17))
    case _ => None
  }

  function ScalarSize(t: nat): (n: Option<nat>)
    ensures n.Some? ==> n.value in {1, 2, 4, 8} && t != STRING && t != ARRAY
  {
    if t == 0 || t == 1 || t == 7 then Some(1)
    else if t == 2 || t == 3 then Some(2)
    else if 4 <= t <= 6 then Some(4)
    else if 10 <= t <= 12 then Some(8)
    else None
  }

  /** A value and the cursor behind it. */
  datatype At<+T> = At(value: T, pos: nat)

  type Parsed<+T> = Result<At<T>, Error>

  function ReadAt(f: Bytes, pos: nat, n: nat, error: Error): (r: Parsed<Bytes>)
    ensures r.Ok? ==> |r.value.value| == n && r.value.pos == pos + n
  {
    // Reading no bytes never fails, also behind the end of the file.
    if n == 0 then Ok(At([], pos))
    else if pos + n <= |f| then Ok(At(f[pos..pos + n], pos + n))
    else Err(error)
  }

  function NumberAt(f: Bytes, pos: nat, width: nat): (r: Parsed<nat>)
    ensures r.Ok? ==> r.value.pos == pos + width
    ensures r.Ok? && width > 0 ==> pos + width <= |f|
  {
    var b :- ReadAt(f, pos, width, HeaderTruncated);
    Ok(At(FromLE(b.value), b.pos))
  }

  function SkipAt(pos: nat, n: nat): (r: Result<nat, Error>)
    ensures r.Ok? ==> r.value == pos + n
  {
    if n > MAX_I64 then Err(BadLength)
    else if pos + n > MAX_I64 then Err(SeekFailed)
    else Ok(pos + n)
  }

  function StringAt(f: Bytes, pos: nat): (r: Parsed<Bytes>)
    ensures r.Ok? ==> r.value.pos == pos + 8 + |r.value.value|
  {
    var len :- NumberAt(f, pos, 8);
    if len.value > MAX_STRING then Err(ImplausibleString(len.value))
    else ReadAt(f, len.pos, len.value, HeaderTruncated)
  }

  function Left(f: Bytes, pos: nat): nat {
    if pos <= |f| then |f| - pos else 0
  }

  /** The position behind one value of type `t`. */
  function SkipValueAt(f: Bytes, pos: nat, t: nat): (r: Result<nat, Error>)
    ensures r.Ok? ==> pos <= r.value
    ensures r.Ok? && ScalarSize(t).None? ==> pos + 8 <= Min(|f|, r.value)
    decreases Left(f, pos), 0, 0
  {
    match ScalarSize(t)
    case Some(n) => SkipAt(pos, n)
    case None =>
      if t == STRING then
        var len :- NumberAt(f, pos, 8);
        SkipAt(len.pos, len.value)
      else if t == ARRAY then
        var elem :- NumberAt(f, pos, 4);
        var count :- NumberAt(f, elem.pos, 8);
        match ScalarSize(elem.value)
        case Some(n) =>
          if n * count.value >= U64 then Err(BadArray) else SkipAt(count.pos, n * count.value)
        case None => SkipManyAt(f, count.pos, elem.value, count.value)
      else Err(UnknownValueType(t))
  }

  /** The position behind `count` values of the type `t`. Each one reads at least 8 bytes. */
  function SkipManyAt(f: Bytes, pos: nat, t: nat, count: nat): (r: Result<nat, Error>)
    requires ScalarSize(t).None?
    ensures r.Ok? ==> pos + 8 * count <= r.value
    ensures r.Ok? && count > 0 ==> pos + 8 * count <= |f|
    decreases Left(f, pos), 1, count
  {
    if count == 0 then Ok(pos)
    else
      var p :- SkipValueAt(f, pos, t);
      SkipManyAt(f, p, t, count - 1)
  }

  /** The alignment and the position behind one metadata pair. */
  function PairAt(f: Bytes, pos: nat, alignment: nat): (r: Parsed<nat>)
    requires 0 < alignment < U64
    ensures r.Ok? ==> pos <= r.value.pos && 0 < r.value.value < U64
  {
    var key :- StringAt(f, pos);
    var t :- NumberAt(f, key.pos, 4);
    if ScalarSize(t.value).Some? && IsAlignmentKey(key.value) then
      var b :- ReadAt(f, t.pos, ScalarSize(t.value).value, ReadFailed);
      AlignmentBound(b.value);
      Ok(At(Max(FromLE(b.value), 1), b.pos))
    else
      var p :- SkipValueAt(f, t.pos, t.value);
      Ok(At(alignment, p))
  }

  /** The alignment and the position behind `kvs` metadata pairs. */
  function PairsAt(f: Bytes, pos: nat, kvs: nat, alignment: nat): (r: Parsed<nat>)
    requires 0 < alignment < U64
    ensures r.Ok? ==> pos <= r.value.pos && 0 < r.value.value < U64
    decreases kvs
  {
    if kvs == 0 then Ok(At(alignment, pos))
    else
      var a :- PairAt(f, pos, alignment);
      PairsAt(f, a.pos, kvs - 1, a.value)
  }

  lemma AlignmentBound(b: Bytes)
    requires |b| in {1, 2, 4, 8}
    ensures FromLE(b) < U64
  {
    FromLEBound(b);
    Pow256Values();
  }

  function SaturatingMul(a: nat, b: nat): nat {
    Min(a * b, U64 - 1)
  }

  function SaturatingAdd(a: nat, b: nat): nat {
    Min(a + b, U64 - 1)
  }

  /** The 64-bit sum of two numbers below 2^64. */
  function WrappingAdd(a: nat, b: nat): nat {
    if a + b < U64 then a + b else a + b - U64
  }

  function DimsAt(f: Bytes, pos: nat, dims: nat, elems: nat): (r: Parsed<nat>)
    requires elems < U64
    ensures r.Ok? ==> pos <= r.value.pos && r.value.value < U64
    decreases dims
  {
    if dims == 0 then Ok(At(elems, pos))
    else
      var d :- NumberAt(f, pos, 8);
      DimsAt(f, d.pos, dims - 1, SaturatingMul(elems, d.value))
  }

  /** The end of one tensor in the data section; 0 for a type that is not known. */
  function TensorEnd(t: nat, elems: nat, offset: nat): (end: nat)
    ensures end < U64
  {
    match TypeSize(t)
    case Some(b) => SaturatingAdd(offset, elems / b.elems * b.size % U64)
    case None => 0
  }

  /** The end of the tensor that one table entry declares. */
  function TensorAt(f: Bytes, pos: nat): (r: Parsed<nat>)
    ensures r.Ok? ==> pos <= r.value.pos && r.value.value < U64
  {
    var name :- StringAt(f, pos);
    var dims :- NumberAt(f, name.pos, 4);
    var elems :- DimsAt(f, dims.pos, dims.value, 1);
    var t :- NumberAt(f, elems.pos, 4);
    var offset :- NumberAt(f, t.pos, 8);
    Ok(At(TensorEnd(t.value, elems.value, offset.value), offset.pos))
  }

  function TensorsAt(f: Bytes, pos: nat, tensors: nat, maxEnd: nat): (r: Parsed<nat>)
    requires maxEnd < U64
    ensures r.Ok? ==> pos <= r.value.pos && r.value.value < U64
    decreases tensors
  {
    if tensors == 0 then Ok(At(maxEnd, pos))
    else
      var end :- TensorAt(f, pos);
      TensorsAt(f, end.pos, tensors - 1, Max(maxEnd, end.value))
  }

  function AlignUp(pos: nat, alignment: nat): (start: nat)
    requires alignment > 0
    ensures pos <= start < pos + alignment
  {
    if pos % alignment == 0 then pos else pos + (alignment - pos % alignment)
  }

  /** The data section starts at the next multiple of the alignment. */
  lemma AlignUpIsNextMultiple(pos: nat, alignment: nat) returns (k: nat)
    requires alignment > 0
    ensures AlignUp(pos, alignment) == k * alignment
    ensures (k - 1) * alignment < pos <= k * alignment
  {
    k := pos / alignment;
    if pos % alignment != 0 {
      k := k + 1;
    }
  }

  datatype Counts = Counts(tensors: nat, kvs: nat)

  /** The magic, the version (any) and the two counts in front of the metadata. */
  function CountsAt(f: Bytes, pos: nat): (r: Parsed<Counts>)
    ensures r.Ok? ==> r.value.pos == pos + 24
  {
    var magic :- ReadAt(f, pos, 4, HeaderTruncated);
    if magic.value != MAGIC then Err(BadMagic)
    else
      var version :- NumberAt(f, magic.pos, 4);
      var tensors :- NumberAt(f, version.pos, 8);
      var kvs :- NumberAt(f, tensors.pos, 8);
      Ok(At(Counts(tensors.value, kvs.value), kvs.pos))
  }

  /** What the header declares: the start of the data section and the end of its last tensor. */
  datatype Layout = Layout(dataStart: nat, maxEnd: nat)

  function LayoutOf(f: Bytes): (r: Result<Layout, Error>)
    ensures r.Ok? ==> r.value.maxEnd < U64
  {
    var counts :- CountsAt(f, 0);
    var pairs :- PairsAt(f, counts.pos, counts.value.kvs, DEFAULT_ALIGNMENT);
    var end :- TensorsAt(f, pairs.pos, counts.value.tensors, 0);
    Ok(Layout(AlignUp(end.pos, pairs.value), end.value))
  }

  function ExpectedMinSizeOf(f: Bytes): Result<nat, Error> {
    var l :- LayoutOf(f);
    Ok(WrappingAdd(l.dataStart, l.maxEnd))
  }

  /** The verdict on a path: None stands for a path without a regular file. */
  predicate Accepts(file: Option<Bytes>) {
    match file
    case None => false
    case Some(f) =>
      match ExpectedMinSizeOf(f)
      case Ok(n) => n <= |f|
      case Err(_) => false
  }

  /** One metadata pair: its value if it is a string with the key `wanted`. */
  function EntryAt(f: Bytes, pos: nat, wanted: Bytes): (r: Parsed<Option<Bytes>>)
    ensures r.Ok? ==> pos <= r.value.pos
  {
    var key :- StringAt(f, pos);
    var t :- NumberAt(f, key.pos, 4);
    if key.value == wanted && t.value == STRING then
      var s :- StringAt(f, t.pos);
      Ok(At(Some(s.value), s.pos))
    else
      var p :- SkipValueAt(f, t.pos, t.value);
      Ok(At(None, p))
  }

  /** The value of the first of `kvs` pairs with the key `wanted` and the type string. */
  function FindStringAt(f: Bytes, pos: nat, kvs: nat, wanted: Bytes): Result<Option<Bytes>, Error>
    decreases kvs
  {
    if kvs == 0 then Ok(None)
    else
      var e :- EntryAt(f, pos, wanted);
      if e.value.Some? then Ok(e.value) else FindStringAt(f, e.pos, kvs - 1, wanted)
  }

  function MetadataStringOf(f: Bytes, wanted: Bytes): Result<Option<Bytes>, Error> {
    var counts :- CountsAt(f, 0);
    FindStringAt(f, counts.pos, counts.value.kvs, wanted)
  }

  /** `r` and the cursor `pos` are what `spec` says; an error leaves the cursor anywhere. */
  ghost predicate Agrees<T>(spec: Parsed<T>, r: Result<T, Error>, pos: nat) {
    match spec
    case Ok(a) => r == Ok(a.value) && pos == a.pos
    case Err(e) => r == Err(e)
  }

  ghost predicate Moved(spec: Result<nat, Error>, r: Result<(), Error>, pos: nat) {
    match spec
    case Ok(p) => r == Ok(()) && pos == p
    case Err(e) => r == Err(e)
  }

  /** A file with a cursor. */
  class Reader {
    const data: Bytes
    var pos: nat

    constructor (data: Bytes)
      ensures this.data == data && pos == 0
    {
      this.data := data;
      pos := 0;
    }

    method Read(n: nat, error: Error) returns (r: Result<Bytes, Error>)
      modifies this
      ensures Agrees(ReadAt(data, old(pos), n, error), r, pos)
    {
      if n == 0 {
        return Ok([]);
      }
      if pos + n > |data| {
        pos := Max(pos, |data|);
        return Err(error);
      }
      r := Ok(data[pos..pos + n]);
      pos := pos + n;
    }

    method Number(width: nat) returns (r: Result<nat, Error>)
      modifies this
      ensures Agrees(NumberAt(data, old(pos), width), r, pos)
    {
      var b :- Read(width, HeaderTruncated);
      return Ok(FromLE(b));
    }

    method Skip(n: nat) returns (r: Result<(), Error>)
      modifies this
      ensures Moved(SkipAt(old(pos), n), r, pos)
    {
      if n > MAX_I64 {
        return Err(BadLength);
      }
      if pos + n > MAX_I64 {
        return Err(SeekFailed);
      }
      pos := pos + n;
      return Ok(());
    }

    method String() returns (r: Result<Bytes, Error>)
      modifies this
      ensures Agrees(StringAt(data, old(pos)), r, pos)
    {
      var len :- Number(8);
      if len > MAX_STRING {
        return Err(ImplausibleString(len));
      }
      r := Read(len, HeaderTruncated);
    }

    method SkipValue(t: nat) returns (r: Result<(), Error>)
      modifies this
      ensures Moved(SkipValueAt(data, old(pos), t), r, pos)
      decreases Left(data, pos)
    {
      match ScalarSize(t)
      case Some(n) =>
        r := Skip(n);
      case None =>
        if t == STRING {
          var len :- Number(8);
          r := Skip(len);
        } else if t == ARRAY {
          var elem :- Number(4);
          var count :- Number(8);
          match ScalarSize(elem)
          case Some(n) =>
            if n * count >= U64 {
              return Err(BadArray);
            }
            r := Skip(n * count);
          case None =>
            ghost var first := pos;
            for i := 0 to count
              invariant first <= pos
              invariant SkipManyAt(data, first, elem, count) == SkipManyAt(data, pos, elem, count - i)
            {
              var _ :- SkipValue(elem);
            }
            return Ok(());
        } else {
          return Err(UnknownValueType(t));
        }
    }

    method ReadCounts() returns (r: Result<Counts, Error>)
      modifies this
      ensures Agrees(CountsAt(data, old(pos)), r, pos)
    {
      var magic :- Read(4, HeaderTruncated);
      if magic != MAGIC {
        return Err(BadMagic);
      }
      var version :- Number(4);
      var tensors :- Number(8);
      var kvs :- Number(8);
      return Ok(Counts(tensors, kvs));
    }

    method Pair(alignment: nat) returns (r: Result<nat, Error>)
      requires 0 < alignment < U64
      modifies this
      ensures Agrees(PairAt(data, old(pos), alignment), r, pos)
    {
      hide IsAlignmentKey;
      var key :- String();
      var t :- Number(4);
      var size := ScalarSize(t);
      if size.Some? && IsAlignmentKey(key) {
        var b :- Read(size.value, ReadFailed);
        return Ok(Max(FromLE(b), 1));
      }
      var _ :- SkipValue(t);
      return Ok(alignment);
    }

    method Entry(wanted: Bytes) returns (r: Result<Option<Bytes>, Error>)
      modifies this
      ensures Agrees(EntryAt(data, old(pos), wanted), r, pos)
    {
      var key :- String();
      var t :- Number(4);
      if key == wanted && t == STRING {
        var s :- String();
        return Ok(Some(s));
      }
      var _ :- SkipValue(t);
      return Ok(None);
    }

    /** The metadata loop of the size check: the last alignment wins. */
    method Pairs(kvs: nat) returns (r: Result<nat, Error>)
      modifies this
      ensures Agrees(PairsAt(data, old(pos), kvs, DEFAULT_ALIGNMENT), r, pos)
    {
      hide PairAt;
      var alignment: nat := DEFAULT_ALIGNMENT;
      ghost var first := pos;
      for i := 0 to kvs
        invariant 0 < alignment < U64
        invariant PairsAt(data, first, kvs, DEFAULT_ALIGNMENT) == PairsAt(data, pos, kvs - i, alignment)
      {
        alignment :- Pair(alignment);
      }
      return Ok(alignment);
    }

    method Dims(dims: nat) returns (r: Result<nat, Error>)
      modifies this
      ensures Agrees(DimsAt(data, old(pos), dims, 1), r, pos)
    {
      var elems: nat := 1;
      ghost var first := pos;
      for d := 0 to dims
        invariant elems < U64
        invariant DimsAt(data, first, dims, 1) == DimsAt(data, pos, dims - d, elems)
      {
        var n :- Number(8);
        elems := SaturatingMul(elems, n);
      }
      return Ok(elems);
    }

    method Tensor() returns (r: Result<nat, Error>)
      modifies this
      ensures Agrees(TensorAt(data, old(pos)), r, pos)
    {
      hide TensorEnd;
      var name :- String();
      var dims :- Number(4);
      var elems :- Dims(dims);
      var t :- Number(4);
      var offset :- Number(8);
      return Ok(TensorEnd(t, elems, offset));
    }

    /** The tensor loop of the size check: the largest end of a tensor of a known type. */
    method Tensors(tensors: nat) returns (r: Result<nat, Error>)
      modifies this
      ensures Agrees(TensorsAt(data, old(pos), tensors, 0), r, pos)
    {
      hide TensorAt;
      var maxEnd: nat := 0;
      ghost var first := pos;
      for i := 0 to tensors
        invariant maxEnd < U64
        invariant TensorsAt(data, first, tensors, 0) == TensorsAt(data, pos, tensors - i, maxEnd)
      {
        var end :- Tensor();
        maxEnd := Max(maxEnd, end);
      }
      return Ok(maxEnd);
    }
  }

  method ExpectedMinSize(f: Bytes) returns (r: Result<nat, Error>)
    ensures r == ExpectedMinSizeOf(f)
  {
    hide PairsAt, TensorsAt, CountsAt;
    var file := new Reader(f);
    var counts :- file.ReadCounts();
    var alignment :- file.Pairs(counts.kvs);
    var maxEnd :- file.Tensors(counts.tensors);
    var start := file.pos;
    if start % alignment != 0 {
      start := start + (alignment - start % alignment);
    }
    return Ok(WrappingAdd(start, maxEnd));
  }

  method MetadataString(f: Bytes, wanted: Bytes) returns (r: Result<Option<Bytes>, Error>)
    ensures r == MetadataStringOf(f, wanted)
  {
    var file := new Reader(f);
    hide EntryAt, CountsAt;
    var counts :- file.ReadCounts();
    var kvs := counts.kvs;
    ghost var first := file.pos;
    for i := 0 to kvs
      invariant FindStringAt(f, first, kvs, wanted) == FindStringAt(f, file.pos, kvs - i, wanted)
    {
      var found :- file.Entry(wanted);
      if found.Some? {
        return Ok(found);
      }
    }
    return Ok(None);
  }

  method Check(file: Option<Bytes>) returns (ok: bool)
    ensures ok == Accepts(file)
  {
    if file.None? {
      return false;
    }
    var want := ExpectedMinSize(file.value);
    match want
    case Err(_) => return false;
    case Ok(n) => return n <= |file.value|;
  }
}
