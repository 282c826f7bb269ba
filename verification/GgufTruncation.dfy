/**
 A GGUF file that was cut is either unreadable or declares the size of the whole file.

 Each `Same...` lemma compares one parser step on a file `g` and on a prefix `f` of it:
 if the step succeeds on `f`, or if on `g` it ends inside `f`, both give the same result.
 */
module GgufTruncation {
  import opened Common
  import opened Gguf

  /** The step succeeds on the prefix, or it ends inside the prefix on the whole file. */
  ghost predicate Settled<T>(f: Bytes, onF: Parsed<T>, onG: Parsed<T>) {
    onF.Ok? || (onG.Ok? && onG.value.pos <= |f|)
  }

  ghost predicate SettledSkip(f: Bytes, onF: Result<nat, Error>, onG: Result<nat, Error>) {
    onF.Ok? || (onG.Ok? && onG.value <= |f|)
  }

  lemma SameRead(f: Bytes, g: Bytes, pos: nat, n: nat, error: Error)
    requires f <= g
    requires Settled(f, ReadAt(f, pos, n, error), ReadAt(g, pos, n, error))
    ensures ReadAt(f, pos, n, error) == ReadAt(g, pos, n, error)
  {
    if n > 0 && pos + n <= |f| {
      assert g[..|f|] == f;
      assert f[pos..pos + n] == g[pos..pos + n];
    }
  }

  lemma SameNumber(f: Bytes, g: Bytes, pos: nat, width: nat)
    requires f <= g
    requires Settled(f, NumberAt(f, pos, width), NumberAt(g, pos, width))
    ensures NumberAt(f, pos, width) == NumberAt(g, pos, width)
  {
    SameRead(f, g, pos, width, HeaderTruncated);
  }

  lemma SameString(f: Bytes, g: Bytes, pos: nat)
    requires f <= g
    requires Settled(f, StringAt(f, pos), StringAt(g, pos))
    ensures StringAt(f, pos) == StringAt(g, pos)
  {
    SameNumber(f, g, pos, 8);
    var len := NumberAt(g, pos, 8).value;
    SameRead(f, g, len.pos, len.value, HeaderTruncated);
  }

  lemma {:induction false} SameSkipValue(f: Bytes, g: Bytes, pos: nat, t: nat)
    requires f <= g
    requires SettledSkip(f, SkipValueAt(f, pos, t), SkipValueAt(g, pos, t))
    ensures SkipValueAt(f, pos, t) == SkipValueAt(g, pos, t)
    decreases Left(g, pos), 0, 0
  {
    if ScalarSize(t).None? && t == STRING {
      SameNumber(f, g, pos, 8);
    } else if ScalarSize(t).None? {
      SameNumber(f, g, pos, 4);
      var elem := NumberAt(g, pos, 4).value;
      SameNumber(f, g, elem.pos, 8);
      var count := NumberAt(g, elem.pos, 8).value;
      if ScalarSize(elem.value).None? {
        SameSkipMany(f, g, count.pos, elem.value, count.value);
      }
    }
  }

  lemma {:induction false} SameSkipMany(f: Bytes, g: Bytes, pos: nat, t: nat, count: nat)
    requires f <= g && ScalarSize(t).None?
    requires SettledSkip(f, SkipManyAt(f, pos, t, count), SkipManyAt(g, pos, t, count))
    ensures SkipManyAt(f, pos, t, count) == SkipManyAt(g, pos, t, count)
    decreases Left(g, pos), 1, count
  {
    if count > 0 {
      SameSkipValue(f, g, pos, t);
      SameSkipMany(f, g, SkipValueAt(g, pos, t).value, t, count - 1);
    }
  }

  lemma SamePair(f: Bytes, g: Bytes, pos: nat, alignment: nat)
    requires f <= g && 0 < alignment < U64
    requires Settled(f, PairAt(f, pos, alignment), PairAt(g, pos, alignment))
    ensures PairAt(f, pos, alignment) == PairAt(g, pos, alignment)
  {
    hide IsAlignmentKey;
    SameString(f, g, pos);
    var key := StringAt(g, pos).value;
    SameNumber(f, g, key.pos, 4);
    var t := NumberAt(g, key.pos, 4).value;
    if ScalarSize(t.value).Some? && IsAlignmentKey(key.value) {
      SameRead(f, g, t.pos, ScalarSize(t.value).value, ReadFailed);
    } else {
      SameSkipValue(f, g, t.pos, t.value);
    }
  }

  lemma {:induction false} SamePairs(f: Bytes, g: Bytes, pos: nat, kvs: nat, alignment: nat)
    requires f <= g && 0 < alignment < U64
    requires Settled(f, PairsAt(f, pos, kvs, alignment), PairsAt(g, pos, kvs, alignment))
    ensures PairsAt(f, pos, kvs, alignment) == PairsAt(g, pos, kvs, alignment)
    decreases kvs
  {
    hide PairAt;
    if kvs > 0 {
      SamePair(f, g, pos, alignment);
      var a := PairAt(g, pos, alignment).value;
      SamePairs(f, g, a.pos, kvs - 1, a.value);
    }
  }

  lemma {:induction false} SameDims(f: Bytes, g: Bytes, pos: nat, dims: nat, elems: nat)
    requires f <= g && elems < U64
    requires Settled(f, DimsAt(f, pos, dims, elems), DimsAt(g, pos, dims, elems))
    ensures DimsAt(f, pos, dims, elems) == DimsAt(g, pos, dims, elems)
    decreases dims
  {
    if dims > 0 {
      SameNumber(f, g, pos, 8);
      var d := NumberAt(g, pos, 8).value;
      SameDims(f, g, d.pos, dims - 1, SaturatingMul(elems, d.value));
    }
  }

  lemma SameTensor(f: Bytes, g: Bytes, pos: nat)
    requires f <= g
    requires Settled(f, TensorAt(f, pos), TensorAt(g, pos))
    ensures TensorAt(f, pos) == TensorAt(g, pos)
  {
    hide TensorEnd;
    SameString(f, g, pos);
    var name := StringAt(g, pos).value;
    SameNumber(f, g, name.pos, 4);
    var dims := NumberAt(g, name.pos, 4).value;
    SameDims(f, g, dims.pos, dims.value, 1);
    var elems := DimsAt(g, dims.pos, dims.value, 1).value;
    SameNumber(f, g, elems.pos, 4);
    var t := NumberAt(g, elems.pos, 4).value;
    SameNumber(f, g, t.pos, 8);
  }

  lemma {:induction false} SameTensors(f: Bytes, g: Bytes, pos: nat, tensors: nat, maxEnd: nat)
    requires f <= g && maxEnd < U64
    requires Settled(f, TensorsAt(f, pos, tensors, maxEnd), TensorsAt(g, pos, tensors, maxEnd))
    ensures TensorsAt(f, pos, tensors, maxEnd) == TensorsAt(g, pos, tensors, maxEnd)
    decreases tensors
  {
    hide TensorAt;
    if tensors > 0 {
      SameTensor(f, g, pos);
      var end := TensorAt(g, pos).value;
      SameTensors(f, g, end.pos, tensors - 1, Max(maxEnd, end.value));
    }
  }

  lemma SameCounts(f: Bytes, g: Bytes)
    requires f <= g
    requires Settled(f, CountsAt(f, 0), CountsAt(g, 0))
    ensures CountsAt(f, 0) == CountsAt(g, 0)
  {
    SameRead(f, g, 0, 4, HeaderTruncated);
    SameNumber(f, g, 4, 4);
    SameNumber(f, g, 8, 8);
    SameNumber(f, g, 16, 8);
  }

  /** A readable prefix, or a prefix that reaches the data section, declares the same layout. */
  lemma SameLayout(f: Bytes, g: Bytes)
    requires f <= g
    requires LayoutOf(f).Ok? || (LayoutOf(g).Ok? && LayoutOf(g).value.dataStart <= |f|)
    ensures LayoutOf(f) == LayoutOf(g)
  {
    SameCounts(f, g);
    var counts := CountsAt(g, 0).value;
    SamePairs(f, g, counts.pos, counts.value.kvs, DEFAULT_ALIGNMENT);
    var pairs := PairsAt(g, counts.pos, counts.value.kvs, DEFAULT_ALIGNMENT).value;
    SameTensors(f, g, pairs.pos, counts.value.tensors, 0);
  }

  /** The truncation theorem: no prefix of a file declares another size, so no prefix that is
      shorter than the declared size passes the check. */
  lemma TruncationTheorem(f: Bytes, k: nat, n: nat)
    requires k <= |f| && ExpectedMinSizeOf(f) == Ok(n)
    ensures ExpectedMinSizeOf(f[..k]).Err? || ExpectedMinSizeOf(f[..k]) == Ok(n)
    ensures k < n ==> !Accepts(Some(f[..k]))
    ensures Accepts(Some(f)) <==> n <= |f|
  {
    hide LayoutOf;
    if LayoutOf(f[..k]).Ok? {
      SameLayout(f[..k], f);
    }
  }

  /** The sum of the data start and the largest tensor end, before it wraps around. The tensor ends are
      those that the reader computed, in 64 bits. */
  function ComputedEnd(l: Layout): nat {
    l.dataStart + l.maxEnd
  }

  /** The check accepts exactly the prefixes that reach the computed end. */
  ghost predicate ExactOnPrefixes(f: Bytes, l: Layout) {
    forall k: nat | k <= |f| :: Accepts(Some(f[..k])) <==> ComputedEnd(l) <= k
  }

  lemma {:induction false} AcceptedPrefix(f: Bytes, l: Layout, k: nat)
    requires k <= |f| && LayoutOf(f) == Ok(l)
    requires ComputedEnd(l) < U64
    ensures Accepts(Some(f[..k])) <==> ComputedEnd(l) <= k
  {
    hide LayoutOf;
    if LayoutOf(f[..k]).Ok? || l.dataStart <= k {
      SameLayout(f[..k], f);
    }
  }

  /** What the last addition does: for a file that reaches its data section, the check follows the
      computed end on all prefixes if and only if that end fits 64 bits. */
  lemma {:induction false} ExactIffSumFits(f: Bytes, l: Layout)
    requires LayoutOf(f) == Ok(l) && l.dataStart <= |f| < U64
    ensures ExactOnPrefixes(f, l) <==> ComputedEnd(l) < U64
  {
    hide LayoutOf;
    if ComputedEnd(l) < U64 {
      forall k: nat | k <= |f|
        ensures Accepts(Some(f[..k])) <==> ComputedEnd(l) <= k
      {
        AcceptedPrefix(f, l, k);
      }
    } else {
      var k := l.dataStart;
      SameLayout(f[..k], f);
      assert Accepts(Some(f[..k]));
    }
  }
}
