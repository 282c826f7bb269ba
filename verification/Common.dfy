/** Results, bytes and little-endian numbers, shared by all other modules. */
module Common {

  datatype Option<+T> = None | Some(value: T)

  datatype Result<+T, +E> = Ok(value: T) | Err(error: E) {

    predicate IsFailure() {
      Err?
    }

    function PropagateFailure<U>(): Result<U, E>
      requires Err?
    {
      Err(error)
    }

    function Extract(): T
      requires Ok?
    {
      value
    }
  }

  /** One byte of a file or of a stream. */
  type byte = x: int | 0 <= x < 256

  type Bytes = seq<byte>

  const U16 := 0x1_0000
  const U32 := 0x1_0000_0000
  const U64 := 0x1_0000_0000_0000_0000
  const MAX_I64 := 0x7fff_ffff_ffff_ffff

  function Min(a: int, b: int): int {
    if a <= b then a else b
  }

  function Max(a: int, b: int): int {
    if a >= b then a else b
  }

  function Pow256(n: nat): (p: nat)
    ensures p > 0
  {
    if n == 0 then 1 else 256 * Pow256(n - 1)
  }

  /** The `n` little-endian bytes of `x`; higher bytes are dropped, as by a cast. */
  function ToLE(n: nat, x: nat): (s: Bytes)
    ensures |s| == n
  {
    if n == 0 then [] else [x % 256] + ToLE(n - 1, x / 256)
  }

  function FromLE(s: Bytes): nat {
    if s == [] then 0 else s[0] + 256 * FromLE(s[1..])
  }

  lemma {:induction false} LERoundTrip(n: nat, x: nat)
    requires x < Pow256(n)
    ensures FromLE(ToLE(n, x)) == x
  {
    if n > 0 {
      LERoundTrip(n - 1, x / 256);
      assert ToLE(n, x)[1..] == ToLE(n - 1, x / 256);
    }
  }

  lemma {:induction false} FromLEBound(s: Bytes)
    ensures FromLE(s) < Pow256(|s|)
  {
    if s != [] {
      FromLEBound(s[1..]);
    }
  }

  lemma Pow256Values()
    ensures Pow256(1) == 256
    ensures Pow256(2) == U16
    ensures Pow256(4) == U32
    ensures Pow256(8) == U64
  {
    assert Pow256(3) == 256 * U16;
    assert Pow256(6) == 256 * Pow256(5);
    assert Pow256(7) == 256 * Pow256(6);
  }

  lemma ProductAtLeast(x: int, d: int)
    requires d >= 0
    ensures x >= 1 ==> x * d >= d
  {
    if x >= 1 {
      assert x * d == (x - 1) * d + d;
    }
  }

  /** `f` holds the bytes `s` at position `pos`. */
  ghost predicate HasAt(f: Bytes, pos: nat, s: Bytes) {
    pos + |s| <= |f| && f[pos..pos + |s|] == s
  }

  lemma HasAtSplit(f: Bytes, pos: nat, a: Bytes, b: Bytes)
    requires HasAt(f, pos, a + b)
    ensures HasAt(f, pos, a) && HasAt(f, pos + |a|, b)
  {
    var s := a + b;
    assert f[pos..pos + |a|] == s[..|a|] == a;
    assert f[pos + |a|..pos + |a| + |b|] == s[|a|..] == b;
  }
}
