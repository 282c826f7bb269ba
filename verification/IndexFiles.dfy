/** The two files of the saved index (src/media/index.rs): `entries.json` and `vectors.f32`. */
module IndexFiles {
  import opened Common
  import opened Rows
  import opened MediaIndex
  import D = Directory

  const ENTRIES := "entries.json"
  const VECTORS := "vectors.f32"
  const ENTRIES_TMP := "entries.json.tmp"
  const VECTORS_TMP := "vectors.f32.tmp"

  datatype Header = Header(fingerprint: string, dims: nat, entries: seq<Entry>)

  /** A JSON file that holds a header, or other bytes. */
  datatype File = Json(header: Header) | Raw(bytes: Bytes)

  type Files = map<string, File>

  function FloatBytes(v: Vector): (b: Bytes)
    ensures |b| == 4 * |v|
  {
    if v == [] then [] else ToLE(4, v[0]) + FloatBytes(v[1..])
  }

  /** The floats of the complete groups of four bytes. */
  function FloatsOf(b: Bytes): (v: Vector)
    ensures |v| == |b| / 4
  {
    if |b| < 4 then []
    else
      FloatFits(b[..4]);
      [FromLE(b[..4])] + FloatsOf(b[4..])
  }

  lemma FloatFits(b: Bytes)
    requires |b| == 4
    ensures FromLE(b) < U32
  {
    FromLEBound(b);
    Pow256Values();
  }

  lemma {:induction false} FloatsRoundTrip(v: Vector)
    ensures FloatsOf(FloatBytes(v)) == v
  {
    if v != [] {
      var b := FloatBytes(v);
      Pow256Values();
      LERoundTrip(4, v[0]);
      assert b[..4] == ToLE(4, v[0]) && b[4..] == FloatBytes(v[1..]);
      FloatsRoundTrip(v[1..]);
    }
  }

  /** A saved index. */
  datatype Saved = Saved(entries: seq<Entry>, vectors: Vector)

  function LoadOf(d: Files, fingerprint: string, dims: nat): (s: Option<Saved>)
    ensures s.Some? ==> |s.value.vectors| == |s.value.entries| * dims
  {
    if ENTRIES !in d || !d[ENTRIES].Json? then None
    else
      var h := d[ENTRIES].header;
      if h.fingerprint != fingerprint || h.dims != dims then None
      else if VECTORS !in d || !d[VECTORS].Raw? then None
      else
        var raw := d[VECTORS].bytes;
        if |raw| != |h.entries| * dims * 4 then None else Some(Saved(h.entries, FloatsOf(raw)))
  }

  /** The states of a complete save. `tornE` and `tornV` are what a crash inside a write leaves. */
  function SaveStates(d: Files, e: File, v: File, tornE: File, tornV: File): (states: seq<Files>)
    ensures |states| == 6
  {
    var d1 := d[ENTRIES_TMP := e];
    var d2 := d1[VECTORS_TMP := v];
    var d3 := D.Renamed(d2, VECTORS_TMP, VECTORS);
    [d[ENTRIES_TMP := tornE], d1, d1[VECTORS_TMP := tornV], d2, d3, D.Renamed(d3, ENTRIES_TMP, ENTRIES)]
  }

  function HeaderFile(fingerprint: string, dims: nat, s: Saved): File {
    Json(Header(fingerprint, dims, s.entries))
  }

  function VectorFile(s: Saved): File {
    Raw(FloatBytes(s.vectors))
  }

  /** The file operations of a save: two writes and two renames. */
  const OPERATIONS := 4

  /** How many states a save passes if `works` of its operations succeed: a write has a torn state too. */
  function StepsOf(works: nat): nat {
    if works <= 2 then 2 * works else Min(works, OPERATIONS) + 2
  }

  /** Writes both temporary files; `works` of the operations succeed. */
  method WriteFiles(dir: D.Directory<File>, works: nat, e: File, v: File, tornE: File, tornV: File) returns (ok: bool)
    requires dir.Valid()
    modifies dir
    ensures dir.Valid() && (ok <==> works >= 2)
    ensures ok ==> dir.files == SaveStates(old(dir.files), e, v, tornE, tornV)[3]
    ensures dir.states == old(dir.states) + SaveStates(old(dir.files), e, v, tornE, tornV)[..StepsOf(Min(works, 2))]
  {
    ghost var states := SaveStates(dir.files, e, v, tornE, tornV);
    if works == 0 {
      return false;
    }
    dir.Write(ENTRIES_TMP, tornE, e);
    assert states[..2] == [states[0], states[1]];
    if works == 1 {
      return false;
    }
    dir.Write(VECTORS_TMP, tornV, v);
    assert states[..4] == [states[0], states[1], states[2], states[3]];
    return true;
  }

  /** Moves both files to their places, the vectors first: a crash in between leaves the new vectors
      beside the old entries. */
  method MoveFiles(dir: D.Directory<File>, works: nat, ghost d: Files, e: File, v: File, tornE: File, tornV: File)
    returns (ok: bool)
    requires dir.Valid() && dir.files == SaveStates(d, e, v, tornE, tornV)[3] && works >= 2
    modifies dir
    ensures dir.Valid() && (ok <==> works >= OPERATIONS)
    ensures dir.states == old(dir.states) + SaveStates(d, e, v, tornE, tornV)[4..StepsOf(works)]
  {
    ghost var states := SaveStates(d, e, v, tornE, tornV);
    if works == 2 {
      return false;
    }
    var moved := dir.Rename(VECTORS_TMP, VECTORS);
    assert states[4..5] == [states[4]];
    if works == 3 {
      return false;
    }
    moved := dir.Rename(ENTRIES_TMP, ENTRIES);
    assert states[4..6] == [states[4], states[5]];
    return true;
  }

  /** Saves the index; `works` tells how many of its operations succeed. */
  method Save(dir: D.Directory<File>, works: nat, fingerprint: string, ix: Index, tornE: File, tornV: File)
    returns (r: Result<(), ()>)
    requires dir.Valid() && ix.Valid()
    modifies dir
    ensures dir.Valid() && (r.Ok? <==> works >= OPERATIONS)
    ensures var s := Saved(ix.entries, ix.vectors);
            dir.states == old(dir.states)
              + SaveStates(old(dir.files), HeaderFile(fingerprint, ix.dims, s), VectorFile(s), tornE, tornV)
                [..StepsOf(works)]
  {
    hide HeaderFile, VectorFile;
    ghost var d := dir.files;
    var s := Saved(ix.entries, ix.vectors);
    var e, v := HeaderFile(fingerprint, ix.dims, s), VectorFile(s);
    ghost var states := SaveStates(d, e, v, tornE, tornV);
    hide SaveStates;
    var ok := WriteFiles(dir, works, e, v, tornE, tornV);
    if !ok {
      return Err(());
    }
    ok := MoveFiles(dir, works, d, e, v, tornE, tornV);
    assert states[..4] + states[4..StepsOf(works)] == states[..StepsOf(works)];
    return if ok then Ok(()) else Err(());
  }

  method Load(dir: D.Directory<File>, fingerprint: string, dims: nat) returns (r: Option<Index>)
    requires dims > 0
    ensures match LoadOf(dir.files, fingerprint, dims)
            case None => r.None?
            case Some(s) =>
              && r.Some? && fresh(r.value) && r.value.dims == dims
              && r.value.entries == s.entries && r.value.vectors == s.vectors
              && (DistinctIds(s.entries) ==> r.value.Valid())
  {
    var saved := LoadOf(dir.files, fingerprint, dims);
    if saved.None? {
      return None;
    }
    var ix := new Index.Of(dims, saved.value.entries, saved.value.vectors);
    return Some(ix);
  }

  /** The entries under one generation of the entry file and the vectors under another. */
  ghost predicate TornPair(d0: Files, s: Saved, fingerprint: string, dims: nat, loaded: Option<Saved>) {
    && ENTRIES in d0 && d0[ENTRIES].Json?
    && d0[ENTRIES].header.fingerprint == fingerprint && d0[ENTRIES].header.dims == dims
    && |d0[ENTRIES].header.entries| == |s.entries|
    && loaded == Some(Saved(d0[ENTRIES].header.entries, s.vectors))
  }

  lemma SameLoad(a: Files, b: Files, fingerprint: string, dims: nat)
    requires (ENTRIES in a <==> ENTRIES in b) && (ENTRIES in a ==> a[ENTRIES] == b[ENTRIES])
    requires (VECTORS in a <==> VECTORS in b) && (VECTORS in a ==> a[VECTORS] == b[VECTORS])
    ensures LoadOf(a, fingerprint, dims) == LoadOf(b, fingerprint, dims)
  {
  }

  lemma SaveNames()
    ensures ENTRIES != VECTORS && ENTRIES != ENTRIES_TMP && ENTRIES != VECTORS_TMP
    ensures VECTORS != ENTRIES_TMP && VECTORS != VECTORS_TMP && ENTRIES_TMP != VECTORS_TMP
  {
    assert |ENTRIES| == 12 && |VECTORS| == 11 && |ENTRIES_TMP| == 16 && |VECTORS_TMP| == 15;
  }

  /** Before the first rename nothing has changed for a load. */
  lemma EarlyStates(d: Files, e: File, v: File, tornE: File, tornV: File, k: nat, fingerprint: string, dims: nat)
    requires k < 4
    ensures LoadOf(SaveStates(d, e, v, tornE, tornV)[k], fingerprint, dims) == LoadOf(d, fingerprint, dims)
  {
    SaveNames();
    SameLoad(SaveStates(d, e, v, tornE, tornV)[k], d, fingerprint, dims);
  }

  lemma LateStates(d: Files, e: File, v: File, tornE: File, tornV: File)
    ensures var states := SaveStates(d, e, v, tornE, tornV);
            && VECTORS in states[4] && states[4][VECTORS] == v
            && (ENTRIES in states[4] <==> ENTRIES in d) && (ENTRIES in d ==> states[4][ENTRIES] == d[ENTRIES])
            && VECTORS in states[5] && states[5][VECTORS] == v
            && ENTRIES in states[5] && states[5][ENTRIES] == e
  {
    SaveNames();
  }

  /** What a load finds between the two renames. */
  lemma LoadBetween(d0: Files, d: Files, s: Saved, fingerprint: string, dims: nat)
    requires dims > 0 && |s.vectors| == |s.entries| * dims
    requires VECTORS in d && d[VECTORS] == VectorFile(s)
    requires (ENTRIES in d <==> ENTRIES in d0) && (ENTRIES in d0 ==> d[ENTRIES] == d0[ENTRIES])
    ensures LoadOf(d, fingerprint, dims) == None || TornPair(d0, s, fingerprint, dims, LoadOf(d, fingerprint, dims))
  {
    hide FloatBytes, FloatsOf;
    FloatsRoundTrip(s.vectors);
    if ENTRIES in d && d[ENTRIES].Json? {
      var n, m := |d[ENTRIES].header.entries|, |s.entries|;
      assert |FloatBytes(s.vectors)| == 4 * (m * dims);
      if n * dims * 4 == 4 * (m * dims) {
        SameProduct(n, m, dims);
      }
    }
  }

  lemma SameProduct(n: nat, m: nat, d: nat)
    requires d > 0 && n * d == m * d
    ensures n == m
  {
    assert (n - m) * d == 0;
  }

  lemma LoadNew(d: Files, s: Saved, fingerprint: string, dims: nat)
    requires |s.vectors| == |s.entries| * dims
    requires VECTORS in d && d[VECTORS] == VectorFile(s)
    requires ENTRIES in d && d[ENTRIES] == HeaderFile(fingerprint, dims, s)
    ensures LoadOf(d, fingerprint, dims) == Some(s)
  {
    hide FloatBytes, FloatsOf;
    FloatsRoundTrip(s.vectors);
  }

  /** Crash safety of a save: after every step, and after a failure at any step, a load gives the
      old index, the new one, nothing, or old entries over new vectors, the last only if both have
      the same number of entries. A complete save loads as the saved index. */
  lemma SaveIsCrashSafe(d: Files, s: Saved, fingerprint: string, dims: nat, tornE: File, tornV: File, k: nat)
    requires dims > 0 && |s.vectors| == |s.entries| * dims && k < 6
    ensures var state := SaveStates(d, HeaderFile(fingerprint, dims, s), VectorFile(s), tornE, tornV)[k];
            var loaded := LoadOf(state, fingerprint, dims);
            && (loaded in {LoadOf(d, fingerprint, dims), Some(s), None} || TornPair(d, s, fingerprint, dims, loaded))
            && (k == 5 ==> loaded == Some(s))
  {
    hide LoadOf, SaveStates;
    var e, v := HeaderFile(fingerprint, dims, s), VectorFile(s);
    var states := SaveStates(d, e, v, tornE, tornV);
    if k < 4 {
      EarlyStates(d, e, v, tornE, tornV, k, fingerprint, dims);
    } else {
      LateStates(d, e, v, tornE, tornV);
      if k == 4 {
        LoadBetween(d, states[4], s, fingerprint, dims);
      } else {
        LoadNew(states[5], s, fingerprint, dims);
      }
    }
  }

  /** A saved index of another model or layout is not loaded. */
  lemma OtherModelIsRejected(
      d: Files, s: Saved, fingerprint: string, dims: nat, other: string, otherDims: nat, tornE: File, tornV: File)
    requires dims > 0 && |s.vectors| == |s.entries| * dims && (other != fingerprint || otherDims != dims)
    ensures LoadOf(SaveStates(d, HeaderFile(fingerprint, dims, s), VectorFile(s), tornE, tornV)[5], other, otherDims) ==
              None
  {
    hide FloatBytes, FloatsOf;
    SaveNames();
    LateStates(d, HeaderFile(fingerprint, dims, s), VectorFile(s), tornE, tornV);
  }

  /** A torn pair with different counts is always rejected. */
  lemma DifferentCountsAreRejected(d: Files, s: Saved, fingerprint: string, dims: nat, tornE: File, tornV: File)
    requires dims > 0 && |s.vectors| == |s.entries| * dims
    requires ENTRIES in d && d[ENTRIES].Json? && |d[ENTRIES].header.entries| != |s.entries|
    ensures LoadOf(SaveStates(d, HeaderFile(fingerprint, dims, s), VectorFile(s), tornE, tornV)[4], fingerprint, dims) == None
  {
    hide LoadOf, SaveStates;
    var e, v := HeaderFile(fingerprint, dims, s), VectorFile(s);
    LateStates(d, e, v, tornE, tornV);
    LoadBetween(d, SaveStates(d, e, v, tornE, tornV)[4], s, fingerprint, dims);
  }
}
