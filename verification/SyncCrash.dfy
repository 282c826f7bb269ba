/** A crash at any moment of a sync: what the disk holds then, and whether the next sync recovers. */
module SyncCrash {
  import opened Common
  import opened Rows
  import opened IndexFiles
  import opened Sync
  import T = TornIndex

  /** One sync or live update: the folder at its beginning, the rows that it keeps, and the documents
      that it embeds. */
  datatype Job = Job(
    disk: Files,
    fingerprint: string,
    dims: nat,
    base: seq<Row>,
    todo: seq<Doc>,
    embed: Embedding)

  /** The rows after `k` documents: stage `k`. */
  function Progress(j: Job, k: nat): seq<Row>
    requires k <= |j.todo|
  {
    Stored(j.base, j.todo[..k], j.embed)
  }

  function SavedRows(s: Saved, dims: nat): seq<Row>
    requires |s.vectors| == |s.entries| * dims
  {
    RowsOf(s.entries, s.vectors, dims)
  }

  /** The entry list on disk, if it is for this model and layout. */
  function EntriesOnDisk(d: Files, fingerprint: string, dims: nat): Option<seq<Entry>> {
    if ENTRIES in d && d[ENTRIES].Json?
       && d[ENTRIES].header.fingerprint == fingerprint && d[ENTRIES].header.dims == dims
    then Some(d[ENTRIES].header.entries) else None
  }

  ghost predicate EntriesOf(entries: seq<Entry>, rows: seq<Row>) {
    |entries| == |rows| && forall i | 0 <= i < |rows| :: rows[i].entry == entries[i]
  }

  /** The entry list that was on disk before the job. */
  ghost predicate IsOld(j: Job, entries: seq<Entry>) {
    EntriesOnDisk(j.disk, j.fingerprint, j.dims) == Some(entries)
  }

  /** An entry list that was on disk before the job or belongs to a stage up to `k`. */
  ghost predicate KnownEntries(j: Job, k: nat, entries: seq<Entry>)
    requires k <= |j.todo|
  {
    IsOld(j, entries) || exists i | 0 <= i <= k :: EntriesOf(entries, Progress(j, i))
  }

  ghost predicate IsStage(j: Job, k: nat, s: Saved)
    requires k <= |j.todo| && |s.vectors| == |s.entries| * j.dims
  {
    SavedRows(s, j.dims) == Progress(j, k)
  }

  /** The vectors of stage `k` under entries that are not younger. */
  ghost predicate OverStage(j: Job, k: nat, s: Saved)
    requires k <= |j.todo| && |s.vectors| == |s.entries| * j.dims
  {
    && KnownEntries(j, k, s.entries) && |s.entries| == |Progress(j, k)|
    && T.Torn(s.entries, Progress(j, k), SavedRows(s, j.dims))
  }

  /** What a load finds while stage `k` is the last one: nothing, what it found before the job, or the
      vectors of a stage under entries that are not younger. */
  ghost predicate Recoverable(j: Job, k: nat, d: Files)
    requires k <= |j.todo|
  {
    var loaded := LoadOf(d, j.fingerprint, j.dims);
    || loaded.None?
    || loaded == LoadOf(j.disk, j.fingerprint, j.dims)
    || exists i | 0 <= i <= k :: OverStage(j, i, loaded.value)
  }

  ghost predicate Known(j: Job, k: nat, d: Files)
    requires k <= |j.todo|
  {
    EntriesOnDisk(d, j.fingerprint, j.dims).Some? ==>
      KnownEntries(j, k, EntriesOnDisk(d, j.fingerprint, j.dims).value)
  }

  ghost predicate Good(j: Job, k: nat, d: Files)
    requires k <= |j.todo|
  {
    Recoverable(j, k, d) && Known(j, k, d)
  }

  lemma JobBeginsGood(j: Job)
    ensures Good(j, 0, j.disk)
  {
  }

  lemma LaterIsGood(j: Job, k: nat, next: nat, d: Files)
    requires k <= next <= |j.todo| && Good(j, k, d)
    ensures Good(j, next, d)
  {
    hide LoadOf, OverStage, EntriesOf;
  }

  lemma OverItself(j: Job, k: nat, entries: seq<Entry>, s: Saved)
    requires k <= |j.todo| && |s.vectors| == |s.entries| * j.dims && |entries| == |s.entries|
    requires IsStage(j, k, s) && KnownEntries(j, k, entries)
    ensures OverStage(j, k, Saved(entries, s.vectors))
  {
    hide KnownEntries, Progress;
    var torn := Saved(entries, s.vectors);
    forall i | 0 <= i < |entries|
      ensures SavedRows(torn, j.dims)[i] == Row(entries[i], SavedRows(s, j.dims)[i].vector)
    {
      RowAt(entries, s.vectors, j.dims, i);
      RowAt(s.entries, s.vectors, j.dims, i);
    }
  }

  lemma StageEntries(j: Job, k: nat, s: Saved)
    requires k <= |j.todo| && |s.vectors| == |s.entries| * j.dims && IsStage(j, k, s)
    ensures EntriesOf(s.entries, Progress(j, k)) && KnownEntries(j, k, s.entries)
  {
  }

  /** Every state of a save of stage `k` is good. */
  lemma SavingIsGood(j: Job, k: nat, d: Files, s: Saved, tornE: File, tornV: File, n: nat)
    requires j.dims > 0 && k <= |j.todo| && |s.vectors| == |s.entries| * j.dims && n < 6
    requires Good(j, k, d) && IsStage(j, k, s)
    ensures Good(j, k, SaveStates(d, HeaderFile(j.fingerprint, j.dims, s), VectorFile(s), tornE, tornV)[n])
  {
    hide LoadOf, SaveStates, IsStage, KnownEntries, OverStage, HeaderFile, VectorFile;
    var e, v := HeaderFile(j.fingerprint, j.dims, s), VectorFile(s);
    var state := SaveStates(d, e, v, tornE, tornV)[n];
    SaveIsCrashSafe(d, s, j.fingerprint, j.dims, tornE, tornV, n);
    StageEntries(j, k, s);
    OverItself(j, k, s.entries, s);
    EntriesDuringSave(j, d, s, tornE, tornV, n);
    if TornPair(d, s, j.fingerprint, j.dims, LoadOf(state, j.fingerprint, j.dims)) {
      OverItself(j, k, d[ENTRIES].header.entries, s);
    }
  }

  lemma EntriesDuringSave(j: Job, d: Files, s: Saved, tornE: File, tornV: File, n: nat)
    requires n < 6
    ensures EntriesOnDisk(SaveStates(d, HeaderFile(j.fingerprint, j.dims, s), VectorFile(s), tornE, tornV)[n],
                          j.fingerprint, j.dims)
         == if n < 5 then EntriesOnDisk(d, j.fingerprint, j.dims) else Some(s.entries)
  {
    SaveNames();
  }

  // Loads that are not torn

  /** Every stage of the job has trustworthy vectors for the documents of a library. */
  ghost predicate TrustedStages(j: Job, docs: seq<Doc>) {
    forall k | 0 <= k <= |j.todo| :: DistinctRows(Progress(j, k)) && Trusted(Lookup(Progress(j, k)), docs, j.embed)
  }

  lemma FullSyncStagesAreTrusted(j: Job, rows: seq<Row>, docs: seq<Doc>)
    requires j.base == Base(rows, docs) && j.todo == FullTodo(rows, docs)
    requires DistinctRows(rows) && Consistent(docs) && Trusted(Lookup(rows), docs, j.embed)
    ensures TrustedStages(j, docs)
  {
    hide Base, FullTodo, Lookup, Stored, Trusted;
    forall k | 0 <= k <= |j.todo|
      ensures DistinctRows(Progress(j, k)) && Trusted(Lookup(Progress(j, k)), docs, j.embed)
    {
      SyncKeepsTrust(rows, docs, j.embed, k);
    }
  }

  lemma LiveStagesAreTrusted(j: Job, rows: seq<Row>, removed: set<string>, docs: seq<Doc>, library: seq<Doc>)
    requires j.base == Without(rows, removed) && j.todo == Todo(Lookup(j.base), docs)
    requires DistinctRows(rows) && Consistent(library) && Trusted(Lookup(rows), library, j.embed)
    requires forall d | d in docs :: d in library
    ensures TrustedStages(j, library)
  {
    hide Without, Lookup, Stored, Todo;
    WithoutDistinct(rows, removed);
    WithoutIsSubtraction(rows, removed);
    forall k | 0 <= k <= |j.todo|
      ensures DistinctRows(Progress(j, k)) && Trusted(Lookup(Progress(j, k)), library, j.embed)
    {
      forall d | d in j.todo[..k]
        ensures d in library
      {
        assert d in j.todo;
        TodoMembers(Lookup(j.base), docs, d);
      }
      StoringKeepsTrust(j.base, j.todo[..k], library, j.embed);
    }
  }

  /** The next full sync brings the loaded index to the library. */
  ghost predicate Repairs(j: Job, s: Saved, docs: seq<Doc>)
    requires |s.vectors| == |s.entries| * j.dims
  {
    var rows := SavedRows(s, j.dims);
    Agrees(Synced(rows, docs, j.embed, |FullTodo(rows, docs)|), docs, j.embed)
  }

  /** If a load after a crash finds a stage of the job, or what was there before, the next full sync
      reaches the library. */
  lemma RecoveredSyncConverges(j: Job, k: nat, s: Saved, docs: seq<Doc>)
    requires k <= |j.todo| && |s.vectors| == |s.entries| * j.dims
    requires IsStage(j, k, s) || LoadOf(j.disk, j.fingerprint, j.dims) == Some(s)
    requires TrustedStages(j, docs) && Consistent(docs)
    requires LoadOf(j.disk, j.fingerprint, j.dims) == Some(s) ==>
               DistinctIds(s.entries) && Trusted(Lookup(SavedRows(s, j.dims)), docs, j.embed)
    ensures Repairs(j, s, docs)
  {
    hide LoadOf, Synced, FullTodo, Lookup, Trusted, Agrees;
    var rows := SavedRows(s, j.dims);
    assert DistinctRows(rows) && Trusted(Lookup(rows), docs, j.embed);
    SyncConverges(rows, docs, j.embed);
  }

  // All loads, also torn ones

  /** What holds of a job and of any later library: all stages have distinct ids and hold embeddings of
      the texts in play, and so do the library and what was on disk before the job. */
  ghost predicate Sound(j: Job, docs: seq<Doc>, texts: set<string>, hash: T.Hash) {
    && Consistent(docs) && T.Hashed(docs, texts, hash)
    && T.NoCollision(texts, hash) && T.NoTwins(texts, j.embed)
    && (forall k | 0 <= k <= |j.todo| ::
          DistinctRows(Progress(j, k)) && T.Embedded(Progress(j, k), texts, hash, j.embed))
    && (EntriesOnDisk(j.disk, j.fingerprint, j.dims).Some? ==>
          DistinctIds(EntriesOnDisk(j.disk, j.fingerprint, j.dims).value))
    && (LoadOf(j.disk, j.fingerprint, j.dims).Some? ==>
          T.Embedded(SavedRows(LoadOf(j.disk, j.fingerprint, j.dims).value, j.dims), texts, hash, j.embed))
  }

  /** A document that is stored keeps its place; the others stay as they are. */
  lemma {:induction false} StoredInPlace(rows: seq<Row>, docs: seq<Doc>, embed: Embedding, i: nat)
      returns (source: Option<Doc>)
    requires DistinctRows(rows) && i < |rows|
    ensures i < |Stored(rows, docs, embed)|
    ensures Stored(rows, docs, embed)[i] == if source.Some? then RowOf(source.value, embed) else rows[i]
    ensures source.Some? ==> source.value in docs && source.value.entry.id == rows[i].entry.id
    decreases |docs|
  {
    source := None;
    if docs != [] {
      var init, last := docs[..|docs| - 1], docs[|docs| - 1];
      source := StoredInPlace(rows, init, embed, i);
      if last.entry.id == rows[i].entry.id && Stored(rows, docs, embed)[i] == RowOf(last, embed) {
        source := Some(last);
      }
    }
  }

  /** After a crash at any moment of a job, the load holds the vectors of some stage (or what was there
      before): the next full sync reaches the library, as it is then, if and only if each entry that it
      keeps has its hash in place there. */
  lemma {:induction false} CrashIsRepaired(
      j: Job, k: nat, d: Files, s: Saved, docs: seq<Doc>, texts: set<string>, hash: T.Hash)
      returns (stage: Option<nat>)
    requires k <= |j.todo| && Good(j, k, d) && LoadOf(d, j.fingerprint, j.dims) == Some(s)
    requires Sound(j, docs, texts, hash)
    ensures stage.None? ==> LoadOf(j.disk, j.fingerprint, j.dims) == Some(s)
    ensures stage.Some? ==> stage.value <= k && OverStage(j, stage.value, s)
    ensures Repairs(j, s, docs) <==> (stage.Some? ==> T.HashInPlace(s.entries, Progress(j, stage.value), docs))
  {
    hide Synced, FullTodo, Agrees, OverStage, T.Embedded, T.NoCollision, T.NoTwins, T.Hashed, T.HashInPlace, LoadOf;
    var rows := SavedRows(s, j.dims);
    if LoadOf(j.disk, j.fingerprint, j.dims) == Some(s) {
      OldIsTrusted(j, s, docs, texts, hash);
      SyncConverges(rows, docs, j.embed);
      return None;
    }
    var i :| 0 <= i <= k && OverStage(j, i, s);
    EntriesAreDistinct(j, i, s, docs, texts, hash);
    T.TornStageIsRepaired(s.entries, Progress(j, i), rows, docs, texts, hash, j.embed);
    return Some(i);
  }

  lemma {:induction false} OldIsTrusted(j: Job, s: Saved, docs: seq<Doc>, texts: set<string>, hash: T.Hash)
    requires Sound(j, docs, texts, hash) && LoadOf(j.disk, j.fingerprint, j.dims) == Some(s)
    ensures DistinctRows(SavedRows(s, j.dims)) && Trusted(Lookup(SavedRows(s, j.dims)), docs, j.embed)
  {
    hide Lookup, Trusted, T.Embedded, T.Faithful, T.NoCollision, T.Hashed, RowsOf;
    var rows := SavedRows(s, j.dims);
    assert EntriesOnDisk(j.disk, j.fingerprint, j.dims) == Some(s.entries);
    T.EmbeddedIsFaithful(rows, texts, hash, j.embed);
    T.FaithfulIsTrusted(rows, docs, texts, hash, j.embed);
  }

  /** Against every later library the stages can be trusted, so `RecoveredSyncConverges` applies to it. */
  lemma SoundIsTrusted(j: Job, later: seq<Doc>, texts: set<string>, hash: T.Hash)
    requires Sound(j, later, texts, hash)
    ensures TrustedStages(j, later)
  {
    hide Lookup, Trusted, T.Embedded, T.Faithful, T.NoCollision, T.Hashed, Progress, LoadOf;
    forall k | 0 <= k <= |j.todo|
      ensures DistinctRows(Progress(j, k)) && Trusted(Lookup(Progress(j, k)), later, j.embed)
    {
      T.EmbeddedIsFaithful(Progress(j, k), texts, hash, j.embed);
      T.FaithfulIsTrusted(Progress(j, k), later, texts, hash, j.embed);
    }
  }

  lemma EntriesAreDistinct(j: Job, k: nat, s: Saved, docs: seq<Doc>, texts: set<string>, hash: T.Hash)
    requires k <= |j.todo| && |s.vectors| == |s.entries| * j.dims
    requires Sound(j, docs, texts, hash) && OverStage(j, k, s)
    ensures DistinctIds(s.entries) && T.Torn(s.entries, Progress(j, k), SavedRows(s, j.dims))
  {
    hide T.Embedded, T.NoCollision, T.NoTwins, T.Hashed, Progress, RowsOf, LoadOf;
    if !IsOld(j, s.entries) {
      var i :| 0 <= i <= k && EntriesOf(s.entries, Progress(j, i));
    }
  }

  // Crash after crash

  /** What the next start finds: an index with distinct ids of the library, and trustworthy vectors. */
  ghost predicate Restarts(d: Files, fingerprint: string, dims: nat, rows: seq<Row>, docs: seq<Doc>, embed: Embedding) {
    && LoadOf(d, fingerprint, dims).Some? && SavedRows(LoadOf(d, fingerprint, dims).value, dims) == rows
    && DistinctRows(rows) && Trusted(Lookup(rows), docs, embed) && Gone(rows, docs) == {}
  }

  lemma StageZero(j: Job)
    ensures Progress(j, 0) == j.base
  {
    assert j.todo[..0] == [];
  }

  lemma StageIds(j: Job, k: nat, docs: seq<Doc>)
    requires k <= |j.todo| && Gone(j.base, docs) == {} && forall d | d in j.todo :: d in docs
    ensures Gone(Progress(j, k), docs) == {}
  {
    assert forall d | d in j.todo[..k] :: d in j.todo;
    StoredIds(j.base, j.todo[..k], docs, j.embed);
  }

  lemma {:induction false} StoredIds(rows: seq<Row>, part: seq<Doc>, docs: seq<Doc>, embed: Embedding)
    requires Gone(rows, docs) == {} && forall d | d in part :: d in docs
    ensures Gone(Stored(rows, part, embed), docs) == {}
    decreases |part|
  {
    if part != [] {
      hide Upsert;
      var init, last := part[..|part| - 1], part[|part| - 1];
      StoredIds(rows, init, docs, embed);
      var before, after := Stored(rows, init, embed), Stored(rows, part, embed);
      T.UpsertMembers(before, RowOf(last, embed));
      assert last in part;
      forall id | id in Ids(after)
        ensures id in DocIds(docs)
      {
        var r :| r in after && r.entry.id == id;
        assert r in before ==> id in Ids(before) && id !in Gone(before, docs);
      }
    }
  }

  /** Entries of a stage over a later one of the same size make a trustworthy index. */
  lemma {:induction false} OverStageIsTrusted(j: Job, i: nat, k: nat, s: Saved, docs: seq<Doc>)
    requires i <= k <= |j.todo| && |s.vectors| == |s.entries| * j.dims
    requires EntriesOf(s.entries, Progress(j, i)) && OverStage(j, k, s)
    requires TrustedStages(j, docs) && Consistent(docs) && forall d | d in j.todo :: d in docs
    ensures var rows := SavedRows(s, j.dims);
            && DistinctRows(rows) && Trusted(Lookup(rows), docs, j.embed)
            && |rows| == |Progress(j, k)|
            && forall n | 0 <= n < |rows| :: rows[n].entry.id == Progress(j, k)[n].entry.id
  {
    hide Stored, Lookup, Trusted, KnownEntries, RowsOf;
    StoredSplit(j.base, j.todo, i, k, j.embed);
    var rows, later := Progress(j, i), Progress(j, k);
    forall n | 0 <= n < |later|
      ensures later[n].entry.id == s.entries[n].id
      ensures forall d | d in docs && d.entry.id == s.entries[n].id ::
                later[n].entry.hash in {s.entries[n].hash, d.entry.hash}
    {
      var source := StoredInPlace(rows, j.todo[i..k], j.embed, n);
      assert source.Some? ==> source.value in j.todo;
    }
    T.SameOrderIsTrusted(s.entries, later, SavedRows(s, j.dims), docs, j.embed);
  }

  /** A torn pair of two stages of one job is repaired, also if the job removed rows before, if the library
      still has the documents of the job when the next sync runs. */
  lemma {:induction false} TwoStagesAreRepaired(j: Job, i: nat, k: nat, s: Saved, docs: seq<Doc>)
    requires i <= k <= |j.todo| && |s.vectors| == |s.entries| * j.dims
    requires EntriesOf(s.entries, Progress(j, i)) && OverStage(j, k, s)
    requires TrustedStages(j, docs) && Consistent(docs) && forall d | d in j.todo :: d in docs
    ensures Repairs(j, s, docs)
  {
    hide Progress, Lookup, Trusted, Synced, FullTodo, Agrees, EntriesOf, OverStage;
    OverStageIsTrusted(j, i, k, s, docs);
    SyncConverges(SavedRows(s, j.dims), docs, j.embed);
  }

  lemma SameIds(a: seq<Row>, b: seq<Row>, docs: seq<Doc>)
    requires |a| == |b| && (forall n | 0 <= n < |a| :: a[n].entry.id == b[n].entry.id) && Gone(b, docs) == {}
    ensures Gone(a, docs) == {}
  {
    forall id | id in Ids(a)
      ensures id in DocIds(docs)
    {
      var r :| r in a && r.entry.id == id;
      var n :| 0 <= n < |a| && a[n] == r;
      assert b[n] in b && id in Ids(b) && id !in Gone(b, docs);
    }
  }

  /** While the library stays as it is, a full sync that removes nothing can crash at any moment: whatever a
      start loads then can be trusted again, also torn pairs. So this holds after any number of crashes in a
      row, and the first sync that completes reaches the library. */
  lemma CrashKeepsTrust(j: Job, k: nat, d: Files, s: Saved, docs: seq<Doc>)
    requires Consistent(docs) && Restarts(j.disk, j.fingerprint, j.dims, j.base, docs, j.embed)
    requires j.todo == FullTodo(j.base, docs)
    requires k <= |j.todo| && Good(j, k, d) && LoadOf(d, j.fingerprint, j.dims) == Some(s)
    ensures Restarts(d, j.fingerprint, j.dims, SavedRows(s, j.dims), docs, j.embed) && Repairs(j, s, docs)
  {
    hide LoadOf, Synced, Agrees, Lookup, Trusted, Stored, Todo, TrustedStages, Base;
    var found := LoadOf(j.disk, j.fingerprint, j.dims).value;
    BaseIsAll(j.base, docs);
    FullSyncStagesAreTrusted(j, j.base, docs);
    FullTodoMembers(j.base, docs);
    hide FullTodo, OverStage, Progress, EntriesOf, RowsOf;
    if s != found {
      var n: nat :| n <= k && OverStage(j, n, s);
      var i := KnownStage(j, n, s, found);
      OverStageIsTrusted(j, i, n, s, docs);
      StageIds(j, n, docs);
      SameIds(SavedRows(s, j.dims), Progress(j, n), docs);
    }
    SyncConverges(SavedRows(s, j.dims), docs, j.embed);
  }

  /** If the disk held the base, every known entry list belongs to a stage. */
  lemma KnownStage(j: Job, k: nat, s: Saved, found: Saved) returns (i: nat)
    requires k <= |j.todo| && |s.vectors| == |s.entries| * j.dims && OverStage(j, k, s)
    requires LoadOf(j.disk, j.fingerprint, j.dims) == Some(found) && SavedRows(found, j.dims) == j.base
    ensures i <= k && EntriesOf(s.entries, Progress(j, i))
  {
    hide Progress;
    if IsOld(j, s.entries) {
      StageZero(j);
      assert s.entries == found.entries;
      i := 0;
    } else {
      i :| i <= k && EntriesOf(s.entries, Progress(j, i));
    }
  }

  // The stages of syncs and updates

  /** The texts in play are those of a library and of the index before. */
  ghost predicate Playing(j: Job, rows: seq<Row>, library: seq<Doc>, texts: set<string>, hash: T.Hash) {
    && DistinctRows(rows) && T.Embedded(rows, texts, hash, j.embed)
    && Consistent(library) && T.Hashed(library, texts, hash)
    && T.NoCollision(texts, hash) && T.NoTwins(texts, j.embed)
    && (EntriesOnDisk(j.disk, j.fingerprint, j.dims).Some? ==>
          DistinctIds(EntriesOnDisk(j.disk, j.fingerprint, j.dims).value))
    && (LoadOf(j.disk, j.fingerprint, j.dims).Some? ==>
          T.Embedded(SavedRows(LoadOf(j.disk, j.fingerprint, j.dims).value, j.dims), texts, hash, j.embed))
  }

  lemma StagesAreSound(j: Job, rows: seq<Row>, gone: set<string>, library: seq<Doc>, texts: set<string>, hash: T.Hash)
    requires j.base == Without(rows, gone) && T.Hashed(j.todo, texts, hash)
    requires Playing(j, rows, library, texts, hash)
    ensures Sound(j, library, texts, hash)
  {
    hide T.Embedded, T.NoCollision, T.NoTwins, Stored, Without, LoadOf;
    WithoutDistinct(rows, gone);
    T.WithoutIsEmbedded(rows, gone, texts, hash, j.embed);
    forall k | 0 <= k <= |j.todo|
      ensures DistinctRows(Progress(j, k)) && T.Embedded(Progress(j, k), texts, hash, j.embed)
    {
      var part := j.todo[..k];
      assert forall d | d in part :: d in j.todo;
      T.StoringIsEmbedded(j.base, part, texts, hash, j.embed);
      StoredDistinct(j.base, part, j.embed);
    }
  }

  /** The stages of a full sync and of a live update are sound for every later library: it may have lost
      or changed documents that the job stored. */
  lemma {:induction false} FullSyncIsSound(
      j: Job, rows: seq<Row>, docs: seq<Doc>, later: seq<Doc>, texts: set<string>, hash: T.Hash)
    requires j.base == Base(rows, docs) && j.todo == FullTodo(rows, docs) && T.Hashed(docs, texts, hash)
    requires Playing(j, rows, later, texts, hash)
    ensures Sound(j, later, texts, hash)
  {
    hide Playing, Sound, Lookup, Todo;
    forall d | d in j.todo
      ensures d in docs
    {
      TodoMembers(Lookup(Base(rows, docs)), docs, d);
    }
    StagesAreSound(j, rows, Gone(rows, docs), later, texts, hash);
  }

  lemma {:induction false} LiveUpdateIsSound(
      j: Job, rows: seq<Row>, removed: set<string>, docs: seq<Doc>, later: seq<Doc>, texts: set<string>, hash: T.Hash)
    requires j.base == Without(rows, removed) && j.todo == Todo(Lookup(j.base), docs) && T.Hashed(docs, texts, hash)
    requires Playing(j, rows, later, texts, hash)
    ensures Sound(j, later, texts, hash)
  {
    hide Playing, Sound, Lookup, Todo;
    forall d | d in j.todo
      ensures d in docs
    {
      TodoMembers(Lookup(j.base), docs, d);
    }
    StagesAreSound(j, rows, removed, later, texts, hash);
  }
}
