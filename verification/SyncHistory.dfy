/**
 The media index over its whole life: complete, interrupted and failed syncs and live updates in any
 order, against a library that changes all the time.
 */
module SyncHistory {
  import opened Common
  import opened Rows
  import opened Sync
  import opened LiveUpdate
  import T = TornIndex

  /** One full sync or live update that stored its first `k` documents, and what the library returned. */
  datatype Change =
    | Full(docs: seq<Doc>, k: nat)
    | Live(removed: set<string>, docs: seq<Doc>, k: nat)

  function LiveTodo(rows: seq<Row>, removed: set<string>, docs: seq<Doc>): seq<Doc> {
    Todo(Lookup(Without(rows, removed)), docs)
  }

  function Step(rows: seq<Row>, c: Change, embed: Embedding): seq<Row> {
    match c
    case Full(docs, k) => Synced(rows, docs, embed, Min(k, |FullTodo(rows, docs)|))
    case Live(removed, docs, k) =>
      var todo := LiveTodo(rows, removed, docs);
      Stored(Without(rows, removed), todo[..Min(k, |todo|)], embed)
  }

  function After(rows: seq<Row>, history: seq<Change>, embed: Embedding): seq<Row> {
    if history == [] then rows
    else Step(After(rows, history[..|history| - 1], embed), history[|history| - 1], embed)
  }

  lemma AfterAppend(rows: seq<Row>, history: seq<Change>, c: Change, embed: Embedding)
    ensures After(rows, history + [c], embed) == Step(After(rows, history, embed), c, embed)
  {
    assert (history + [c])[..|history|] == history;
  }

  lemma LiveIsFaithful(
      rows: seq<Row>, removed: set<string>, docs: seq<Doc>, k: nat, texts: set<string>, hash: T.Hash, embed: Embedding)
    requires T.Faithful(rows, texts, hash, embed) && T.NoCollision(texts, hash) && T.Hashed(docs, texts, hash)
    ensures T.Faithful(Step(rows, Live(removed, docs, k), embed), texts, hash, embed)
  {
    hide Todo, Lookup, Stored;
    var base, todo := Without(rows, removed), LiveTodo(rows, removed, docs);
    forall d | d in todo
      ensures d in docs
    {
      TodoMembers(Lookup(base), docs, d);
    }
    forall r | r in base
      ensures r in rows
    {
      WithoutMembers(rows, removed, r);
    }
    T.StoringIsFaithful(base, todo[..Min(k, |todo|)], texts, hash, embed);
  }

  lemma StepDistinct(rows: seq<Row>, c: Change, embed: Embedding)
    requires DistinctRows(rows)
    ensures DistinctRows(Step(rows, c, embed))
  {
    hide Stored, Without, Todo, Lookup;
    match c
    case Full(docs, k) =>
      WithoutDistinct(rows, Gone(rows, docs));
      StoredDistinct(Base(rows, docs), FullTodo(rows, docs)[..Min(k, |FullTodo(rows, docs)|)], embed);
    case Live(removed, docs, k) =>
      var todo := LiveTodo(rows, removed, docs);
      WithoutDistinct(rows, removed);
      StoredDistinct(Without(rows, removed), todo[..Min(k, |todo|)], embed);
  }

  /** Over every history the ids stay distinct and every vector stays the embedding of the text that
      its hash stands for. The library may be another one at every step. */
  lemma {:induction false} HistoryIsFaithful(
      rows: seq<Row>, history: seq<Change>, texts: set<string>, hash: T.Hash, embed: Embedding)
    requires DistinctRows(rows) && T.Faithful(rows, texts, hash, embed) && T.NoCollision(texts, hash)
    requires forall i | 0 <= i < |history| :: T.Hashed(history[i].docs, texts, hash)
    ensures DistinctRows(After(rows, history, embed)) && T.Faithful(After(rows, history, embed), texts, hash, embed)
    decreases |history|
  {
    if history != [] {
      hide Step, DistinctRows, T.Faithful, T.Hashed, T.NoCollision;
      var n := |history| - 1;
      HistoryIsFaithful(rows, history[..n], texts, hash, embed);
      var before := After(rows, history[..n], embed);
      StepDistinct(before, history[n], embed);
      match history[n]
      case Full(docs, k) =>
        T.SyncIsFaithful(before, docs, Min(k, |FullTodo(before, docs)|), texts, hash, embed);
        assert Step(before, history[n], embed) == Synced(before, docs, embed, Min(k, |FullTodo(before, docs)|)) by {
          StepIsSynced(before, docs, k, embed);
        }
      case Live(removed, docs, k) => LiveIsFaithful(before, removed, docs, k, texts, hash, embed);
    }
  }

  lemma StepIsSynced(rows: seq<Row>, docs: seq<Doc>, k: nat, embed: Embedding)
    ensures Step(rows, Full(docs, k), embed) == Synced(rows, docs, embed, Min(k, |FullTodo(rows, docs)|))
  {
  }

  /** Whatever happened before, a complete full sync makes the index the library of its listing. */
  lemma {:induction false} CompleteSyncConverges(
      rows: seq<Row>, history: seq<Change>, docs: seq<Doc>, k: nat, texts: set<string>, hash: T.Hash, embed: Embedding)
    requires DistinctRows(rows) && T.Faithful(rows, texts, hash, embed) && T.NoCollision(texts, hash)
    requires forall i | 0 <= i < |history| :: T.Hashed(history[i].docs, texts, hash)
    requires T.Hashed(docs, texts, hash) && DistinctDocs(docs)
    requires k >= |FullTodo(After(rows, history, embed), docs)|
    ensures Agrees(After(rows, history + [Full(docs, k)], embed), docs, embed)
  {
    hide After, Lookup, T.Faithful, FullTodo, Synced, Agrees, DistinctRows, T.Hashed, T.NoCollision, Step;
    HistoryIsFaithful(rows, history, texts, hash, embed);
    var before := After(rows, history, embed);
    AfterAppend(rows, history, Full(docs, k), embed);
    StepIsSynced(before, docs, k, embed);
    DistinctIsConsistent(docs);
    T.FaithfulIsTrusted(before, docs, texts, hash, embed);
    SyncConverges(before, docs, embed);
  }

  // Updates that fail

  /** The rows after a live update that stored its first `k` documents. */
  function Partly(rows: seq<Row>, removed: set<string>, docs: seq<Doc>, k: nat, embed: Embedding): seq<Row> {
    Step(rows, Live(removed, docs, k), embed)
  }

  function StoredPart(rows: seq<Row>, removed: set<string>, docs: seq<Doc>, k: nat): seq<Doc> {
    var todo := LiveTodo(rows, removed, docs);
    todo[..Min(k, |todo|)]
  }

  lemma TodoOfLibrary(rows: seq<Row>, removed: set<string>, library: seq<Doc>, docs: seq<Doc>, k: nat)
    requires forall d | d in docs :: d in library
    ensures forall d | d in LiveTodo(rows, removed, docs) :: d in library && !Current(Lookup(Without(rows, removed)), d)
    ensures forall d | d in StoredPart(rows, removed, docs, k) :: d in LiveTodo(rows, removed, docs)
  {
    hide Todo, Lookup;
    forall d | d in LiveTodo(rows, removed, docs)
      ensures d in library && !Current(Lookup(Without(rows, removed)), d)
    {
      TodoMembers(Lookup(Without(rows, removed)), docs, d);
    }
  }

  /** After an update that fails, exactly the documents that were not stored are still missing or out of
      date. */
  lemma StaleAfterUpdate(
      rows: seq<Row>, library: seq<Doc>, removed: set<string>, docs: seq<Doc>, k: nat, embed: Embedding, d: Doc)
    requires DistinctRows(rows) && Consistent(library) && d in library && forall x | x in docs :: x in library
    ensures DistinctRows(Partly(rows, removed, docs, k, embed))
    ensures Current(Lookup(Partly(rows, removed, docs, k, embed)), d)
       <==> d in StoredPart(rows, removed, docs, k) || Current(Lookup(Without(rows, removed)), d)
  {
    hide Lookup, Stored, LiveTodo;
    var part := StoredPart(rows, removed, docs, k);
    TodoOfLibrary(rows, removed, library, docs, k);
    WithoutDistinct(rows, removed);
    ConsistentPart(library, part);
    StoredLookup(Without(rows, removed), part, embed);
    IdOfPart(library, part, d);
  }

  /** Two ways to store the same documents give the same map. */
  lemma {:induction false} SameStored(rows: seq<Row>, a: seq<Doc>, b: seq<Doc>, embed: Embedding)
    requires DistinctRows(rows) && Consistent(a) && forall d :: d in a <==> d in b
    ensures DistinctRows(Stored(rows, a, embed)) && DistinctRows(Stored(rows, b, embed))
    ensures Lookup(Stored(rows, a, embed)) == Lookup(Stored(rows, b, embed))
  {
    hide Lookup, Stored;
    ConsistentPart(a, b);
    StoredLookup(rows, a, embed);
    StoredLookup(rows, b, embed);
    assert DocIds(a) == DocIds(b);
    var x, y := Lookup(Stored(rows, a, embed)), Lookup(Stored(rows, b, embed));
    forall id | id in x
      ensures x[id] == y[id]
    {
      if id in DocIds(a) {
        var d :| d in a && d.entry.id == id;
      }
    }
  }

  /** A live update makes index and library agree if and only if the changes cover the difference and
      every document that had to be embedded was stored before it failed. */
  lemma {:induction false} UpdateConverges(
      rows: seq<Row>, library: seq<Doc>, changed: set<string>, removed: set<string>, docs: seq<Doc>, k: nat,
      embed: Embedding)
    requires DistinctRows(rows) && Consistent(library) && Trusted(Lookup(rows), library, embed)
    requires Answers(library, changed, docs)
    ensures Agrees(Partly(rows, removed, docs, k, embed), library, embed)
       <==> && Covers(Lookup(rows), library, changed, removed)
            && (forall d | d in LiveTodo(rows, removed, docs) :: d in StoredPart(rows, removed, docs, k))
  {
    hide Lookup, Stored, Trusted, Covers, Todo;
    var base, todo, part := Without(rows, removed), LiveTodo(rows, removed, docs), StoredPart(rows, removed, docs, k);
    TodoOfLibrary(rows, removed, library, docs, k);
    WithoutDistinct(rows, removed);
    if forall d | d in todo :: d in part {
      ConsistentPart(library, part);
      SameStored(base, part, todo, embed);
      LiveUpdateConverges(rows, library, changed, removed, docs, embed);
    } else {
      var d :| d in todo && d !in part;
      StaleAfterUpdate(rows, library, removed, docs, k, embed, d);
    }
  }

  /** For distinct documents: if and only if the update stored them all. */
  lemma {:induction false} FailedUpdateConverges(
      rows: seq<Row>, library: seq<Doc>, changed: set<string>, removed: set<string>, docs: seq<Doc>, k: nat,
      embed: Embedding)
    requires DistinctRows(rows) && Consistent(library) && Trusted(Lookup(rows), library, embed)
    requires Answers(library, changed, docs) && DistinctDocs(docs)
    ensures Agrees(Partly(rows, removed, docs, k, embed), library, embed)
       <==> Covers(Lookup(rows), library, changed, removed) && k >= |LiveTodo(rows, removed, docs)|
  {
    hide Lookup, Stored, Trusted, Covers, Todo, Agrees;
    var todo, part := LiveTodo(rows, removed, docs), StoredPart(rows, removed, docs, k);
    UpdateConverges(rows, library, changed, removed, docs, k, embed);
    TodoDistinct(Lookup(Without(rows, removed)), docs);
    if k < |todo| {
      assert todo[k] in todo;
      assert todo[k] !in part;
    } else {
      assert part == todo;
    }
  }

  /** An update whose request to the library fails changes nothing, so index and library agree afterwards
      if and only if no change was needed. */
  lemma RefusedUpdateConverges(rows: seq<Row>, library: seq<Doc>, embed: Embedding)
    requires DistinctRows(rows) && Consistent(library) && Trusted(Lookup(rows), library, embed)
    ensures Agrees(rows, library, embed) <==> Covers(Lookup(rows), library, {}, {})
  {
    hide Lookup, Trusted, Covers, Agrees;
    WithoutNothing(rows);
    assert Applied(rows, {}, [], embed) == rows;
    LiveUpdateConverges(rows, library, {}, {}, [], embed);
  }

  /** A new item whose update fails in its first batch is not in the index afterwards, although the
      changes named it. */
  lemma FailedUpdateLosesItem(d: Doc, embed: Embedding)
    ensures Answers([d], {d.entry.id}, [d]) && Covers(Lookup([]), [d], {d.entry.id}, {})
    ensures Partly([], {}, [d], 0, embed) == [] && !Agrees([], [d], embed)
  {
    assert [d][0] == d && d in [d];
    assert [d][..0] == [];
    assert d.entry.id in DocIds([d]);
  }
}
