/**
 What a sync of the media index means (src/media/mod.rs): which documents it embeds, where it
 ends, and what an interrupted one leaves. The embedder is any function from texts to vectors.
 */
module Sync {
  import opened Common
  import opened Rows

  /** A library item ready for embedding (src/media/docs.rs). */
  datatype Doc = Doc(entry: Entry, text: string)

  type Embedding = string -> Vector

  function RowOf(d: Doc, embed: Embedding): Row {
    Row(d.entry, embed(d.text))
  }

  function DocIds(docs: seq<Doc>): set<string> {
    set d | d in docs :: d.entry.id
  }

  /** One document for each id. */
  ghost predicate DistinctDocs(docs: seq<Doc>) {
    forall i, j | 0 <= i < j < |docs| :: docs[i].entry.id != docs[j].entry.id
  }

  /** The same id always stands for the same document. */
  ghost predicate Consistent(docs: seq<Doc>) {
    forall a, b | a in docs && b in docs && a.entry.id == b.entry.id :: a == b
  }

  /** The index holds the text of this document: the hash agrees. */
  predicate Current(m: map<string, Row>, d: Doc) {
    d.entry.id in m && m[d.entry.id].entry.hash == d.entry.hash
  }

  /** The documents that must be embedded, in their order. */
  function Todo(m: map<string, Row>, docs: seq<Doc>): seq<Doc> {
    if docs == [] then []
    else
      var init, last := Todo(m, docs[..|docs| - 1]), docs[|docs| - 1];
      if Current(m, last) then init else init + [last]
  }

  function Stored(rows: seq<Row>, docs: seq<Doc>, embed: Embedding): seq<Row> {
    if docs == [] then rows
    else Upsert(Stored(rows, docs[..|docs| - 1], embed), RowOf(docs[|docs| - 1], embed))
  }

  function Gone(rows: seq<Row>, docs: seq<Doc>): set<string> {
    Ids(rows) - DocIds(docs)
  }

  /** The rows that a full sync keeps before it embeds anything. */
  function Base(rows: seq<Row>, docs: seq<Doc>): seq<Row> {
    Without(rows, Gone(rows, docs))
  }

  function FullTodo(rows: seq<Row>, docs: seq<Doc>): seq<Doc> {
    Todo(Lookup(Base(rows, docs)), docs)
  }

  /** The rows after a full sync that embedded the first `k` documents. */
  function Synced(rows: seq<Row>, docs: seq<Doc>, embed: Embedding, k: nat): seq<Row>
    requires k <= |FullTodo(rows, docs)|
  {
    Stored(Base(rows, docs), FullTodo(rows, docs)[..k], embed)
  }

  /** The index is the library: exactly its ids, each with its document's hash and embedding. */
  ghost predicate Agrees(rows: seq<Row>, docs: seq<Doc>, embed: Embedding) {
    && DistinctRows(rows)
    && Lookup(rows).Keys == DocIds(docs)
    && forall d | d in docs :: Current(Lookup(rows), d) && Lookup(rows)[d.entry.id].vector == embed(d.text)
  }

  /** Where the index has the hash of a document, it has its vector. */
  ghost predicate Trusted(m: map<string, Row>, docs: seq<Doc>, embed: Embedding) {
    forall d | d in docs && Current(m, d) :: m[d.entry.id].vector == embed(d.text)
  }

  lemma {:induction false} TodoMembers(m: map<string, Row>, docs: seq<Doc>, d: Doc)
    ensures d in Todo(m, docs) <==> d in docs && !Current(m, d)
  {
    if docs != [] {
      var n := |docs| - 1;
      TodoMembers(m, docs[..n], d);
      assert docs == docs[..n] + [docs[n]];
    }
  }

  /** `after` is `before` with the rows of `docs` put in. */
  ghost predicate Holds(before: map<string, Row>, after: map<string, Row>, docs: seq<Doc>, embed: Embedding) {
    && after.Keys == before.Keys + DocIds(docs)
    && (forall d | d in docs :: after[d.entry.id] == RowOf(d, embed))
    && (forall id | id in before && id !in DocIds(docs) :: after[id] == before[id])
  }

  lemma HoldsAppend(before: map<string, Row>, after: map<string, Row>, docs: seq<Doc>, last: Doc, embed: Embedding)
    requires Holds(before, after, docs, embed) && Consistent(docs + [last])
    ensures Holds(before, after[last.entry.id := RowOf(last, embed)], docs + [last], embed)
  {
    hide RowOf;
    var all, next := docs + [last], after[last.entry.id := RowOf(last, embed)];
    DocIdsAppend(docs, last);
    assert next.Keys == before.Keys + DocIds(all);
    assert all[|docs|] == last;
    forall d | d in all
      ensures next[d.entry.id] == RowOf(d, embed)
    {
      if d.entry.id != last.entry.id {
        assert d in docs;
      }
    }
  }

  lemma DocIdsAppend(docs: seq<Doc>, last: Doc)
    ensures DocIds(docs + [last]) == DocIds(docs) + {last.entry.id}
  {
    assert (docs + [last])[|docs|] == last;
    assert forall d :: d in docs + [last] <==> d in docs || d == last;
  }

  /** Storing documents puts their rows into the map and leaves the others alone. */
  lemma {:induction false} StoredLookup(rows: seq<Row>, docs: seq<Doc>, embed: Embedding)
    requires DistinctRows(rows) && Consistent(docs)
    ensures DistinctRows(Stored(rows, docs, embed))
    ensures Holds(Lookup(rows), Lookup(Stored(rows, docs, embed)), docs, embed)
    decreases |docs|
  {
    if docs != [] {
      hide Lookup, Upsert, Holds;
      var init, last := docs[..|docs| - 1], docs[|docs| - 1];
      assert docs == init + [last];
      StoredLookup(rows, init, embed);
      UpsertIsMapUpdate(Stored(rows, init, embed), RowOf(last, embed));
      HoldsAppend(Lookup(rows), Lookup(Stored(rows, init, embed)), init, last, embed);
    }
  }

  lemma BaseLookup(rows: seq<Row>, docs: seq<Doc>)
    requires DistinctRows(rows)
    ensures DistinctRows(Base(rows, docs))
    ensures Lookup(Base(rows, docs)) == Lookup(rows) - Gone(rows, docs)
    ensures Lookup(Base(rows, docs)).Keys == Lookup(rows).Keys * DocIds(docs)
  {
    WithoutDistinct(rows, Gone(rows, docs));
    WithoutIsSubtraction(rows, Gone(rows, docs));
    LookupKeys(rows);
  }

  lemma IdOfPart(docs: seq<Doc>, part: seq<Doc>, d: Doc)
    requires Consistent(docs) && d in docs && forall p | p in part :: p in docs
    ensures d.entry.id in DocIds(part) <==> d in part
  {
    if d.entry.id in DocIds(part) {
      var p :| p in part && p.entry.id == d.entry.id;
      assert p == d;
    }
  }

  lemma ConsistentPart(docs: seq<Doc>, part: seq<Doc>)
    requires Consistent(docs) && forall d | d in part :: d in docs
    ensures Consistent(part)
  {
  }

  /** Storing documents of a library keeps the trust in the vectors. */
  lemma {:induction false} StoringKeepsTrust(rows: seq<Row>, part: seq<Doc>, docs: seq<Doc>, embed: Embedding)
    requires DistinctRows(rows) && Consistent(docs) && Trusted(Lookup(rows), docs, embed)
    requires forall d | d in part :: d in docs
    ensures DistinctRows(Stored(rows, part, embed))
    ensures Trusted(Lookup(Stored(rows, part, embed)), docs, embed)
  {
    hide Lookup, Stored;
    StoredLookup(rows, part, embed);
    var m := Lookup(Stored(rows, part, embed));
    forall d | d in docs && Current(m, d)
      ensures m[d.entry.id].vector == embed(d.text)
    {
      if d.entry.id in DocIds(part) {
        var p :| p in part && p.entry.id == d.entry.id;
        assert p == d;
      }
    }
  }

  /** An interrupted sync keeps the trust, and so does a complete one. */
  lemma SyncKeepsTrust(rows: seq<Row>, docs: seq<Doc>, embed: Embedding, k: nat)
    requires DistinctRows(rows) && Consistent(docs) && Trusted(Lookup(rows), docs, embed)
    requires k <= |FullTodo(rows, docs)|
    ensures DistinctRows(Synced(rows, docs, embed, k))
    ensures Trusted(Lookup(Synced(rows, docs, embed, k)), docs, embed)
  {
    hide Lookup, Stored, Todo, Base;
    var part := FullTodo(rows, docs)[..k];
    forall d | d in part
      ensures d in docs
    {
      assert d in FullTodo(rows, docs);
      TodoMembers(Lookup(Base(rows, docs)), docs, d);
    }
    BaseLookup(rows, docs);
    StoringKeepsTrust(Base(rows, docs), part, docs, embed);
  }

  /** Sync convergence: a full sync ends with exactly the library. */
  lemma {:induction false} SyncConverges(rows: seq<Row>, docs: seq<Doc>, embed: Embedding)
    requires DistinctRows(rows) && Consistent(docs) && Trusted(Lookup(rows), docs, embed)
    ensures Agrees(Synced(rows, docs, embed, |FullTodo(rows, docs)|), docs, embed)
  {
    hide Lookup, Stored, Todo, Base;
    var todo := FullTodo(rows, docs);
    var m := Lookup(Base(rows, docs));
    assert todo[..|todo|] == todo;
    FullTodoMembers(rows, docs);
    ConsistentPart(docs, todo);
    BaseLookup(rows, docs);
    StoredLookup(Base(rows, docs), todo, embed);
    hide FullTodo;
    StoredIsLibrary(m, Lookup(Stored(Base(rows, docs), todo, embed)), docs, todo, embed);
  }

  lemma FullTodoMembers(rows: seq<Row>, docs: seq<Doc>)
    ensures forall d :: d in FullTodo(rows, docs) <==> d in docs && !Current(Lookup(Base(rows, docs)), d)
  {
    hide Lookup, Todo, Base;
    forall d {
      TodoMembers(Lookup(Base(rows, docs)), docs, d);
    }
  }

  /** Storing what was not current makes everything current. */
  lemma StoredIsLibrary(m: map<string, Row>, after: map<string, Row>, docs: seq<Doc>, todo: seq<Doc>, embed: Embedding)
    requires Consistent(docs) && Trusted(m, docs, embed) && m.Keys <= DocIds(docs)
    requires forall d :: d in todo <==> d in docs && !Current(m, d)
    requires Holds(m, after, todo, embed)
    ensures after.Keys == DocIds(docs)
    ensures forall d | d in docs :: Current(after, d) && after[d.entry.id].vector == embed(d.text)
  {
    forall d | d in docs
      ensures Current(after, d) && after[d.entry.id].vector == embed(d.text)
    {
      IdOfPart(docs, todo, d);
    }
    assert DocIds(todo) <= DocIds(docs);
    assert after.Keys == DocIds(docs);
  }

  /** In an index that agrees with the library, a sync removes nothing and embeds nothing. */
  lemma SecondSyncIsIdle(rows: seq<Row>, docs: seq<Doc>, embed: Embedding)
    requires Agrees(rows, docs, embed)
    ensures Gone(rows, docs) == {} && Base(rows, docs) == rows && FullTodo(rows, docs) == []
  {
    LookupKeys(rows);
    WithoutNothing(rows);
    NothingTodo(Lookup(rows), docs);
  }

  lemma {:induction false} WithoutNothing(rows: seq<Row>)
    ensures Without(rows, {}) == rows
  {
    if rows != [] {
      WithoutNothing(rows[..|rows| - 1]);
    }
  }

  lemma {:induction false} NothingTodo(m: map<string, Row>, docs: seq<Doc>)
    requires forall d | d in docs :: Current(m, d)
    ensures Todo(m, docs) == []
  {
    if docs != [] {
      NothingTodo(m, docs[..|docs| - 1]);
    }
  }

  /** Marking documents as current takes exactly them out of the work list. */
  lemma {:induction false} TodoAfter(m: map<string, Row>, after: map<string, Row>, docs: seq<Doc>, done: set<Doc>)
    requires forall d | d in docs :: Current(after, d) <==> Current(m, d) || d in done
    ensures Todo(after, docs) == Remaining(Todo(m, docs), done)
    decreases |docs|
  {
    if docs != [] {
      var n := |docs| - 1;
      assert docs == docs[..n] + [docs[n]];
      TodoAfter(m, after, docs[..n], done);
      if !Current(m, docs[n]) {
        RemainingAppend(Todo(m, docs[..n]), docs[n], done);
      }
    }
  }

  function Remaining(docs: seq<Doc>, done: set<Doc>): seq<Doc> {
    if docs == [] then []
    else
      var init, last := Remaining(docs[..|docs| - 1], done), docs[|docs| - 1];
      if last in done then init else init + [last]
  }

  lemma RemainingAppend(docs: seq<Doc>, last: Doc, done: set<Doc>)
    ensures Remaining(docs + [last], done) == Remaining(docs, done) + if last in done then [] else [last]
  {
    assert (docs + [last])[..|docs|] == docs;
  }

  lemma {:induction false} RemainingIsSuffix(docs: seq<Doc>, k: nat)
    requires k <= |docs| && forall i, j | 0 <= i < j < |docs| :: docs[i] != docs[j]
    ensures Remaining(docs, set d | d in docs[..k]) == docs[k..]
    decreases |docs|
  {
    var done := set d | d in docs[..k];
    if docs == [] {
    } else if k == |docs| {
      AllDone(docs, done);
    } else {
      var n := |docs| - 1;
      assert docs[..n][..k] == docs[..k];
      RemainingIsSuffix(docs[..n], k);
      assert docs[n] !in docs[..k];
      assert docs[k..] == docs[..n][k..] + [docs[n]];
    }
  }

  lemma {:induction false} AllDone(docs: seq<Doc>, done: set<Doc>)
    requires forall d | d in docs :: d in done
    ensures Remaining(docs, done) == []
  {
    if docs != [] {
      AllDone(docs[..|docs| - 1], done);
    }
  }

  lemma {:induction false} TodoDistinct(m: map<string, Row>, docs: seq<Doc>)
    requires DistinctDocs(docs)
    ensures DistinctDocs(Todo(m, docs))
    decreases |docs|
  {
    if docs != [] {
      var n := |docs| - 1;
      TodoDistinct(m, docs[..n]);
      forall i | 0 <= i < |Todo(m, docs[..n])|
        ensures Todo(m, docs[..n])[i].entry.id != docs[n].entry.id
      {
        TodoMembers(m, docs[..n], Todo(m, docs[..n])[i]);
      }
    }
  }

  lemma DistinctIsConsistent(docs: seq<Doc>)
    requires DistinctDocs(docs)
    ensures Consistent(docs)
  {
  }

  /** A sync that fails after `k` documents leaves exactly the others for the next sync. */
  lemma InterruptedSyncLeavesTheRest(rows: seq<Row>, docs: seq<Doc>, embed: Embedding, k: nat)
    requires DistinctRows(rows) && DistinctDocs(docs) && k <= |FullTodo(rows, docs)|
    ensures var part := Synced(rows, docs, embed, k);
            Gone(part, docs) == {} && FullTodo(part, docs) == FullTodo(rows, docs)[k..]
  {
    hide Lookup, Stored, Todo, Base, Remaining;
    DistinctIsConsistent(docs);
    var todo := FullTodo(rows, docs);
    var m := Lookup(Base(rows, docs));
    var part := todo[..k];
    forall d
      ensures d in todo <==> d in docs && !Current(m, d)
    {
      TodoMembers(m, docs, d);
    }
    assert forall d | d in part :: d in todo;
    BaseLookup(rows, docs);
    StoredLookup(Base(rows, docs), part, embed);
    var rows' := Synced(rows, docs, embed, k);
    var after := Lookup(rows');
    var done := set d | d in part;
    forall d | d in docs
      ensures Current(after, d) <==> Current(m, d) || d in done
    {
      CurrentAfter(m, after, docs, part, d, embed);
    }
    TodoDistinct(m, docs);
    RemainingIsSuffix(todo, k);
    TodoAfter(m, after, docs, done);
    assert DocIds(part) <= DocIds(docs);
    LookupKeys(rows');
    assert Gone(rows', docs) == {};
    BaseIsAll(rows', docs);
  }

  lemma CurrentAfter(m: map<string, Row>, after: map<string, Row>, docs: seq<Doc>, part: seq<Doc>, d: Doc, embed: Embedding)
    requires Consistent(docs) && d in docs && forall p | p in part :: p in docs
    requires Holds(m, after, part, embed)
    ensures Current(after, d) <==> (if d in part then true else Current(m, d))
  {
    if d.entry.id in DocIds(part) {
      var p :| p in part && p.entry.id == d.entry.id;
      assert p == d;
    }
  }

  lemma BaseIsAll(rows: seq<Row>, docs: seq<Doc>)
    requires Gone(rows, docs) == {}
    ensures Base(rows, docs) == rows
  {
    WithoutNothing(rows);
  }

  lemma {:induction false} StoredSplit(rows: seq<Row>, docs: seq<Doc>, i: nat, j: nat, embed: Embedding)
    requires i <= j <= |docs|
    ensures Stored(Stored(rows, docs[..i], embed), docs[i..j], embed) == Stored(rows, docs[..j], embed)
    decreases j - i
  {
    hide Upsert;
    if i < j {
      assert docs[i..j][..j - 1 - i] == docs[i..j - 1];
      assert docs[..j][..j - 1] == docs[..j - 1];
      StoredSplit(rows, docs, i, j - 1, embed);
    } else {
      assert docs[i..j] == [];
    }
  }

  lemma {:induction false} StoredDistinct(rows: seq<Row>, docs: seq<Doc>, embed: Embedding)
    requires DistinctRows(rows)
    ensures DistinctRows(Stored(rows, docs, embed))
    decreases |docs|
  {
    if docs != [] {
      hide Upsert, Lookup;
      StoredDistinct(rows, docs[..|docs| - 1], embed);
      UpsertIsMapUpdate(Stored(rows, docs[..|docs| - 1], embed), RowOf(docs[|docs| - 1], embed));
    }
  }

  // Short listings

  /** A listing that ends too early is taken for the library: the sync removes everything else. It still
      reaches the library if and only if nothing was missing. */
  lemma {:induction false} ShortListing(rows: seq<Row>, listed: seq<Doc>, docs: seq<Doc>, embed: Embedding)
    requires DistinctRows(rows) && Consistent(docs) && Trusted(Lookup(rows), docs, embed)
    requires forall d | d in listed :: d in docs
    ensures var after := Synced(rows, listed, embed, |FullTodo(rows, listed)|);
            && Agrees(after, listed, embed)
            && (Agrees(after, docs, embed) <==> forall d | d in docs :: d in listed)
  {
    hide Lookup, Synced, FullTodo, DistinctRows;
    ConsistentPart(docs, listed);
    SyncConverges(rows, listed, embed);
    var after := Synced(rows, listed, embed, |FullTodo(rows, listed)|);
    forall d | d in docs
      ensures d in listed <==> d.entry.id in Lookup(after)
    {
      IdOfPart(docs, listed, d);
    }
    if forall d | d in docs :: d in listed {
      assert DocIds(docs) == DocIds(listed);
    }
  }

  /** If the first page is empty, the whole index goes. */
  lemma EmptyListing(rows: seq<Row>, embed: Embedding)
    ensures FullTodo(rows, []) == [] && Synced(rows, [], embed, 0) == []
  {
    WithoutAll(rows, Gone(rows, []));
  }

  lemma {:induction false} WithoutAll(rows: seq<Row>, gone: set<string>)
    requires forall r | r in rows :: r.entry.id in gone
    ensures Without(rows, gone) == []
  {
    if rows != [] {
      assert rows[|rows| - 1] in rows;
      WithoutAll(rows[..|rows| - 1], gone);
    }
  }
}
