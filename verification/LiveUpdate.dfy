/** Live changes (src/media/mod.rs, `apply`): what they do to the index and when they are enough. */
module LiveUpdate {
  import opened Common
  import opened Rows
  import opened Sync

  /** The rows after removals and the documents that the library returned for the changed ids. */
  function Applied(rows: seq<Row>, removed: set<string>, docs: seq<Doc>, embed: Embedding): seq<Row> {
    var base := Without(rows, removed);
    Stored(base, Todo(Lookup(base), docs), embed)
  }

  /** The effect of an update: a returned document is in the index with its hash and its vector, a
      removed id is gone unless it was returned, and every other row is untouched. */
  lemma {:induction false} AppliedEffect(rows: seq<Row>, removed: set<string>, docs: seq<Doc>, embed: Embedding)
    requires DistinctRows(rows) && Consistent(docs) && Trusted(Lookup(rows), docs, embed)
    ensures var before, after := Lookup(rows), Lookup(Applied(rows, removed, docs, embed));
            && DistinctRows(Applied(rows, removed, docs, embed))
            && after.Keys == (before.Keys - removed) + DocIds(docs)
            && (forall d | d in docs :: Current(after, d) && after[d.entry.id].vector == embed(d.text))
            && (forall id | id in before && id !in removed && id !in DocIds(docs) :: after[id] == before[id])
  {
    hide Lookup, Stored, Todo;
    var base := Without(rows, removed);
    WithoutDistinct(rows, removed);
    WithoutIsSubtraction(rows, removed);
    var m := Lookup(base);
    var todo := Todo(m, docs);
    forall d
      ensures d in todo <==> d in docs && !Current(m, d)
    {
      TodoMembers(m, docs, d);
    }
    StoredLookup(base, todo, embed);
    var after := Lookup(Applied(rows, removed, docs, embed));
    forall d | d in docs
      ensures Current(after, d) && after[d.entry.id].vector == embed(d.text)
    {
      if d.entry.id in DocIds(todo) {
        var p :| p in todo && p.entry.id == d.entry.id;
        assert p == d;
      } else {
        assert d !in todo;
      }
    }
    assert DocIds(todo) <= DocIds(docs);
    assert after.Keys == (Lookup(rows).Keys - removed) + DocIds(docs);
  }

  /** `docs` are the documents of the library with a changed id, in any order and multiplicity. */
  ghost predicate Answers(library: seq<Doc>, changed: set<string>, docs: seq<Doc>) {
    forall d :: d in docs <==> d in library && d.entry.id in changed
  }

  /** The change set names every id on which index and library differ: new and changed items and
      removed items that the library still has are in `changed`, missing ones in `removed`. */
  ghost predicate Covers(m: map<string, Row>, library: seq<Doc>, changed: set<string>, removed: set<string>) {
    && (forall d | d in library && (!Current(m, d) || d.entry.id in removed) :: d.entry.id in changed)
    && (forall id | id in m && id !in DocIds(library) :: id in removed)
  }

  /** Live updates converge exactly if the change set covers the difference. */
  lemma {:induction false} LiveUpdateConverges(
      rows: seq<Row>, library: seq<Doc>, changed: set<string>, removed: set<string>, docs: seq<Doc>, embed: Embedding)
    requires DistinctRows(rows) && Consistent(library) && Trusted(Lookup(rows), library, embed)
    requires Answers(library, changed, docs)
    ensures Agrees(Applied(rows, removed, docs, embed), library, embed)
       <==> Covers(Lookup(rows), library, changed, removed)
  {
    hide Lookup, Applied;
    ConsistentPart(library, docs);
    AppliedEffect(rows, removed, docs, embed);
    var before, after := Lookup(rows), Lookup(Applied(rows, removed, docs, embed));
    if Covers(before, library, changed, removed) {
      forall d | d in library
        ensures Current(after, d) && after[d.entry.id].vector == embed(d.text)
      {
        Settled(before, after, library, changed, removed, docs, d, embed);
      }
      assert after.Keys == DocIds(library);
    }
    if Agrees(Applied(rows, removed, docs, embed), library, embed) {
      forall d | d in library && (!Current(before, d) || d.entry.id in removed)
        ensures d.entry.id in changed
      {
        Settled(before, after, library, changed, removed, docs, d, embed);
      }
    }
  }

  lemma Settled(
      before: map<string, Row>, after: map<string, Row>, library: seq<Doc>, changed: set<string>, removed: set<string>,
      docs: seq<Doc>, d: Doc, embed: Embedding)
    requires Consistent(library) && Answers(library, changed, docs) && d in library
    requires after.Keys == (before.Keys - removed) + DocIds(docs)
    requires forall d | d in docs :: Current(after, d) && after[d.entry.id].vector == embed(d.text)
    requires forall id | id in before && id !in removed && id !in DocIds(docs) :: after[id] == before[id]
    requires Trusted(before, library, embed)
    ensures d.entry.id in changed ==> Current(after, d) && after[d.entry.id].vector == embed(d.text)
    ensures d.entry.id !in changed ==> d.entry.id !in DocIds(docs)
    ensures d.entry.id !in changed && d.entry.id in removed ==> d.entry.id !in after
    ensures d.entry.id !in changed && d.entry.id !in removed ==> (Current(after, d) <==> Current(before, d))
    ensures d.entry.id !in changed && d.entry.id !in removed && Current(before, d) ==>
              after[d.entry.id].vector == embed(d.text)
  {
  }
}
