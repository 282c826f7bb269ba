/** Old entries over new vectors: the only damage that a crash during a save can leave. */
module TornIndex {
  import opened Common
  import opened Rows
  import opened Sync

  /** The entry list of an earlier save over the vectors of a later one. */
  ghost predicate Torn(earlier: seq<Entry>, rows: seq<Row>, torn: seq<Row>) {
    && |earlier| == |rows| == |torn|
    && forall i | 0 <= i < |torn| :: torn[i] == Row(earlier[i], rows[i].vector)
  }

  /** Each entry that the library would not embed again stands where the later save has it. */
  ghost predicate KeptInPlace(earlier: seq<Entry>, rows: seq<Row>, docs: seq<Doc>)
    requires |earlier| == |rows|
  {
    forall i, d | 0 <= i < |earlier| && d in docs && d.entry.id == earlier[i].id && d.entry.hash == earlier[i].hash ::
      rows[i].entry.id == earlier[i].id
  }

  lemma TornDistinct(earlier: seq<Entry>, rows: seq<Row>, torn: seq<Row>)
    requires Torn(earlier, rows, torn) && DistinctIds(earlier)
    ensures DistinctRows(torn)
  {
  }

  lemma RowInLookup(rows: seq<Row>, i: nat)
    requires DistinctRows(rows) && i < |rows|
    ensures rows[i].entry.id in Lookup(rows) && Lookup(rows)[rows[i].entry.id] == rows[i]
  {
    FindAt(rows, i);
    LookupIsFind(rows, rows[i].entry.id);
  }

  lemma LookupRow(rows: seq<Row>, id: string) returns (i: nat)
    requires DistinctRows(rows) && id in Lookup(rows)
    ensures i < |rows| && rows[i].entry.id == id && Lookup(rows)[id] == rows[i]
  {
    LookupIsFind(rows, id);
    i := Find(rows, id).value;
  }

  /** What the later save holds at position `i` belongs to a document of the library. */
  lemma VectorOfDoc(rows: seq<Row>, docs: seq<Doc>, embed: Embedding, i: nat) returns (d: Doc)
    requires Agrees(rows, docs, embed) && i < |rows|
    ensures d in docs && d.entry.id == rows[i].entry.id && rows[i].vector == embed(d.text)
  {
    RowInLookup(rows, i);
    assert rows[i].entry.id in DocIds(docs);
    d :| d in docs && d.entry.id == rows[i].entry.id;
  }

  /** Entries in place make the torn index trustworthy. */
  lemma InPlaceIsTrusted(earlier: seq<Entry>, rows: seq<Row>, torn: seq<Row>, docs: seq<Doc>, embed: Embedding)
    requires Torn(earlier, rows, torn) && DistinctIds(earlier) && Consistent(docs)
    requires Agrees(rows, docs, embed) && KeptInPlace(earlier, rows, docs)
    ensures DistinctRows(torn) && Trusted(Lookup(torn), docs, embed)
  {
    TornDistinct(earlier, rows, torn);
    forall d | d in docs && Current(Lookup(torn), d)
      ensures Lookup(torn)[d.entry.id].vector == embed(d.text)
    {
      var i := LookupRow(torn, d.entry.id);
      var e := VectorOfDoc(rows, docs, embed, i);
      assert rows[i].entry.id == earlier[i].id;
    }
  }

  /** A document that is current before a sync keeps its row in the sync. */
  lemma {:induction false} CurrentIsKept(rows: seq<Row>, docs: seq<Doc>, embed: Embedding, d: Doc)
    requires DistinctRows(rows) && Consistent(docs) && d in docs && Current(Lookup(rows), d)
    ensures var after := Lookup(Synced(rows, docs, embed, |FullTodo(rows, docs)|));
            d.entry.id in after && after[d.entry.id] == Lookup(rows)[d.entry.id]
  {
    hide Lookup, Stored, Todo, Base;
    var todo := FullTodo(rows, docs);
    var m := Lookup(Base(rows, docs));
    assert todo[..|todo|] == todo;
    BaseLookup(rows, docs);
    forall p | p in todo
      ensures p in docs && !Current(m, p)
    {
      TodoMembers(m, docs, p);
    }
    StoredLookup(Base(rows, docs), todo, embed);
    assert d.entry.id in DocIds(docs) && d.entry.id !in Gone(rows, docs);
    IdOfPart(docs, todo, d);
  }

  /** Repair: if the later save agreed with the library and the library has not changed since, the
      next full sync repairs a torn index exactly if each entry it would keep is still in place.
      Different texts are assumed to have different vectors. */
  lemma TornIndexIsRepaired(earlier: seq<Entry>, rows: seq<Row>, torn: seq<Row>, docs: seq<Doc>, embed: Embedding)
    requires Torn(earlier, rows, torn) && DistinctIds(earlier) && DistinctDocs(docs)
    requires Agrees(rows, docs, embed)
    requires forall a, b | a in docs && b in docs && embed(a.text) == embed(b.text) :: a == b
    ensures Agrees(Synced(torn, docs, embed, |FullTodo(torn, docs)|), docs, embed) <==> KeptInPlace(earlier, rows, docs)
  {
    hide Lookup, Synced, FullTodo;
    DistinctIsConsistent(docs);
    TornDistinct(earlier, rows, torn);
    if KeptInPlace(earlier, rows, docs) {
      InPlaceIsTrusted(earlier, rows, torn, docs, embed);
      SyncConverges(torn, docs, embed);
    } else {
      var i, d :| 0 <= i < |earlier| && d in docs && d.entry.id == earlier[i].id && d.entry.hash == earlier[i].hash
        && rows[i].entry.id != earlier[i].id;
      RowInLookup(torn, i);
      CurrentIsKept(torn, docs, embed, d);
      var other := VectorOfDoc(rows, docs, embed, i);
      assert embed(other.text) != embed(d.text);
    }
  }

  /** Entries with the same ids in the same order make a trustworthy index, if each entry of the later save
      is current or still the old one. */
  lemma SameOrderIsTrusted(earlier: seq<Entry>, rows: seq<Row>, torn: seq<Row>, docs: seq<Doc>, embed: Embedding)
    requires Torn(earlier, rows, torn) && DistinctRows(rows) && Consistent(docs)
    requires Trusted(Lookup(rows), docs, embed)
    requires forall i | 0 <= i < |rows| :: rows[i].entry.id == earlier[i].id
    requires forall i, d | 0 <= i < |rows| && d in docs && d.entry.id == earlier[i].id ::
      rows[i].entry.hash in {earlier[i].hash, d.entry.hash}
    ensures DistinctRows(torn) && Trusted(Lookup(torn), docs, embed)
  {
    hide Lookup;
    assert DistinctRows(torn);
    forall d | d in docs && Current(Lookup(torn), d)
      ensures Lookup(torn)[d.entry.id].vector == embed(d.text)
    {
      var i := LookupRow(torn, d.entry.id);
      RowInLookup(rows, i);
      assert rows[i].entry.hash in {earlier[i].hash, d.entry.hash};
    }
  }

  /** The same ids in the same order are always repaired, also if the later save was taken in the
      middle of a sync: each of its entries is then current or still the old one. */
  lemma {:induction false} SameOrderIsRepaired(earlier: seq<Entry>, rows: seq<Row>, torn: seq<Row>, docs: seq<Doc>, embed: Embedding)
    requires Torn(earlier, rows, torn) && DistinctRows(rows) && Consistent(docs)
    requires Trusted(Lookup(rows), docs, embed)
    requires forall i | 0 <= i < |rows| :: rows[i].entry.id == earlier[i].id
    requires forall i, d | 0 <= i < |rows| && d in docs && d.entry.id == earlier[i].id ::
      rows[i].entry.hash in {earlier[i].hash, d.entry.hash}
    ensures Agrees(Synced(torn, docs, embed, |FullTodo(torn, docs)|), docs, embed)
  {
    hide Lookup, Synced, FullTodo;
    SameOrderIsTrusted(earlier, rows, torn, docs, embed);
    SyncConverges(torn, docs, embed);
  }

  // Why vectors match hashes

  type Hash = string -> nat

  /** Every row holds the vector of each text in play that has its hash. */
  ghost predicate Faithful(rows: seq<Row>, texts: set<string>, hash: Hash, embed: Embedding) {
    forall r, t | r in rows && t in texts && hash(t) == r.entry.hash :: r.vector == embed(t)
  }

  ghost predicate NoCollision(texts: set<string>, hash: Hash) {
    forall s, t | s in texts && t in texts && hash(s) == hash(t) :: s == t
  }

  ghost predicate Hashed(docs: seq<Doc>, texts: set<string>, hash: Hash) {
    forall d | d in docs :: d.text in texts && d.entry.hash == hash(d.text)
  }

  lemma FaithfulIsTrusted(rows: seq<Row>, docs: seq<Doc>, texts: set<string>, hash: Hash, embed: Embedding)
    requires DistinctRows(rows) && Faithful(rows, texts, hash, embed) && Hashed(docs, texts, hash)
    ensures Trusted(Lookup(rows), docs, embed)
  {
    forall d | d in docs && Current(Lookup(rows), d)
      ensures Lookup(rows)[d.entry.id].vector == embed(d.text)
    {
      var i := LookupRow(rows, d.entry.id);
      assert rows[i] in rows;
    }
  }

  lemma UpsertMembers(rows: seq<Row>, row: Row)
    ensures forall r | r in Upsert(rows, row) :: r in rows || r == row
  {
  }

  lemma {:induction false} StoringIsFaithful(rows: seq<Row>, docs: seq<Doc>, texts: set<string>, hash: Hash, embed: Embedding)
    requires Faithful(rows, texts, hash, embed) && NoCollision(texts, hash) && Hashed(docs, texts, hash)
    ensures Faithful(Stored(rows, docs, embed), texts, hash, embed)
    decreases |docs|
  {
    if docs != [] {
      hide Upsert;
      var init, last := docs[..|docs| - 1], docs[|docs| - 1];
      StoringIsFaithful(rows, init, texts, hash, embed);
      UpsertMembers(Stored(rows, init, embed), RowOf(last, embed));
    }
  }

  /** Without hash collisions, every sync against any library, complete or interrupted, keeps the
      vectors faithful to the hashes; so the next one can trust them, whatever the library is then. */
  lemma SyncIsFaithful(rows: seq<Row>, docs: seq<Doc>, k: nat, texts: set<string>, hash: Hash, embed: Embedding)
    requires Faithful(rows, texts, hash, embed) && NoCollision(texts, hash) && Hashed(docs, texts, hash)
    requires k <= |FullTodo(rows, docs)|
    ensures Faithful(Synced(rows, docs, embed, k), texts, hash, embed)
  {
    hide Todo, Lookup, Stored;
    var part := FullTodo(rows, docs)[..k];
    forall d | d in part
      ensures d in docs
    {
      assert d in FullTodo(rows, docs);
      TodoMembers(Lookup(Base(rows, docs)), docs, d);
    }
    forall r | r in Base(rows, docs)
      ensures r in rows
    {
      WithoutMembers(rows, Gone(rows, docs), r);
    }
    StoringIsFaithful(Base(rows, docs), part, texts, hash, embed);
  }

  /** Every row holds the vector of some text in play, and that text has the row's hash. */
  ghost predicate Embedded(rows: seq<Row>, texts: set<string>, hash: Hash, embed: Embedding) {
    forall r | r in rows :: exists t | t in texts :: hash(t) == r.entry.hash && r.vector == embed(t)
  }

  /** Different texts have different vectors. */
  ghost predicate NoTwins(texts: set<string>, embed: Embedding) {
    forall s, t | s in texts && t in texts && embed(s) == embed(t) :: s == t
  }

  lemma EmbeddedIsFaithful(rows: seq<Row>, texts: set<string>, hash: Hash, embed: Embedding)
    requires Embedded(rows, texts, hash, embed) && NoCollision(texts, hash)
    ensures Faithful(rows, texts, hash, embed)
  {
  }

  lemma {:induction false} StoringIsEmbedded(rows: seq<Row>, docs: seq<Doc>, texts: set<string>, hash: Hash, embed: Embedding)
    requires Embedded(rows, texts, hash, embed) && Hashed(docs, texts, hash)
    ensures Embedded(Stored(rows, docs, embed), texts, hash, embed)
    decreases |docs|
  {
    if docs != [] {
      hide Upsert;
      var init, last := docs[..|docs| - 1], docs[|docs| - 1];
      StoringIsEmbedded(rows, init, texts, hash, embed);
      UpsertMembers(Stored(rows, init, embed), RowOf(last, embed));
    }
  }

  lemma WithoutIsEmbedded(rows: seq<Row>, gone: set<string>, texts: set<string>, hash: Hash, embed: Embedding)
    requires Embedded(rows, texts, hash, embed)
    ensures Embedded(Without(rows, gone), texts, hash, embed)
  {
    forall r | r in Without(rows, gone)
      ensures r in rows
    {
      WithoutMembers(rows, gone, r);
    }
  }

  /** Each entry that the library would not embed again has its hash where it stands in the later save. */
  ghost predicate HashInPlace(earlier: seq<Entry>, rows: seq<Row>, docs: seq<Doc>)
    requires |earlier| == |rows|
  {
    forall i, d | 0 <= i < |earlier| && d in docs && d.entry.id == earlier[i].id && d.entry.hash == earlier[i].hash ::
      rows[i].entry.hash == earlier[i].hash
  }

  lemma KeptVector(rows: seq<Row>, i: nat, d: Doc, texts: set<string>, hash: Hash, embed: Embedding)
    requires Embedded(rows, texts, hash, embed) && NoCollision(texts, hash) && NoTwins(texts, embed)
    requires i < |rows| && d.text in texts && d.entry.hash == hash(d.text)
    ensures rows[i].vector == embed(d.text) <==> rows[i].entry.hash == d.entry.hash
  {
    assert rows[i] in rows;
    var t :| t in texts && hash(t) == rows[i].entry.hash && rows[i].vector == embed(t);
  }

  /** Repair of a torn index whose vectors are those of any earlier state of the index, also one in the
      middle of a sync: the next full sync repairs it if and only if each entry that it keeps has its
      hash in place. */
  lemma {:induction false} TornStageIsRepaired(
      earlier: seq<Entry>, rows: seq<Row>, torn: seq<Row>, docs: seq<Doc>, texts: set<string>, hash: Hash, embed: Embedding)
    requires Torn(earlier, rows, torn) && DistinctIds(earlier) && Consistent(docs)
    requires Embedded(rows, texts, hash, embed) && Hashed(docs, texts, hash)
    requires NoCollision(texts, hash) && NoTwins(texts, embed)
    ensures Agrees(Synced(torn, docs, embed, |FullTodo(torn, docs)|), docs, embed) <==> HashInPlace(earlier, rows, docs)
  {
    hide Lookup, Synced, FullTodo, Embedded, NoCollision, NoTwins;
    TornDistinct(earlier, rows, torn);
    if HashInPlace(earlier, rows, docs) {
      forall d | d in docs && Current(Lookup(torn), d)
        ensures Lookup(torn)[d.entry.id].vector == embed(d.text)
      {
        var i := LookupRow(torn, d.entry.id);
        KeptVector(rows, i, d, texts, hash, embed);
      }
      SyncConverges(torn, docs, embed);
    } else {
      var i, d :| 0 <= i < |earlier| && d in docs && d.entry.id == earlier[i].id && d.entry.hash == earlier[i].hash
        && rows[i].entry.hash != earlier[i].hash;
      RowInLookup(torn, i);
      CurrentIsKept(torn, docs, embed, d);
      KeptVector(rows, i, d, texts, hash, embed);
    }
  }
}
