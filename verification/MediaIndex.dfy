/** The vectors of the media library and what they belong to (src/media/index.rs). */
module MediaIndex {
  import opened Common
  import opened Rows
  import opened Ranking

  datatype Hit = Hit(entry: Entry, score: real)

  /** The table from ids to positions that belongs to an entry list; the last duplicate wins. */
  function ById(entries: seq<Entry>): map<string, nat> {
    if entries == [] then map[]
    else
      var last := |entries| - 1;
      ById(entries[..last])[entries[last].id := last]
  }

  /** `byId` is the inverse of the entry list. */
  ghost predicate Inverse(entries: seq<Entry>, byId: map<string, nat>) {
    && (forall i | 0 <= i < |entries| :: entries[i].id in byId && byId[entries[i].id] == i)
    && (forall id | id in byId :: byId[id] < |entries| && entries[byId[id]].id == id)
  }

  lemma {:induction false} ByIdIsInverse(entries: seq<Entry>)
    requires DistinctIds(entries)
    ensures Inverse(entries, ById(entries))
  {
    if entries != [] {
      ByIdIsInverse(entries[..|entries| - 1]);
    }
  }

  lemma InverseIsFind(entries: seq<Entry>, byId: map<string, nat>, rows: seq<Row>, id: string)
    requires Inverse(entries, byId) && |rows| == |entries|
    requires forall i | 0 <= i < |rows| :: rows[i].entry == entries[i]
    ensures DistinctRows(rows) && DistinctIds(entries)
    ensures Find(rows, id) == if id in byId then Some(byId[id]) else None
  {
    forall i, j | 0 <= i < j < |rows|
      ensures rows[i].entry.id != rows[j].entry.id
    {
      assert entries[i].id in byId && entries[j].id in byId;
    }
    if id in byId {
      FindAt(rows, byId[id]);
    } else {
      forall i | 0 <= i < |rows|
        ensures rows[i].entry.id != id
      {
        assert entries[i].id in byId;
      }
    }
  }

  /** The scored positions of the first `n` rows that pass `keep`, in their order. */
  function ScoredRows(rows: seq<Row>, n: nat, score: Vector -> real, keep: Entry -> bool): (s: seq<Scored>)
    requires n <= |rows|
    ensures forall x | x in s :: x.pos < n && keep(rows[x.pos].entry) && x.score == score(rows[x.pos].vector)
    ensures forall i, j | 0 <= i < j < |s| :: s[i].pos < s[j].pos
    ensures forall i: nat | i < n && keep(rows[i].entry) :: Scored(i, score(rows[i].vector)) in s
  {
    if n == 0 then []
    else
      var before := ScoredRows(rows, n - 1, score, keep);
      if keep(rows[n - 1].entry) then before + [Scored(n - 1, score(rows[n - 1].vector))] else before
  }

  function HitsOf(rows: seq<Row>, top: seq<Scored>): (hits: seq<Hit>)
    requires forall x | x in top :: x.pos < |rows|
    ensures |hits| == |top|
    ensures forall i | 0 <= i < |top| :: hits[i] == Hit(rows[top[i].pos].entry, top[i].score)
  {
    seq(|top|, i requires 0 <= i < |top| => Hit(rows[top[i].pos].entry, top[i].score))
  }

  /** What `rank` returns: hits at distinct positions that pass `keep`, best first, as many as the
      limit allows, and no kept row that is left out scores higher. */
  ghost predicate IsRanking(rows: seq<Row>, score: Vector -> real, keep: Entry -> bool, limit: nat, hits: seq<Hit>) {
    var all := ScoredRows(rows, |rows|, score, keep);
    exists top :: IsTop(all, limit, top) && (forall x | x in top :: x in all) && hits == HitsOf(rows, top)
  }

  lemma TopIsPart(all: seq<Scored>, limit: nat, top: seq<Scored>)
    requires IsTop(all, limit, top)
    ensures forall x | x in top :: x in all
  {
    var rest: seq<Scored> :| Splits(all, top, rest);
    forall x | x in top
      ensures x in all
    {
      assert x in multiset(all);
    }
  }

  /** The loop of `remove`: it copies what stays. */
  method KeepOthers(entries: seq<Entry>, vectors: Vector, dims: nat, gone: set<string>)
    returns (kept: seq<Entry>, keptVectors: Vector)
    requires |vectors| == |entries| * dims
    ensures |keptVectors| == |kept| * dims && |kept| <= |entries|
    ensures RowsOf(kept, keptVectors, dims) == Without(RowsOf(entries, vectors, dims), gone)
  {
    hide RowsOf;
    ghost var rows := RowsOf(entries, vectors, dims);
    kept := [];
    keptVectors := [];
    for i := 0 to |entries|
      invariant |keptVectors| == |kept| * dims && |kept| <= i
      invariant RowsOf(kept, keptVectors, dims) == Without(rows[..i], gone)
    {
      RowAt(entries, vectors, dims, i);
      assert rows[..i + 1][..i] == rows[..i];
      if entries[i].id !in gone {
        RowsPush(kept, keptVectors, dims, entries[i], Slice(vectors, dims, i));
        keptVectors := keptVectors + Slice(vectors, dims, i);
        kept := kept + [entries[i]];
      }
    }
    assert rows[..|entries|] == rows;
  }

  class Index {
    const dims: nat
    var entries: seq<Entry>
    var vectors: Vector
    var byId: map<string, nat>

    ghost predicate Valid()
      reads this
    {
      dims > 0 && |vectors| == |entries| * dims && Inverse(entries, byId)
    }

    /** The content as a list of rows. */
    function Content(): (rows: seq<Row>)
      requires |vectors| == |entries| * dims
      reads this
      ensures |rows| == |entries| && forall i | 0 <= i < |entries| :: rows[i].entry == entries[i]
    {
      RowsOf(entries, vectors, dims)
    }

    constructor (dims: nat)
      requires dims > 0
      ensures Valid() && this.dims == dims && Content() == []
    {
      this.dims := dims;
      entries := [];
      vectors := [];
      byId := map[];
    }

    /** An index of given content, as `load` makes it. */
    constructor Of(dims: nat, entries: seq<Entry>, vectors: Vector)
      requires dims > 0 && |vectors| == |entries| * dims
      ensures this.dims == dims && this.entries == entries && this.vectors == vectors
      ensures DistinctIds(entries) ==> Valid()
    {
      this.dims := dims;
      this.entries := entries;
      this.vectors := vectors;
      byId := ById(entries);
      new;
      if DistinctIds(entries) {
        ByIdIsInverse(entries);
      }
    }

    lemma IdsAreDistinct()
      requires Valid()
      ensures DistinctRows(Content())
      ensures forall id :: Find(Content(), id) == if id in byId then Some(byId[id]) else None
    {
      forall id {
        InverseIsFind(entries, byId, Content(), id);
      }
      InverseIsFind(entries, byId, Content(), "");
    }

    /** Adds or replaces an entry. */
    method UpsertRow(entry: Entry, vector: Vector) returns (r: Result<(), ()>)
      requires Valid()
      modifies this
      ensures Valid() && r.Ok? == (|vector| == dims)
      ensures Content() == if r.Ok? then Upsert(old(Content()), Row(entry, vector)) else old(Content())
    {
      if |vector| != dims {
        return Err(());
      }
      IdsAreDistinct();
      if entry.id in byId {
        var i := byId[entry.id];
        RowsSet(entries, vectors, dims, i, entry, vector);
        entries := entries[i := entry];
        vectors := vectors[..i * dims] + vector + vectors[(i + 1) * dims..];
      } else {
        RowsPush(entries, vectors, dims, entry, vector);
        byId := byId[entry.id := |entries|];
        entries := entries + [entry];
        vectors := vectors + vector;
      }
      return Ok(());
    }

    /** Removes entries and tells how many were there. */
    method Remove(ids: seq<string>) returns (removed: nat)
      requires Valid()
      modifies this
      ensures Valid()
      ensures Content() == Without(old(Content()), IdSet(ids))
      ensures removed == |Ids(old(Content())) * IdSet(ids)|
    {
      var gone := IdSet(ids);
      var before := |entries|;
      ghost var rows := Content();
      IdsAreDistinct();
      var kept, keptVectors := KeepOthers(entries, vectors, dims, gone);
      WithoutDistinct(rows, gone);
      DistinctEntries(RowsOf(kept, keptVectors, dims), kept);
      RemovedCount(rows, gone);
      ByIdIsInverse(kept);
      entries := kept;
      vectors := keptVectors;
      byId := ById(kept);
      return before - |entries|;
    }

    /** The entry with this id. */
    method Get(id: string) returns (e: Option<Entry>)
      requires Valid()
      ensures e == if id in Lookup(Content()) then Some(Lookup(Content())[id].entry) else None
    {
      IdsAreDistinct();
      LookupIsFind(Content(), id);
      if id in byId {
        return Some(entries[byId[id]]);
      }
      return None;
    }

    /** The most similar entries that pass `keep`, best first; `dot` compares a row with the query. */
    method Rank(query: Vector, limit: nat, dot: (Vector, Vector) -> real, keep: Entry -> bool)
      returns (hits: seq<Hit>)
      requires Valid()
      ensures |query| != dims || limit == 0 ==> hits == []
      ensures |query| == dims && limit > 0 ==> IsRanking(Content(), v => dot(v, query), keep, limit, hits)
    {
      if |query| != dims || limit == 0 {
        return [];
      }
      ghost var rows := Content();
      ghost var score := v => dot(v, query);
      var scored: seq<Scored> := [];
      for i := 0 to |entries|
        invariant scored == ScoredRows(rows, i, score, keep)
      {
        RowAt(entries, vectors, dims, i);
        if keep(entries[i]) {
          scored := scored + [Scored(i, dot(Slice(vectors, dims, i), query))];
        }
      }
      hide IsTop, ScoredRows;
      var top := Top(scored, limit);
      TopIsPart(scored, limit, top);
      assert forall x | x in top :: x in scored;
      hits := MakeHits(entries, top, rows);
    }
  }

  /** The loop of `rank` over the selected positions. */
  method MakeHits(entries: seq<Entry>, top: seq<Scored>, ghost rows: seq<Row>) returns (hits: seq<Hit>)
    requires |rows| == |entries| && forall i | 0 <= i < |rows| :: rows[i].entry == entries[i]
    requires forall x | x in top :: x.pos < |rows|
    ensures hits == HitsOf(rows, top)
  {
    hits := [];
    for i := 0 to |top|
      invariant hits == HitsOf(rows, top[..i])
    {
      assert top[i] in top;
      hits := hits + [Hit(entries[top[i].pos], top[i].score)];
    }
    assert top[..|top|] == top;
  }

  lemma DistinctEntries(rows: seq<Row>, entries: seq<Entry>)
    requires DistinctRows(rows) && |rows| == |entries|
    requires forall i | 0 <= i < |rows| :: rows[i].entry == entries[i]
    ensures DistinctIds(entries)
  {
    forall i, j | 0 <= i < j < |entries|
      ensures entries[i].id != entries[j].id
    {
      assert rows[i].entry == entries[i] && rows[j].entry == entries[j];
    }
  }

  // What a ranking promises

  lemma {:induction false} AllPositionsOnce(all: seq<Scored>, x: Scored)
    requires forall i, j | 0 <= i < j < |all| :: all[i].pos < all[j].pos
    ensures multiset(all)[x] <= 1
    decreases |all|
  {
    if all != [] {
      AllPositionsOnce(all[1..], x);
      assert all == [all[0]] + all[1..];
      forall y | y in all[1..]
        ensures y.pos > all[0].pos
      {
        var i :| 0 <= i < |all[1..]| && all[1..][i] == y;
        assert all[i + 1] == y;
      }
    }
  }

  lemma {:induction false} OccursTwice(s: seq<Scored>, i: nat, j: nat)
    requires i < j < |s| && s[i] == s[j]
    ensures multiset(s)[s[i]] >= 2
  {
    assert s == s[..i + 1] + s[i + 1..];
    assert s[i] in s[..i + 1] by { assert s[..i + 1][i] == s[i]; }
    assert s[j] in s[i + 1..] by { assert s[i + 1..][j - i - 1] == s[j]; }
  }

  lemma TopPositions(all: seq<Scored>, limit: nat, top: seq<Scored>, i: nat, j: nat)
    requires forall i, j | 0 <= i < j < |all| :: all[i].pos < all[j].pos
    requires IsTop(all, limit, top) && i < j < |top|
    ensures top[i].pos != top[j].pos && top[i].score >= top[j].score
  {
    var rest: seq<Scored> :| Splits(all, top, rest);
    if top[i].pos == top[j].pos {
      TopIsPart(all, limit, top);
      assert top[i] in top && top[j] in top;
      var a :| 0 <= a < |all| && all[a] == top[i];
      var b :| 0 <= b < |all| && all[b] == top[j];
      assert a == b;
      OccursTwice(top, i, j);
      AllPositionsOnce(all, top[i]);
    }
  }

  lemma LeftOut(all: seq<Scored>, limit: nat, top: seq<Scored>, x: Scored, i: nat)
    requires IsTop(all, limit, top) && x in all && x !in top && i < |top|
    ensures x.score <= top[i].score
  {
    var rest: seq<Scored> :| Splits(all, top, rest);
    assert x in multiset(all);
    assert x in multiset(rest) && top[i] in top;
  }

  /** The positions of the hits are distinct and pass `keep`, and every kept row that is not among
      them scores at most what each hit scores. */
  lemma {:induction false} RankingPromises(rows: seq<Row>, score: Vector -> real, keep: Entry -> bool, limit: nat, hits: seq<Hit>)
    returns (pos: seq<nat>)
    requires IsRanking(rows, score, keep, limit, hits)
    ensures |pos| == |hits| == Min(limit, |ScoredRows(rows, |rows|, score, keep)|)
    ensures forall i | 0 <= i < |pos| ::
      pos[i] < |rows| && keep(rows[pos[i]].entry) && hits[i] == Hit(rows[pos[i]].entry, score(rows[pos[i]].vector))
    ensures forall i, j | 0 <= i < j < |pos| :: pos[i] != pos[j] && hits[i].score >= hits[j].score
    ensures forall k: nat, i | k < |rows| && keep(rows[k].entry) && k !in pos && 0 <= i < |hits| ::
      score(rows[k].vector) <= hits[i].score
  {
    hide IsTop, ScoredRows;
    var all := ScoredRows(rows, |rows|, score, keep);
    var top: seq<Scored> :| IsTop(all, limit, top) && (forall x | x in top :: x in all) && hits == HitsOf(rows, top);
    TopSize(all, limit, top);
    pos := seq(|top|, i requires 0 <= i < |top| => top[i].pos);
    forall i | 0 <= i < |top|
      ensures pos[i] < |rows| && keep(rows[pos[i]].entry) && hits[i] == Hit(rows[pos[i]].entry, score(rows[pos[i]].vector))
    {
      assert top[i] in all;
    }
    forall i, j | 0 <= i < j < |pos|
      ensures pos[i] != pos[j] && hits[i].score >= hits[j].score
    {
      TopPositions(all, limit, top, i, j);
    }
    forall k: nat, i | k < |rows| && keep(rows[k].entry) && k !in pos && 0 <= i < |hits|
      ensures score(rows[k].vector) <= hits[i].score
    {
      var x := Scored(k, score(rows[k].vector));
      forall j | 0 <= j < |top|
        ensures top[j] != x
      {
        assert pos[j] in pos;
      }
      LeftOut(all, limit, top, x, i);
    }
  }

  lemma TopSize(all: seq<Scored>, limit: nat, top: seq<Scored>)
    requires IsTop(all, limit, top)
    ensures |top| == Min(limit, |all|)
  {
  }

  /** The scores of a ranking are the first scores of a full sort, whatever the selection did. */
  lemma {:induction false} RankingScores(rows: seq<Row>, score: Vector -> real, keep: Entry -> bool, limit: nat, hits: seq<Hit>)
    requires IsRanking(rows, score, keep, limit, hits)
    ensures var sorted := SortScores(ScoredRows(rows, |rows|, score, keep));
            |hits| == Min(limit, |sorted|) && forall i | 0 <= i < |hits| :: hits[i].score == sorted[i].score
  {
    var all := ScoredRows(rows, |rows|, score, keep);
    var top: seq<Scored> :| IsTop(all, limit, top) && (forall x | x in top :: x in all) && hits == HitsOf(rows, top);
    TopScoresAreSortedScores(all, limit, top);
    forall i | 0 <= i < |hits|
      ensures hits[i].score == SortScores(all)[i].score
    {
      assert Scores(top)[i] == Scores(SortScores(all))[..|top|][i];
    }
  }
}
