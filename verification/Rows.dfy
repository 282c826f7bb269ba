/**
 The content of the media index as a list of rows with distinct ids, and what `upsert` and
 `remove` (src/media/index.rs) mean on this list and on the map from ids to rows.
 */
module Rows {
  import opened Common

  /** The bits of a 32-bit float. */
  type F32 = x: int | 0 <= x < U32

  type Vector = seq<F32>

  datatype Kind = Series | Movie | Episode

  datatype Entry = Entry(
    id: string,
    kind: Kind,
    name: string,
    seriesId: Option<string>,
    seriesName: Option<string>,
    hash: nat)

  datatype Row = Row(entry: Entry, vector: Vector)

  predicate DistinctIds(entries: seq<Entry>) {
    forall i, j | 0 <= i < j < |entries| :: entries[i].id != entries[j].id
  }

  ghost predicate DistinctRows(rows: seq<Row>) {
    forall i, j | 0 <= i < j < |rows| :: rows[i].entry.id != rows[j].entry.id
  }

  /** Row `i` of the flat vector buffer. */
  function Slice(vectors: Vector, dims: nat, i: nat): (v: Vector)
    requires (i + 1) * dims <= |vectors|
    ensures |v| == dims
  {
    assert i * dims + dims == (i + 1) * dims;
    vectors[i * dims..(i + 1) * dims]
  }

  lemma MulOrder(a: int, b: int, d: nat)
    requires a <= b
    ensures a * d <= b * d
  {
  }

  /** The rows of an entry list and its flat buffer. */
  function RowsOf(entries: seq<Entry>, vectors: Vector, dims: nat): (rows: seq<Row>)
    requires |vectors| == |entries| * dims
    ensures |rows| == |entries|
    ensures forall i | 0 <= i < |entries| :: rows[i].entry == entries[i]
  {
    seq(|entries|, i requires 0 <= i < |entries| =>
      MulOrder(i + 1, |entries|, dims);
      Row(entries[i], Slice(vectors, dims, i)))
  }

  lemma RowAt(entries: seq<Entry>, vectors: Vector, dims: nat, i: nat)
    requires |vectors| == |entries| * dims && i < |entries|
    ensures (i + 1) * dims <= |vectors|
    ensures RowsOf(entries, vectors, dims)[i] == Row(entries[i], Slice(vectors, dims, i))
  {
    MulOrder(i + 1, |entries|, dims);
  }

  lemma SliceOfLonger(vectors: Vector, v: Vector, dims: nat, i: nat)
    requires (i + 1) * dims <= |vectors|
    ensures Slice(vectors + v, dims, i) == Slice(vectors, dims, i)
  {
    MulOrder(i, i + 1, dims);
  }

  lemma SliceAtEnd(vectors: Vector, v: Vector, dims: nat, n: nat)
    requires |vectors| == n * dims && |v| == dims
    ensures (n + 1) * dims == |vectors + v| && Slice(vectors + v, dims, n) == v
  {
    assert (n + 1) * dims == n * dims + dims;
  }

  lemma RowsPush(entries: seq<Entry>, vectors: Vector, dims: nat, e: Entry, v: Vector)
    requires |vectors| == |entries| * dims && |v| == dims
    ensures |vectors + v| == |entries + [e]| * dims
    ensures RowsOf(entries + [e], vectors + v, dims) == RowsOf(entries, vectors, dims) + [Row(e, v)]
  {
    var n := |entries|;
    SliceAtEnd(vectors, v, dims, n);
    hide Slice, RowsOf;
    forall i | 0 <= i <= n
      ensures RowsOf(entries + [e], vectors + v, dims)[i] == (RowsOf(entries, vectors, dims) + [Row(e, v)])[i]
    {
      RowAt(entries + [e], vectors + v, dims, i);
      if i < n {
        RowAt(entries, vectors, dims, i);
        SliceOfLonger(vectors, v, dims, i);
      }
    }
  }

  lemma RowsSet(entries: seq<Entry>, vectors: Vector, dims: nat, at: nat, e: Entry, v: Vector)
    requires |vectors| == |entries| * dims && |v| == dims && at < |entries|
    ensures at * dims <= (at + 1) * dims <= |vectors|
    ensures |vectors[..at * dims] + v + vectors[(at + 1) * dims..]| == |vectors|
    ensures RowsOf(entries[at := e], vectors[..at * dims] + v + vectors[(at + 1) * dims..], dims)
         == RowsOf(entries, vectors, dims)[at := Row(e, v)]
  {
    MulOrder(at, at + 1, dims);
    MulOrder(at + 1, |entries|, dims);
    assert (at + 1) * dims == at * dims + dims;
    var updated := vectors[..at * dims] + v + vectors[(at + 1) * dims..];
    assert |updated| == |vectors|;
    var before, after := RowsOf(entries, vectors, dims)[at := Row(e, v)], RowsOf(entries[at := e], updated, dims);
    forall i | 0 <= i < |entries|
      ensures after[i] == before[i]
    {
      RowAt(entries[at := e], updated, dims, i);
      RowAt(entries, vectors, dims, i);
      assert (i + 1) * dims == i * dims + dims;
      if i < at {
        MulOrder(i + 1, at, dims);
        assert Slice(updated, dims, i) == Slice(vectors, dims, i);
      } else if i > at {
        MulOrder(at + 1, i, dims);
        assert Slice(updated, dims, i) == Slice(vectors, dims, i);
      } else {
        assert Slice(updated, dims, i) == v;
      }
    }
  }

  /** The position of the row with this id. */
  function Find(rows: seq<Row>, id: string): (p: Option<nat>)
    ensures p.Some? ==> p.value < |rows| && rows[p.value].entry.id == id
    ensures p.None? ==> forall i | 0 <= i < |rows| :: rows[i].entry.id != id
  {
    if rows == [] then None
    else
      var last := |rows| - 1;
      if rows[last].entry.id == id then Some(last) else Find(rows[..last], id)
  }

  lemma FindAt(rows: seq<Row>, i: nat)
    requires DistinctRows(rows) && i < |rows|
    ensures Find(rows, rows[i].entry.id) == Some(i)
  {
  }

  function Upsert(rows: seq<Row>, row: Row): seq<Row> {
    match Find(rows, row.entry.id)
    case Some(i) => rows[i := row]
    case None => rows + [row]
  }

  /** The rows whose id is not in `gone`, in their order. */
  function Without(rows: seq<Row>, gone: set<string>): seq<Row> {
    if rows == [] then []
    else
      var init, last := Without(rows[..|rows| - 1], gone), rows[|rows| - 1];
      if last.entry.id in gone then init else init + [last]
  }

  function IdSet(ids: seq<string>): set<string> {
    set id | id in ids
  }

  function Ids(rows: seq<Row>): set<string> {
    set r | r in rows :: r.entry.id
  }

  /** The index as a map: what a lookup of an id finds. */
  function Lookup(rows: seq<Row>): map<string, Row> {
    if rows == [] then map[]
    else
      var last := rows[|rows| - 1];
      Lookup(rows[..|rows| - 1])[last.entry.id := last]
  }

  lemma {:induction false} LookupIsFind(rows: seq<Row>, id: string)
    ensures id in Lookup(rows) <==> Find(rows, id).Some?
    ensures id in Lookup(rows) ==> Lookup(rows)[id] == rows[Find(rows, id).value]
  {
    if rows != [] {
      LookupIsFind(rows[..|rows| - 1], id);
    }
  }

  /** Upsert updates the map at one id, keeps ids distinct and keeps the order of the others. */
  lemma UpsertIsMapUpdate(rows: seq<Row>, row: Row)
    requires DistinctRows(rows)
    ensures DistinctRows(Upsert(rows, row))
    ensures Lookup(Upsert(rows, row)) == Lookup(rows)[row.entry.id := row]
  {
    var after := Upsert(rows, row);
    forall id
      ensures id in Lookup(after) <==> id in Lookup(rows)[row.entry.id := row]
      ensures id in Lookup(after) ==> Lookup(after)[id] == Lookup(rows)[row.entry.id := row][id]
    {
      LookupIsFind(rows, id);
      LookupIsFind(after, id);
      FindAfterUpsert(rows, row, id);
    }
  }

  lemma FindAfterUpsert(rows: seq<Row>, row: Row, id: string)
    requires DistinctRows(rows)
    ensures DistinctRows(Upsert(rows, row))
    ensures var after := Upsert(rows, row);
            if id == row.entry.id then Find(after, id).Some? && after[Find(after, id).value] == row
            else Find(after, id) == Find(rows, id)
                 && (Find(rows, id).Some? ==> after[Find(rows, id).value] == rows[Find(rows, id).value])
  {
    var after := Upsert(rows, row);
    var at := match Find(rows, row.entry.id) case Some(i) => i case None => |rows|;
    assert after[at] == row;
    FindAt(after, at);
    if id != row.entry.id {
      if Find(rows, id).Some? {
        assert after[Find(rows, id).value] == rows[Find(rows, id).value];
        FindAt(after, Find(rows, id).value);
      } else {
        forall i | 0 <= i < |after|
          ensures after[i].entry.id != id
        {
          assert i != at ==> after[i] == rows[i];
        }
      }
    }
  }

  /** `kept` are the rows at the positions `origin`, in order: all rows whose id is not in `gone`. */
  ghost predicate Survivors(rows: seq<Row>, gone: set<string>, kept: seq<Row>, origin: seq<nat>) {
    && |origin| == |kept|
    && (forall i | 0 <= i < |origin| :: origin[i] < |rows| && kept[i] == rows[origin[i]])
    && (forall i, j | 0 <= i < j < |origin| :: origin[i] < origin[j])
    && (forall k: nat | k < |rows| :: k in origin <==> rows[k].entry.id !in gone)
  }

  lemma SurvivorsSkip(rows: seq<Row>, gone: set<string>, kept: seq<Row>, origin: seq<nat>)
    requires rows != [] && Survivors(rows[..|rows| - 1], gone, kept, origin)
    requires rows[|rows| - 1].entry.id in gone
    ensures Survivors(rows, gone, kept, origin)
  {
  }

  lemma SurvivorsPush(rows: seq<Row>, gone: set<string>, kept: seq<Row>, origin: seq<nat>)
    requires rows != [] && Survivors(rows[..|rows| - 1], gone, kept, origin)
    requires rows[|rows| - 1].entry.id !in gone
    ensures Survivors(rows, gone, kept + [rows[|rows| - 1]], origin + [|rows| - 1])
  {
    var n := |rows| - 1;
    assert (origin + [n])[|origin|] == n;
    forall k: nat | k < n
      ensures k in origin + [n] <==> k in origin
    {
    }
  }

  /** The survivors of a removal keep their order. */
  lemma {:induction false} WithoutKeepsOrder(rows: seq<Row>, gone: set<string>) returns (origin: seq<nat>)
    ensures Survivors(rows, gone, Without(rows, gone), origin)
  {
    origin := [];
    if rows != [] {
      hide Survivors;
      var n := |rows| - 1;
      origin := WithoutKeepsOrder(rows[..n], gone);
      if rows[n].entry.id in gone {
        SurvivorsSkip(rows, gone, Without(rows[..n], gone), origin);
      } else {
        SurvivorsPush(rows, gone, Without(rows[..n], gone), origin);
        origin := origin + [n];
      }
    }
  }

  lemma {:induction false} WithoutMembers(rows: seq<Row>, gone: set<string>, r: Row)
    ensures r in Without(rows, gone) <==> r in rows && r.entry.id !in gone
  {
    if rows != [] {
      var n := |rows| - 1;
      WithoutMembers(rows[..n], gone, r);
      assert rows == rows[..n] + [rows[n]];
    }
  }

  lemma WithoutDistinct(rows: seq<Row>, gone: set<string>)
    requires DistinctRows(rows)
    ensures DistinctRows(Without(rows, gone))
  {
    var origin := WithoutKeepsOrder(rows, gone);
    forall i, j | 0 <= i < j < |Without(rows, gone)|
      ensures Without(rows, gone)[i].entry.id != Without(rows, gone)[j].entry.id
    {
      assert origin[i] < origin[j];
    }
  }

  lemma LookupAppend(rows: seq<Row>, last: Row)
    ensures Lookup(rows + [last]) == Lookup(rows)[last.entry.id := last]
  {
    assert (rows + [last])[..|rows|] == rows;
  }

  /** Remove subtracts the ids from the map. */
  lemma {:induction false} WithoutIsSubtraction(rows: seq<Row>, gone: set<string>)
    ensures Lookup(Without(rows, gone)) == Lookup(rows) - gone
  {
    if rows != [] {
      var n := |rows| - 1;
      WithoutIsSubtraction(rows[..n], gone);
      LookupAppend(Without(rows[..n], gone), rows[n]);
      hide Lookup, Without;
      SubtractUpdate(Lookup(rows[..n]), rows[n].entry.id, rows[n], gone);
    }
  }

  lemma SubtractUpdate<K, V>(m: map<K, V>, k: K, v: V, gone: set<K>)
    ensures m[k := v] - gone == if k in gone then m - gone else (m - gone)[k := v]
  {
  }

  lemma IdsAppend(rows: seq<Row>, last: Row)
    ensures Ids(rows + [last]) == Ids(rows) + {last.entry.id}
  {
  }

  lemma {:induction false} LookupKeys(rows: seq<Row>)
    ensures Lookup(rows).Keys == Ids(rows)
  {
    if rows != [] {
      var n := |rows| - 1;
      LookupKeys(rows[..n]);
      IdsAppend(rows[..n], rows[n]);
      assert rows == rows[..n] + [rows[n]];
    }
  }

  lemma {:induction false} LookupSize(rows: seq<Row>)
    requires DistinctRows(rows)
    ensures |Lookup(rows)| == |rows|
  {
    if rows != [] {
      var n := |rows| - 1;
      LookupSize(rows[..n]);
      LookupKeys(rows[..n]);
      assert rows[n].entry.id !in Ids(rows[..n]);
    }
  }

  lemma SubtractSize<K, V>(m: map<K, V>, gone: set<K>)
    ensures |m| - |m - gone| == |m.Keys * gone|
  {
    assert (m - gone).Keys == m.Keys - gone;
    assert m.Keys == (m.Keys - gone) + (m.Keys * gone);
    assert |m.Keys| == |m.Keys - gone| + |m.Keys * gone|;
    assert |m| == |m.Keys| && |m - gone| == |(m - gone).Keys|;
  }

  /** The number of rows that disappear is the number of given ids that were there. */
  lemma RemovedCount(rows: seq<Row>, gone: set<string>)
    requires DistinctRows(rows)
    ensures |rows| - |Without(rows, gone)| == |Ids(rows) * gone|
  {
    WithoutIsSubtraction(rows, gone);
    WithoutDistinct(rows, gone);
    LookupSize(rows);
    LookupSize(Without(rows, gone));
    LookupKeys(rows);
    SubtractSize(Lookup(rows), gone);
  }
}
