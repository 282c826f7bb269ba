/**
 The gate over a ranking (src/media/mod.rs): hits are grouped by work, and the best work is accepted
 if it stands out from the rest of the library.
 */
module MediaGate {
  import opened Common
  import opened Rows
  import opened Ranking
  import opened MediaIndex

  const MARGIN_FROM := 5
  const MARGIN_TO := 25
  const RANK_FOR_GATE := 1000

  datatype Limits = Limits(minScore: real, minMargin: real)

  datatype Semantic = Semantic(id: string, kind: Kind, name: string, score: real, margin: real, accepted: bool)

  datatype Work = Work(entry: Entry, score: real)

  /** The work of a hit: an episode counts for its series, if the index has it. */
  function WorkOf(hit: Hit, m: map<string, Row>, episodes: bool): Work {
    var e := hit.entry;
    if e.kind == Episode && e.seriesId.Some? && !episodes && e.seriesId.value in m
    then Work(m[e.seriesId.value].entry, hit.score)
    else Work(e, hit.score)
  }

  predicate Seen(works: seq<Work>, id: string) {
    exists w | w in works :: w.entry.id == id
  }

  /** All hits grouped by work; the first hit of a work gives its score. */
  function Grouped(hits: seq<Hit>, m: map<string, Row>, episodes: bool): seq<Work> {
    if hits == [] then []
    else
      var init, w := Grouped(hits[..|hits| - 1], m, episodes), WorkOf(hits[|hits| - 1], m, episodes);
      if Seen(init, w.entry.id) then init else init + [w]
  }

  function FirstWorks(hits: seq<Hit>, m: map<string, Row>, episodes: bool): seq<Work> {
    var all := Grouped(hits, m, episodes);
    all[..Min(MARGIN_TO, |all|)]
  }

  function ScoresOf(works: seq<Work>): (s: seq<real>)
    ensures |s| == |works| && forall i | 0 <= i < |s| :: s[i] == works[i].score
  {
    seq(|works|, i requires 0 <= i < |works| => works[i].score)
  }

  function Sum(s: seq<real>): real {
    if s == [] then 0.0 else s[0] + Sum(s[1..])
  }

  function Mean(s: seq<real>): real {
    if s == [] then 0.0 else Sum(s) / |s| as real
  }

  /** The best score over the mean of places 6 to 25. */
  function Margin(scores: seq<real>): real
    requires scores != []
  {
    scores[0] - Mean(if |scores| > MARGIN_FROM then scores[MARGIN_FROM..] else [])
  }

  function Accepted(scores: seq<real>, limits: Limits): bool
    requires scores != []
  {
    scores[0] >= limits.minScore && Margin(scores) >= limits.minMargin
  }

  function DisplayName(e: Entry): string {
    if e.kind == Episode && e.seriesName.Some? then e.seriesName.value + ": " + e.name else e.name
  }

  /** The answer for the works of a ranking. */
  ghost predicate IsVerdict(works: seq<Work>, limits: Limits, r: Option<Semantic>) {
    var scores := ScoresOf(works);
    if works == [] then r.None?
    else
      var best := works[0].entry;
      r == Some(Semantic(best.id, best.kind, DisplayName(best), scores[0], Margin(scores), Accepted(scores, limits)))
  }

  /** Groups the hits until there are 25 works, and judges the best one. */
  method Gate(hits: seq<Hit>, index: Index, episodes: bool, limits: Limits) returns (r: Option<Semantic>)
    requires index.Valid()
    ensures IsVerdict(FirstWorks(hits, Lookup(index.Content()), episodes), limits, r)
  {
    hide IsVerdict, Grouped, FirstWorks, WorkOf, Seen;
    ghost var m := Lookup(index.Content());
    var seen: set<string> := {};
    var works: seq<Work> := [];
    var i := 0;
    NoHits(m, episodes);
    assert hits[..0] == [];
    while i < |hits| && |works| < MARGIN_TO
      invariant i <= |hits| && |works| <= MARGIN_TO
      invariant works == Grouped(hits[..i], m, episodes)
      invariant forall id :: id in seen <==> Seen(works, id)
    {
      var work := FindWork(hits[i], index, episodes);
      GroupedNext(hits, i, m, episodes);
      SeenAppend(works, work);
      if work.entry.id !in seen {
        seen := seen + {work.entry.id};
        works := works + [work];
      }
      i := i + 1;
    }
    EarlyStop(hits, i, m, episodes);
    r := Judge(works, limits);
  }

  method FindWork(hit: Hit, index: Index, episodes: bool) returns (w: Work)
    requires index.Valid()
    ensures w == WorkOf(hit, Lookup(index.Content()), episodes)
  {
    var e := hit.entry;
    if e.kind == Episode && e.seriesId.Some? && !episodes {
      var series := index.Get(e.seriesId.value);
      return Work(if series.Some? then series.value else e, hit.score);
    }
    return Work(e, hit.score);
  }

  method Judge(works: seq<Work>, limits: Limits) returns (r: Option<Semantic>)
    ensures IsVerdict(works, limits, r)
  {
    if works == [] {
      return None;
    }
    var best := works[0];
    var rest := ScoresOf(if |works| > MARGIN_FROM then works[MARGIN_FROM..] else []);
    assert rest == if |works| > MARGIN_FROM then ScoresOf(works)[MARGIN_FROM..] else [];
    var margin := best.score - Mean(rest);
    return Some(Semantic(best.entry.id, best.entry.kind, DisplayName(best.entry), best.score, margin,
                         best.score >= limits.minScore && margin >= limits.minMargin));
  }

  lemma SeenAppend(works: seq<Work>, w: Work)
    ensures forall id :: Seen(works + [w], id) <==> Seen(works, id) || id == w.entry.id
  {
    forall id
      ensures Seen(works + [w], id) <==> Seen(works, id) || id == w.entry.id
    {
      if Seen(works, id) {
        var x :| x in works && x.entry.id == id;
        assert x in works + [w];
      }
      assert w in works + [w];
    }
  }

  /** Later hits only add works at the end. */
  lemma {:induction false} GroupedGrows(hits: seq<Hit>, k: nat, m: map<string, Row>, episodes: bool)
    requires k <= |hits|
    ensures Grouped(hits[..k], m, episodes) <= Grouped(hits, m, episodes)
    decreases |hits|
  {
    if k < |hits| {
      var init := hits[..|hits| - 1];
      assert init[..k] == hits[..k];
      GroupedGrows(init, k, m, episodes);
    } else {
      assert hits[..k] == hits;
    }
  }

  /** Stopping when there are 25 works is the same as grouping all hits and cutting. */
  lemma EarlyStop(hits: seq<Hit>, k: nat, m: map<string, Row>, episodes: bool)
    requires k <= |hits| && |Grouped(hits[..k], m, episodes)| <= MARGIN_TO
    requires k == |hits| || |Grouped(hits[..k], m, episodes)| == MARGIN_TO
    ensures Grouped(hits[..k], m, episodes) == FirstWorks(hits, m, episodes)
  {
    GroupedGrows(hits, k, m, episodes);
    assert hits[..|hits|] == hits;
  }

  lemma NoHits(m: map<string, Row>, episodes: bool)
    ensures Grouped([], m, episodes) == [] && forall id :: !Seen([], id)
  {
  }

  lemma GroupedNext(hits: seq<Hit>, k: nat, m: map<string, Row>, episodes: bool)
    requires k < |hits|
    ensures var works, w := Grouped(hits[..k], m, episodes), WorkOf(hits[k], m, episodes);
            Grouped(hits[..k + 1], m, episodes) == if Seen(works, w.entry.id) then works else works + [w]
  {
    assert hits[..k + 1][..k] == hits[..k];
  }

  /** No earlier hit has the work of hit `k`. */
  ghost predicate IsFirst(hits: seq<Hit>, k: nat, m: map<string, Row>, episodes: bool)
    requires k < |hits|
  {
    forall j | 0 <= j < k :: WorkOf(hits[j], m, episodes).entry.id != WorkOf(hits[k], m, episodes).entry.id
  }

  /** `works` are the works of the hits at the positions `first`: all hits that are the first one of
      their work, in order. */
  ghost predicate FirstHits(hits: seq<Hit>, m: map<string, Row>, episodes: bool, works: seq<Work>, first: seq<nat>) {
    && |first| == |works|
    && (forall i | 0 <= i < |first| :: first[i] < |hits| && works[i] == WorkOf(hits[first[i]], m, episodes))
    && (forall i, j | 0 <= i < j < |first| :: first[i] < first[j])
    && (forall k: nat | k < |hits| :: k in first <==> IsFirst(hits, k, m, episodes))
  }

  lemma {:induction false} EveryWorkIsSeen(hits: seq<Hit>, m: map<string, Row>, episodes: bool, id: string)
    ensures Seen(Grouped(hits, m, episodes), id) <==>
              exists k | 0 <= k < |hits| :: WorkOf(hits[k], m, episodes).entry.id == id
    decreases |hits|
  {
    if hits != [] {
      hide WorkOf, Seen;
      var n := |hits| - 1;
      var works, w := Grouped(hits[..n], m, episodes), WorkOf(hits[n], m, episodes);
      EveryWorkIsSeen(hits[..n], m, episodes, id);
      SeenAppend(works, w);
      assert Seen(Grouped(hits, m, episodes), id) <==> Seen(works, id) || id == w.entry.id;
      if k :| 0 <= k < |hits| && WorkOf(hits[k], m, episodes).entry.id == id && k < n {
        assert WorkOf(hits[..n][k], m, episodes).entry.id == id;
      }
      if k :| 0 <= k < n && WorkOf(hits[..n][k], m, episodes).entry.id == id {
        assert WorkOf(hits[k], m, episodes).entry.id == id;
      }
    } else {
      NoHits(m, episodes);
    }
  }

  lemma FirstHitsSkip(hits: seq<Hit>, m: map<string, Row>, episodes: bool, works: seq<Work>, first: seq<nat>)
    requires hits != [] && FirstHits(hits[..|hits| - 1], m, episodes, works, first)
    requires !IsFirst(hits, |hits| - 1, m, episodes)
    ensures FirstHits(hits, m, episodes, works, first)
  {
    hide WorkOf;
    var n := |hits| - 1;
    forall k: nat | k < n
      ensures IsFirst(hits[..n], k, m, episodes) <==> IsFirst(hits, k, m, episodes)
    {
    }
  }

  lemma FirstHitsPush(hits: seq<Hit>, m: map<string, Row>, episodes: bool, works: seq<Work>, first: seq<nat>)
    requires hits != [] && FirstHits(hits[..|hits| - 1], m, episodes, works, first)
    requires IsFirst(hits, |hits| - 1, m, episodes)
    ensures FirstHits(hits, m, episodes, works + [WorkOf(hits[|hits| - 1], m, episodes)], first + [|hits| - 1])
  {
    hide WorkOf;
    var n := |hits| - 1;
    forall k: nat | k < n
      ensures IsFirst(hits[..n], k, m, episodes) <==> IsFirst(hits, k, m, episodes)
      ensures k in first + [n] <==> k in first
    {
    }
    assert (first + [n])[|first|] == n;
  }

  /** The grouping is the list of the first hits. */
  lemma {:induction false} GroupedIsFirstHits(hits: seq<Hit>, m: map<string, Row>, episodes: bool) returns (first: seq<nat>)
    ensures FirstHits(hits, m, episodes, Grouped(hits, m, episodes), first)
    decreases |hits|
  {
    first := [];
    if hits != [] {
      hide FirstHits, WorkOf;
      var n := |hits| - 1;
      first := GroupedIsFirstHits(hits[..n], m, episodes);
      var works, w := Grouped(hits[..n], m, episodes), WorkOf(hits[n], m, episodes);
      EveryWorkIsSeen(hits[..n], m, episodes, w.entry.id);
      assert forall k | 0 <= k < n :: hits[..n][k] == hits[k];
      if Seen(works, w.entry.id) {
        assert !IsFirst(hits, n, m, episodes);
        FirstHitsSkip(hits, m, episodes, works, first);
      } else {
        FirstHitsPush(hits, m, episodes, works, first);
        first := first + [n];
      }
    }
  }

  lemma {:induction false} SumAtMost(s: seq<real>, high: real)
    requires forall i | 0 <= i < |s| :: s[i] <= high
    ensures Sum(s) <= |s| as real * high
    decreases |s|
  {
    if s != [] {
      SumAtMost(s[1..], high);
      assert |s| as real * high == |s[1..]| as real * high + high;
    }
  }

  lemma MeanAtMost(s: seq<real>, high: real)
    requires s != [] && forall i | 0 <= i < |s| :: s[i] <= high
    ensures Mean(s) <= high
  {
    SumAtMost(s, high);
  }

  /** For hits best first, the reported score is the best of all hits, and the margin is not negative
      if there are more than 5 works (with fewer, it is the score). */
  lemma {:induction false} BestHitIsReported(hits: seq<Hit>, m: map<string, Row>, episodes: bool, limits: Limits, r: Option<Semantic>)
    requires forall i, j | 0 <= i <= j < |hits| :: hits[i].score >= hits[j].score
    requires IsVerdict(FirstWorks(hits, m, episodes), limits, r)
    ensures r.None? <==> hits == []
    ensures r.Some? ==>
              && r.value.id == WorkOf(hits[0], m, episodes).entry.id
              && r.value.score == hits[0].score
              && (forall h | h in hits :: h.score <= r.value.score)
              && (if |Grouped(hits, m, episodes)| > MARGIN_FROM then r.value.margin >= 0.0
                  else r.value.margin == r.value.score)
  {
    hide Grouped, Mean;
    var works := FirstWorks(hits, m, episodes);
    var first := GroupedIsFirstHits(hits, m, episodes);
    if hits != [] {
      assert 0 in first;
      var i :| 0 <= i < |first| && first[i] == 0;
      assert first[0] == 0;
      var scores := ScoresOf(works);
      if |works| > MARGIN_FROM {
        forall k | MARGIN_FROM <= k < |scores|
          ensures scores[k] <= hits[0].score
        {
          assert works[k].score == hits[first[k]].score;
        }
        MeanAtMost(scores[MARGIN_FROM..], hits[0].score);
      } else {
        EmptyMean();
      }
    }
  }

  lemma EmptyMean()
    ensures Mean([]) == 0.0
  {
  }

  // What a verdict says

  lemma {:induction false} SumSplit(s: seq<real>, k: nat)
    requires k <= |s|
    ensures Sum(s) == Sum(s[..k]) + Sum(s[k..])
    decreases |s|
  {
    if k > 0 {
      SumSplit(s[1..], k - 1);
      assert s[1..][..k - 1] == s[..k][1..] && s[1..][k - 1..] == s[k..];
    } else {
      assert s[..0] == [] && s[0..] == s;
    }
  }

  /** The margin is the distance of the best score from the mean of places 6 to 25: as many times as there are
      such places it makes up for their sum. The work is accepted if and only if score and margin reach their
      limits. Its name is its own, behind that of the series for an episode of a named one. */
  lemma VerdictMeans(works: seq<Work>, limits: Limits, r: Option<Semantic>)
    requires IsVerdict(works, limits, r) && works != []
    ensures r.Some? && r.value.id == works[0].entry.id && r.value.score == works[0].score
    ensures var all := ScoresOf(works);
            var n := |works| - 5;
            if n <= 0 then r.value.margin == r.value.score
            else (r.value.score - r.value.margin) * n as real == Sum(all) - Sum(all[..5])
    ensures r.value.accepted <==> limits.minScore <= r.value.score && limits.minMargin <= r.value.margin
    ensures var e := works[0].entry;
            if e.kind != Episode || e.seriesName.None? then r.value.name == e.name
            else
              && |r.value.name| == |e.seriesName.value| + 2 + |e.name| && e.seriesName.value + ": " <= r.value.name
              && r.value.name[|e.seriesName.value| + 2..] == e.name
  {
    var all := ScoresOf(works);
    EmptyMean();
    if |works| > 5 {
      SumSplit(all, 5);
      MeanTimes(all[5..]);
    }
  }

  lemma MeanTimes(s: seq<real>)
    requires s != []
    ensures Mean(s) * |s| as real == Sum(s)
  {
  }

  /** Episodes of one indexed series count for it: a ranking of nothing else gives the series with the score of
      its best episode, unless the query asks for episodes. */
  lemma {:induction false} EpisodesCountForSeries(hits: seq<Hit>, m: map<string, Row>, series: string)
    requires hits != [] && series in m && m[series].entry.id == series
    requires forall h | h in hits :: h.entry.kind == Episode && h.entry.seriesId == Some(series)
    ensures FirstWorks(hits, m, false) == [Work(m[series].entry, hits[0].score)]
  {
    AllOneWork(hits, m, series);
  }

  lemma {:induction false} AllOneWork(hits: seq<Hit>, m: map<string, Row>, series: string)
    requires hits != [] && series in m && m[series].entry.id == series
    requires forall h | h in hits :: h.entry.kind == Episode && h.entry.seriesId == Some(series)
    ensures Grouped(hits, m, false) == [Work(m[series].entry, hits[0].score)]
    decreases |hits|
  {
    var n := |hits| - 1;
    assert hits[n] in hits;
    if n > 0 {
      AllOneWork(hits[..n], m, series);
      assert Grouped(hits[..n], m, false)[0].entry.id == series;
    } else {
      assert hits[..0] == [];
      NoHits(m, false);
    }
  }

  /** An episode of a series that the index does not have stands for itself. */
  lemma UnknownSeriesStaysEpisode(hit: Hit, m: map<string, Row>, episodes: bool)
    requires hit.entry.kind == Episode ==> hit.entry.seriesId.None? || hit.entry.seriesId.value !in m || episodes
    ensures FirstWorks([hit], m, episodes) == [Work(hit.entry, hit.score)]
  {
    assert [hit][..0] == [];
    NoHits(m, episodes);
  }

  // The whole query

  /** Episodes take part only if the query asks for one, and then only episodes. */
  function KeepKind(episodes: bool): Entry -> bool {
    (e: Entry) => (e.kind == Episode) == episodes
  }

  /** The answer to a query: the gate over the ranking. */
  method Answer(index: Index, query: Vector, episodes: bool, limits: Limits, dot: (Vector, Vector) -> real)
    returns (r: Option<Semantic>, ghost hits: seq<Hit>)
    requires index.Valid()
    ensures |query| != index.dims ==> hits == [] && r == None
    ensures |query| == index.dims ==>
              IsRanking(index.Content(), v => dot(v, query), KeepKind(episodes), RANK_FOR_GATE, hits)
    ensures IsVerdict(FirstWorks(hits, Lookup(index.Content()), episodes), limits, r)
  {
    hide IsRanking, Margin, Accepted;
    var found := index.Rank(query, RANK_FOR_GATE, dot, KeepKind(episodes));
    r := Gate(found, index, episodes, limits);
    hits := found;
  }

  /** Hits that are works of their own are not grouped. */
  lemma {:induction false} NothingToGroup(hits: seq<Hit>, m: map<string, Row>, episodes: bool)
    requires forall h | h in hits :: KeepKind(episodes)(h.entry)
    requires forall i, j | 0 <= i < j < |hits| :: hits[i].entry.id != hits[j].entry.id
    ensures |Grouped(hits, m, episodes)| == |hits|
    ensures forall i | 0 <= i < |hits| :: Grouped(hits, m, episodes)[i] == Work(hits[i].entry, hits[i].score)
    decreases |hits|
  {
    if hits != [] {
      var n := |hits| - 1;
      NothingToGroup(hits[..n], m, episodes);
      assert hits[n] in hits;
      var init := Grouped(hits[..n], m, episodes);
      forall w | w in init
        ensures w.entry.id != hits[n].entry.id
      {
        var i :| 0 <= i < |init| && init[i] == w;
      }
    }
  }

  /** The hits of a ranking have distinct ids and pass `keep`. */
  lemma RankedIds(rows: seq<Row>, score: Vector -> real, keep: Entry -> bool, limit: nat, hits: seq<Hit>)
    requires DistinctRows(rows) && IsRanking(rows, score, keep, limit, hits)
    ensures forall h | h in hits :: keep(h.entry)
    ensures forall i, j | 0 <= i < j < |hits| :: hits[i].entry.id != hits[j].entry.id
  {
    hide IsRanking;
    var pos := RankingPromises(rows, score, keep, limit, hits);
    forall i, j | 0 <= i < j < |hits|
      ensures hits[i].entry.id != hits[j].entry.id
    {
      assert pos[i] != pos[j];
    }
    forall h | h in hits
      ensures keep(h.entry)
    {
      var i :| 0 <= i < |hits| && hits[i] == h;
      assert keep(rows[pos[i]].entry);
    }
  }

  /** The scores of all rows that take part. */
  function KeptScores(rows: seq<Row>, score: Vector -> real, keep: Entry -> bool): seq<real> {
    Scores(ScoredRows(rows, |rows|, score, keep))
  }

  /** The judged scores are the best 25 of the rows that take part, in the order of a full sort. */
  lemma {:induction false} JudgedScores(rows: seq<Row>, score: Vector -> real, episodes: bool, limit: nat, hits: seq<Hit>)
    requires DistinctRows(rows) && limit >= MARGIN_TO
    requires IsRanking(rows, score, KeepKind(episodes), limit, hits)
    ensures var all := Scores(SortScores(ScoredRows(rows, |rows|, score, KeepKind(episodes))));
            ScoresOf(FirstWorks(hits, Lookup(rows), episodes)) == all[..Min(25, |all|)]
  {
    hide IsRanking, SortScores, ScoredRows, Grouped, KeepKind, Lookup;
    RankedIds(rows, score, KeepKind(episodes), limit, hits);
    NothingToGroup(hits, Lookup(rows), episodes);
    RankingScores(rows, score, KeepKind(episodes), limit, hits);
  }

  /** Score, margin and verdict depend only on the multiset of scores of the rows that take part: not on
      their order in the index, not on how the ranking broke ties, and not on its limit. */
  lemma {:induction false} VerdictDependsOnScores(
      rows1: seq<Row>, rows2: seq<Row>, score1: Vector -> real, score2: Vector -> real, episodes1: bool, episodes2: bool,
      limit1: nat, limit2: nat, hits1: seq<Hit>, hits2: seq<Hit>, limits: Limits,
      r1: Option<Semantic>, r2: Option<Semantic>)
    requires DistinctRows(rows1) && DistinctRows(rows2) && limit1 >= MARGIN_TO && limit2 >= MARGIN_TO
    requires multiset(KeptScores(rows1, score1, KeepKind(episodes1)))
          == multiset(KeptScores(rows2, score2, KeepKind(episodes2)))
    requires IsRanking(rows1, score1, KeepKind(episodes1), limit1, hits1)
    requires IsRanking(rows2, score2, KeepKind(episodes2), limit2, hits2)
    requires IsVerdict(FirstWorks(hits1, Lookup(rows1), episodes1), limits, r1)
    requires IsVerdict(FirstWorks(hits2, Lookup(rows2), episodes2), limits, r2)
    ensures r1.Some? == r2.Some?
    ensures r1.Some? ==>
              r1.value.score == r2.value.score && r1.value.margin == r2.value.margin && r1.value.accepted == r2.value.accepted
  {
    hide IsRanking, SortScores, ScoredRows, FirstWorks, KeepKind, Lookup, Margin, Scores, Accepted;
    JudgedScores(rows1, score1, episodes1, limit1, hits1);
    JudgedScores(rows2, score2, episodes2, limit2, hits2);
    SortedScoresDependOnScores(
      ScoredRows(rows1, |rows1|, score1, KeepKind(episodes1)), ScoredRows(rows2, |rows2|, score2, KeepKind(episodes2)));
    assert |ScoresOf(FirstWorks(hits1, Lookup(rows1), episodes1))| == |ScoresOf(FirstWorks(hits2, Lookup(rows2), episodes2))|;
  }
}
