/**
 Top-k selection (src/media/index.rs): an unstable partial selection, cut and sorted, gives the
 same scores as a full sort. A score is any number of a total order.
 */
module Ranking {
  import opened Common

  /** A position of the index and its score. */
  datatype Scored = Scored(pos: nat, score: real)

  ghost predicate Descending(s: seq<Scored>) {
    forall i, j | 0 <= i <= j < |s| :: s[i].score >= s[j].score
  }

  function InsertScore(x: Scored, s: seq<Scored>): (r: seq<Scored>)
    ensures |r| == |s| + 1
  {
    if s == [] || x.score >= s[0].score then [x] + s else [s[0]] + InsertScore(x, s[1..])
  }

  /** The stable sort by descending score. */
  function SortScores(s: seq<Scored>): (r: seq<Scored>)
    ensures |r| == |s|
  {
    if s == [] then [] else InsertScore(s[0], SortScores(s[1..]))
  }

  lemma {:induction false} InsertPermutes(x: Scored, s: seq<Scored>)
    ensures multiset(InsertScore(x, s)) == multiset{x} + multiset(s)
  {
    if s != [] && x.score < s[0].score {
      InsertPermutes(x, s[1..]);
      assert s == [s[0]] + s[1..];
    }
  }

  lemma {:induction false} InsertSorts(x: Scored, s: seq<Scored>)
    requires Descending(s)
    ensures Descending(InsertScore(x, s))
    ensures InsertScore(x, s)[0] == x || (s != [] && InsertScore(x, s)[0] == s[0])
  {
    if s != [] && x.score < s[0].score {
      InsertSorts(x, s[1..]);
    }
  }

  lemma {:induction false} SortKeeps(s: seq<Scored>)
    ensures multiset(SortScores(s)) == multiset(s)
    ensures Descending(SortScores(s))
  {
    if s != [] {
      SortKeeps(s[1..]);
      InsertPermutes(s[0], SortScores(s[1..]));
      InsertSorts(s[0], SortScores(s[1..]));
      assert s == [s[0]] + s[1..];
    }
  }

  /** Puts the element of rank `k` in its place, larger scores before it, smaller ones behind it.
      Callers know only this contract; the order within both parts is open. */
  method SelectNth(s: seq<Scored>, k: nat) returns (r: seq<Scored>)
    requires k < |s|
    ensures multiset(r) == multiset(s) && |r| == |s|
    ensures forall i | 0 <= i <= k :: r[i].score >= r[k].score
    ensures forall i | k <= i < |r| :: r[k].score >= r[i].score
  {
    SortKeeps(s);
    r := SortScores(s);
  }

  /** `top` are best-first elements of `all`, and no element of the `rest` scores higher. */
  ghost predicate Splits(all: seq<Scored>, top: seq<Scored>, rest: seq<Scored>) {
    && multiset(all) == multiset(top) + multiset(rest)
    && Descending(top)
    && forall x, y | x in top && y in rest :: x.score >= y.score
  }

  ghost predicate IsTop(all: seq<Scored>, limit: nat, top: seq<Scored>) {
    |top| == Min(limit, |all|) && exists rest :: Splits(all, top, rest)
  }

  lemma MultisetSplit(s: seq<Scored>, k: nat)
    requires k <= |s|
    ensures multiset(s) == multiset(s[..k]) + multiset(s[k..])
  {
    assert s == s[..k] + s[k..];
  }

  lemma InSplit(s: seq<Scored>, k: nat, x: Scored, y: Scored)
    requires 0 < k <= |s|
    requires forall i | 0 <= i < k :: s[i].score >= s[k - 1].score
    requires forall i | k - 1 <= i < |s| :: s[k - 1].score >= s[i].score
    requires x in s[..k] && y in s[k..]
    ensures x.score >= y.score
  {
  }

  /** The selection of `rank`: partial selection if there are more than `limit`, cut, sort. */
  method Top(all: seq<Scored>, limit: nat) returns (top: seq<Scored>)
    requires limit > 0
    ensures IsTop(all, limit, top)
  {
    var part := all;
    ghost var rest := [];
    if |all| > limit {
      part := SelectNth(all, limit - 1);
      MultisetSplit(part, limit);
      Selected(part, limit);
      rest := part[limit..];
      part := part[..limit];
    }
    SortKeeps(part);
    top := SortScores(part);
    SortedPartIsTop(all, part, rest, top);
  }

  lemma Selected(s: seq<Scored>, k: nat)
    requires 0 < k <= |s|
    requires forall i | 0 <= i < k :: s[i].score >= s[k - 1].score
    requires forall i | k - 1 <= i < |s| :: s[k - 1].score >= s[i].score
    ensures forall x, y | x in s[..k] && y in s[k..] :: x.score >= y.score
  {
    forall x, y | x in s[..k] && y in s[k..]
      ensures x.score >= y.score
    {
      InSplit(s, k, x, y);
    }
  }

  lemma SortedPartIsTop(all: seq<Scored>, part: seq<Scored>, rest: seq<Scored>, top: seq<Scored>)
    requires multiset(all) == multiset(part) + multiset(rest) && multiset(top) == multiset(part) && Descending(top)
    requires forall x, y | x in part && y in rest :: x.score >= y.score
    ensures Splits(all, top, rest)
  {
    forall x | x in top
      ensures x in part
    {
      assert x in multiset(top);
    }
  }

  function Scores(s: seq<Scored>): (r: seq<real>)
    ensures |r| == |s| && forall i | 0 <= i < |s| :: r[i] == s[i].score
  {
    seq(|s|, i requires 0 <= i < |s| => s[i].score)
  }

  ghost predicate DescendingReals(s: seq<real>) {
    forall i, j | 0 <= i <= j < |s| :: s[i] >= s[j]
  }

  lemma DropFirst(s: seq<real>)
    requires s != []
    ensures multiset(s) == multiset{s[0]} + multiset(s[1..])
  {
    assert s == [s[0]] + s[1..];
  }

  lemma FirstIsLargest(s: seq<real>, x: real)
    requires DescendingReals(s) && x in multiset(s)
    ensures s != [] && s[0] >= x
  {
    var i :| 0 <= i < |s| && s[i] == x;
  }

  lemma SameTail(a: multiset<real>, b: multiset<real>, x: real)
    requires multiset{x} + a == multiset{x} + b
    ensures a == b
  {
    assert a == (multiset{x} + a) - multiset{x};
    assert b == (multiset{x} + b) - multiset{x};
  }

  lemma DescendingTail(s: seq<real>)
    requires DescendingReals(s) && s != []
    ensures DescendingReals(s[1..])
  {
  }

  /** A multiset of numbers has one descending order. */
  lemma {:induction false} OneDescendingOrder(a: seq<real>, b: seq<real>)
    requires DescendingReals(a) && DescendingReals(b) && multiset(a) == multiset(b)
    ensures a == b
    decreases |a|
  {
    hide DescendingReals;
    assert |multiset(a)| == |a| && |multiset(b)| == |b|;
    if a != [] {
      FirstIsLargest(b, a[0]);
      FirstIsLargest(a, b[0]);
      DropFirst(a);
      DropFirst(b);
      SameTail(multiset(a[1..]), multiset(b[1..]), a[0]);
      DescendingTail(a);
      DescendingTail(b);
      OneDescendingOrder(a[1..], b[1..]);
    }
  }

  lemma MultisetOut(s: seq<Scored>, i: nat)
    requires i < |s|
    ensures multiset(s) == multiset(s[..i] + s[i + 1..]) + multiset{s[i]}
    ensures multiset(Scores(s)) == multiset(Scores(s[..i] + s[i + 1..])) + multiset{s[i].score}
  {
    assert s == s[..i] + [s[i]] + s[i + 1..];
    var r := Scores(s);
    assert r == r[..i] + [r[i]] + r[i + 1..];
    assert Scores(s[..i] + s[i + 1..]) == r[..i] + r[i + 1..];
  }

  lemma CancelOne(a: multiset<Scored>, b: multiset<Scored>, x: Scored)
    requires a + multiset{x} == b + multiset{x}
    ensures a == b
  {
    assert a == (a + multiset{x}) - multiset{x};
    assert b == (b + multiset{x}) - multiset{x};
  }

  /** Permutations have the same scores. */
  lemma {:induction false} ScoresOfMultiset(a: seq<Scored>, b: seq<Scored>)
    requires multiset(a) == multiset(b)
    ensures multiset(Scores(a)) == multiset(Scores(b))
    decreases |a|
  {
    hide Scores;
    SameSize(a, b);
    if a != [] {
      assert a[0] in multiset(b);
      var i :| 0 <= i < |b| && b[i] == a[0];
      var c := b[..i] + b[i + 1..];
      MultisetOut(a, 0);
      MultisetOut(b, i);
      assert a[..0] + a[1..] == a[1..];
      CancelOne(multiset(a[1..]), multiset(c), a[0]);
      ScoresOfMultiset(a[1..], c);
    } else {
      assert a == b;
    }
  }

  /** Ties aside, there is only one ranking: the scores of any top selection are the first scores of
      a full sort. */
  lemma TopScoresAreSortedScores(all: seq<Scored>, limit: nat, top: seq<Scored>)
    requires IsTop(all, limit, top)
    ensures Scores(top) == Scores(SortScores(all))[..|top|]
  {
    var rest :| Splits(all, top, rest);
    var whole := top + SortScores(rest);
    WholePermutes(all, top, rest);
    DescendingWhole(all, top, rest);
    SortKeeps(all);
    hide SortScores, Splits, DescendingReals;
    DescendingScores(SortScores(all));
    ScoresOfMultiset(whole, SortScores(all));
    OneDescendingOrder(Scores(whole), Scores(SortScores(all)));
    assert Scores(top) == Scores(whole)[..|top|];
  }

  lemma DescendingScores(s: seq<Scored>)
    requires Descending(s)
    ensures DescendingReals(Scores(s))
  {
  }

  /** The full sort depends on the scores only. */
  lemma {:induction false} SortedScoresDependOnScores(a: seq<Scored>, b: seq<Scored>)
    requires multiset(Scores(a)) == multiset(Scores(b))
    ensures Scores(SortScores(a)) == Scores(SortScores(b))
  {
    SortKeeps(a);
    SortKeeps(b);
    hide SortScores, Scores;
    ScoresOfMultiset(a, SortScores(a));
    ScoresOfMultiset(b, SortScores(b));
    DescendingScores(SortScores(a));
    DescendingScores(SortScores(b));
    OneDescendingOrder(Scores(SortScores(a)), Scores(SortScores(b)));
  }

  lemma WholePermutes(all: seq<Scored>, top: seq<Scored>, rest: seq<Scored>)
    requires Splits(all, top, rest)
    ensures multiset(top + SortScores(rest)) == multiset(all) && |top + SortScores(rest)| == |all|
  {
    SortKeeps(rest);
    SameSize(top + SortScores(rest), all);
  }

  lemma DescendingWhole(all: seq<Scored>, top: seq<Scored>, rest: seq<Scored>)
    requires Splits(all, top, rest)
    ensures DescendingReals(Scores(top + SortScores(rest)))
  {
    SortKeeps(rest);
    var sorted := SortScores(rest);
    forall i, j | 0 <= i <= j < |top + sorted|
      ensures (top + sorted)[i].score >= (top + sorted)[j].score
    {
      if i < |top| <= j {
        assert (top + sorted)[j] in multiset(sorted);
      }
    }
  }

  lemma SameSize(a: seq<Scored>, b: seq<Scored>)
    requires multiset(a) == multiset(b)
    ensures |a| == |b|
  {
    assert |multiset(a)| == |a| && |multiset(b)| == |b|;
  }
}
