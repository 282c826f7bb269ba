/**
 Saves of the prompt cache that overlap (src/llm/slots.rs, `save`): the last save at shutdown does not wait
 for a periodic save that still runs, and both use the same temporary name.
 */
module SlotOverlap {
  import opened Common
  import D = Directory
  import opened SlotFiles
  import opened SlotMove
  import opened SlotSave

  /** One step of some save: the engine wrote its files under the temporary name, or the move clears a stale
      sidecar, renames the main file, or renames a sidecar that it listed before. */
  datatype Step<T> = Write(written: map<string, T>) | Clear(name: string) | Main | Sidecar(name: string)

  function AfterStep<T>(to: string, d: map<string, T>, s: Step<T>): map<string, T> {
    match s
    case Write(written) => d + written
    case Clear(n) => d - {n}
    case Main => if to + TMP in d then D.Renamed(d, to + TMP, to) else d
    case Sidecar(n) => if n in d && IsSidecar(to + TMP, n) then D.Renamed(d, n, Target(to + TMP, to, n)) else d
  }

  function AfterSteps<T>(to: string, d: map<string, T>, steps: seq<Step<T>>): map<string, T> {
    if steps == [] then d
    else AfterStep(to, AfterSteps(to, d, steps[..|steps| - 1]), steps[|steps| - 1])
  }

  /** An engine writes its main file and all its sidecars, and a move clears only stale sidecars. */
  ghost predicate LegalStep<T>(suffixes: set<string>, to: string, s: Step<T>) {
    match s
    case Write(written) =>
      Complete(suffixes, to, written) && forall n | n in written :: OwnName(suffixes, to + TMP, n)
    case Clear(n) => IsStale(to + TMP, to, n)
    case Main => true
    case Sidecar(n) => IsSidecar(to + TMP, n)
  }

  ghost predicate LegalSteps<T>(suffixes: set<string>, to: string, steps: seq<Step<T>>) {
    forall s | s in steps :: LegalStep(suffixes, to, s)
  }

  /** The saved group, if there is one, is of what one of the saves wrote. */
  ghost predicate FromOneSave<T>(to: string, steps: seq<Step<T>>, d: map<string, T>) {
    to in d ==> exists s | s in steps :: s.Write? && OneGeneration(to, d, s.written)
  }

  /** However any number of saves overlap and wherever they are cut. The first ones may have filled the
      folder, so it begins empty. */
  ghost predicate OverlapsNeverMix(suffixes: set<string>, to: string) {
    forall steps: seq<Step<int>> | LegalSteps(suffixes, to, steps) ::
      FromOneSave(to, steps, AfterSteps(to, map[], steps))
  }

  /** Without sidecars, the temporary and the main file each come from one of the writes. */
  ghost predicate OnlyMain<T>(to: string, steps: seq<Step<T>>, d: map<string, T>) {
    && d.Keys <= {to, to + TMP}
    && forall n | n in d :: exists s | s in steps :: s.Write? && to + TMP in s.written && d[n] == s.written[to + TMP]
  }

  lemma OnlyMainStays<T>(to: string, steps: seq<Step<T>>, last: Step<T>, d: map<string, T>)
    requires OnlyMain(to, steps, d)
    ensures OnlyMain(to, steps + [last], d)
  {
    forall n | n in d
      ensures exists s | s in steps + [last] :: s.Write? && to + TMP in s.written && d[n] == s.written[to + TMP]
    {
      var s :| s in steps && s.Write? && to + TMP in s.written && d[n] == s.written[to + TMP];
      assert s in steps + [last];
    }
  }

  lemma StepStaysOnlyMain<T>(to: string, steps: seq<Step<T>>, last: Step<T>, d: map<string, T>)
    requires OnlyMain(to, steps, d) && LegalStep({}, to, last)
    ensures OnlyMain(to, steps + [last], AfterStep(to, d, last))
  {
    hide OwnName;
    OnlyMainStays(to, steps, last, d);
    TmpNames(to);
    match last
    case Write(written) =>
      WritesOnlyMain(to, written);
      assert (steps + [last])[|steps|] == last;
    case Sidecar(n) =>
      assert n != to && n != to + TMP;
    case _ =>
  }

  lemma WritesOnlyMain<T>(to: string, written: map<string, T>)
    requires LegalStep({}, to, Write(written))
    ensures written.Keys == {to + TMP}
  {
  }

  lemma {:induction false} StaysOnlyMain<T>(to: string, steps: seq<Step<T>>)
    requires LegalSteps({}, to, steps)
    ensures OnlyMain(to, steps, AfterSteps(to, map[], steps))
    decreases |steps|
  {
    if steps != [] {
      hide OnlyMain, LegalStep, AfterStep;
      var init, last := steps[..|steps| - 1], steps[|steps| - 1];
      assert steps == init + [last];
      assert last in steps && forall s | s in init :: s in steps;
      StaysOnlyMain(to, init);
      StepStaysOnlyMain(to, init, last, AfterSteps(to, map[], init));
    }
  }

  lemma OnlyMainIsOneSave<T>(to: string, steps: seq<Step<T>>, d: map<string, T>)
    requires OnlyMain(to, steps, d)
    ensures FromOneSave(to, steps, d)
  {
    TmpNames(to);
    if to in d {
      var s :| s in steps && s.Write? && to + TMP in s.written && d[to] == s.written[to + TMP];
      assert OneGeneration(to, d, s.written);
    }
  }

  function AllNames(suffixes: set<string>, to: string): set<string> {
    {to + TMP} + set x | x in suffixes :: to + TMP + x
  }

  /** Everything that an engine with these sidecars writes in one save. */
  function Whole(suffixes: set<string>, to: string, content: int): map<string, int> {
    map n | n in AllNames(suffixes, to) :: content
  }

  /** Two saves: the engine writes the second one between the two renames of the first. */
  function Overlap(suffixes: set<string>, to: string, x: string): seq<Step<int>> {
    [Write(Whole(suffixes, to, 1)), Main, Write(Whole(suffixes, to, 2)), Sidecar(to + TMP + x)]
  }

  lemma WholeIsLegal(suffixes: set<string>, to: string, content: int)
    requires PlainSuffixes(suffixes)
    ensures LegalStep(suffixes, to, Write(Whole(suffixes, to, content)))
  {
    var written := Whole(suffixes, to, content);
    forall n | n in written
      ensures OwnName(suffixes, to + TMP, n)
    {
      if n != to + TMP {
        var x :| x in suffixes && n == to + TMP + x;
        SamePrefix(to + TMP, ".", x);
        assert n[|to + TMP|..] == x;
      }
    }
  }

  lemma FourSteps<T>(to: string, a: Step<T>, b: Step<T>, c: Step<T>, e: Step<T>)
    ensures AfterSteps(to, map[], [a, b, c, e]) ==
              AfterStep(to, AfterStep(to, AfterStep(to, AfterStep(to, map[], a), b), c), e)
  {
    hide AfterStep;
    var s4, s3, s2 := [a, b, c, e], [a, b, c], [a, b];
    assert s4[..3] == s3 && s3[..2] == s2 && s2[..1] == [a] && [a][..0] == [];
    assert AfterSteps<T>(to, map[], []) == map[];
    assert AfterSteps(to, map[], [a]) == AfterStep(to, map[], a);
    assert AfterSteps(to, map[], s2) == AfterStep(to, AfterStep(to, map[], a), b);
  }

  /** The names of a sidecar, and that it stays apart from the other files of the group. */
  lemma SidecarNames(suffixes: set<string>, to: string, x: string)
    requires PlainSuffixes(suffixes) && x in suffixes
    ensures IsSidecar(to + TMP, to + TMP + x) && Target(to + TMP, to, to + TMP + x) == to + x
    ensures IsStale(to + TMP, to, to + x) && to + x != to && to + x != to + TMP && to + TMP + x != to
  {
    SamePrefix(to + TMP, ".", x);
    SamePrefix(to, ".", x);
    SamePrefix(to, TMP, x);
    assert (to + TMP + x)[|to + TMP|..] == x;
    assert to + TMP <= to + TMP + ".";
  }

  /** The first main file beside the second sidecar is of no save. */
  lemma TwoSaves(suffixes: set<string>, to: string, x: string, content: int, d: map<string, int>)
    requires to in d && to + x in d && d[to] == 1 && d[to + x] == 2 && IsStale(to + TMP, to, to + x)
    ensures !OneGeneration(to, d, Whole(suffixes, to, content))
  {
    if content == 1 {
      assert !FromNew(to + TMP, to, Whole(suffixes, to, content), d, to + x);
    }
  }

  lemma OverlapFolder(suffixes: set<string>, to: string, x: string)
    requires PlainSuffixes(suffixes) && x in suffixes
    ensures var d := AfterSteps(to, map[], Overlap(suffixes, to, x));
            var end := AfterStep(to, AfterStep(to, d, Clear(to + x)), Main);
            && to in d && to + x in d && d[to] == 1 && d[to + x] == 2
            && to in end && end[to] == 2 && to + x !in end
  {
    hide PlainSuffixes, IsSidecar, IsStale, Whole, AfterSteps;
    SidecarNames(suffixes, to, x);
    WholeNames(suffixes, to, x, 1);
    WholeNames(suffixes, to, x, 2);
    var first, second := Whole(suffixes, to, 1), Whole(suffixes, to, 2);
    var tmp, from, target := to + TMP, to + TMP + x, to + x;
    FourSteps(to, Write(first), Main, Write(second), Sidecar(from));
    assert map[] + first == first;
    RenamedTwice(first, second, to, tmp, from, target);
  }

  lemma WholeNames(suffixes: set<string>, to: string, x: string, content: int)
    requires x in suffixes
    ensures var w := Whole(suffixes, to, content);
            && to !in w && to + TMP in w && w[to + TMP] == content
            && to + TMP + x in w && w[to + TMP + x] == content
  {
  }

  /** The same for four names that differ. */
  lemma RenamedTwice(
      first: map<string, int>, second: map<string, int>, to: string, tmp: string, from: string, target: string)
    requires tmp in first && first[tmp] == 1 && to !in second
    requires tmp in second && second[tmp] == 2 && from in second && second[from] == 2
    requires to != tmp && to != from && tmp != from && target != to && target != tmp
    ensures var d0 := D.Renamed(first, tmp, to) + second;
            var d := D.Renamed(d0, from, target);
            && from in d0 && to in d && target in d && d[to] == 1 && d[target] == 2
            && var end := d - {target};
            && tmp in end && to in D.Renamed(end, tmp, to) && D.Renamed(end, tmp, to)[to] == 2
            && target !in D.Renamed(end, tmp, to)
  {
  }

  /** The folder in the middle of the overlap, and after the second save has moved its files too: the first
      main file beside the second sidecar, and then the second main file without it. */
  lemma {:induction false} OverlapMixes(suffixes: set<string>, to: string, x: string)
    requires PlainSuffixes(suffixes) && x in suffixes
    ensures LegalSteps(suffixes, to, Overlap(suffixes, to, x))
    ensures var d := AfterSteps(to, map[], Overlap(suffixes, to, x));
            && to in d && to + x in d && d[to] == 1 && d[to + x] == 2
            && !FromOneSave(to, Overlap(suffixes, to, x), d)
    ensures var d := AfterSteps(to, map[], Overlap(suffixes, to, x));
            var end := AfterStep(to, AfterStep(to, d, Clear(to + x)), Main);
            to in end && end[to] == 2 && to + x !in end
  {
    hide PlainSuffixes, IsSidecar, IsStale, OwnName, AfterSteps, AfterStep, Whole, Complete, OneGeneration;
    WholeIsLegal(suffixes, to, 1);
    WholeIsLegal(suffixes, to, 2);
    SidecarNames(suffixes, to, x);
    OverlapFolder(suffixes, to, x);
    var d := AfterSteps(to, map[], Overlap(suffixes, to, x));
    TwoSaves(suffixes, to, x, 1, d);
    TwoSaves(suffixes, to, x, 2, d);
  }

  /** Overlapping saves never mix two of them, if and only if the engine writes no sidecars. */
  lemma OverlapCondition(suffixes: set<string>, to: string)
    requires PlainSuffixes(suffixes)
    ensures OverlapsNeverMix(suffixes, to) <==> suffixes == {}
  {
    hide LegalSteps, FromOneSave, AfterSteps, Overlap, PlainSuffixes;
    if suffixes == {} {
      forall steps: seq<Step<int>> | LegalSteps(suffixes, to, steps)
        ensures FromOneSave(to, steps, AfterSteps(to, map[], steps))
      {
        StaysOnlyMain(to, steps);
        OnlyMainIsOneSave(to, steps, AfterSteps(to, map[], steps));
      }
    } else {
      var x :| x in suffixes;
      OverlapMixes(suffixes, to, x);
    }
  }
}
