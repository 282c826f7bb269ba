/** The health watchdog of one child process (src/supervisor.rs). */
module Watchdog {
  import opened Common

  /** One probe: its answer, and the time since the start when the answer was evaluated. */
  datatype Probe = Probe(ok: bool, elapsed: nat)

  datatype Health = Health(startGrace: nat, failures: nat)

  datatype Verdict = Watching | Hang | Replace

  datatype Watch = Watch(seenHealthy: bool, failed: nat, verdict: Verdict)

  const FRESH := Watch(false, 0, Watching)

  /** One turn of the probe loop. */
  function WatchStep(h: Health, replaceWhenHealthy: bool, w: Watch, p: Probe): Watch {
    if w.verdict != Watching then w
    else if p.ok then
      if !w.seenHealthy && replaceWhenHealthy then w.(seenHealthy := true, verdict := Replace)
      else Watch(true, 0, Watching)
    else if !w.seenHealthy && p.elapsed < h.startGrace then w
    else w.(failed := w.failed + 1, verdict := if w.failed + 1 >= h.failures then Hang else Watching)
  }

  function Watched(h: Health, replaceWhenHealthy: bool, probes: seq<Probe>): Watch {
    if probes == [] then FRESH
    else
      WatchStep(h, replaceWhenHealthy, Watched(h, replaceWhenHealthy, probes[..|probes| - 1]), probes[|probes| - 1])
  }

  lemma WatchedStep(h: Health, replaceWhenHealthy: bool, probes: seq<Probe>, n: nat)
    requires n < |probes|
    ensures Watched(h, replaceWhenHealthy, probes[..n + 1])
         == WatchStep(h, replaceWhenHealthy, Watched(h, replaceWhenHealthy, probes[..n]), probes[n])
  {
    assert probes[..n + 1][..n] == probes[..n];
  }

  lemma {:induction false} VerdictStays(h: Health, replaceWhenHealthy: bool, probes: seq<Probe>, n: nat)
    requires n <= |probes| && Watched(h, replaceWhenHealthy, probes[..n]).verdict != Watching
    ensures Watched(h, replaceWhenHealthy, probes) == Watched(h, replaceWhenHealthy, probes[..n])
    decreases |probes| - n
  {
    if n == |probes| {
      assert probes[..n] == probes;
    } else {
      WatchedStep(h, replaceWhenHealthy, probes, n);
      VerdictStays(h, replaceWhenHealthy, probes, n + 1);
    }
  }

  /** The probe loop. It returns at its verdict and leaves the rest of the probes unread. */
  method WatchChild(h: Health, replaceWhenHealthy: bool, probes: seq<Probe>) returns (w: Watch)
    ensures w == Watched(h, replaceWhenHealthy, probes)
  {
    var seenHealthy := false;
    var failed := 0;
    for n := 0 to |probes|
      invariant Watched(h, replaceWhenHealthy, probes[..n]) == Watch(seenHealthy, failed, Watching)
    {
      WatchedStep(h, replaceWhenHealthy, probes, n);
      var p := probes[n];
      if p.ok {
        if !seenHealthy {
          seenHealthy := true;
          if replaceWhenHealthy {
            VerdictStays(h, replaceWhenHealthy, probes, n + 1);
            return Watch(seenHealthy, failed, Replace);
          }
        }
        failed := 0;
      } else if seenHealthy || p.elapsed >= h.startGrace {
        failed := failed + 1;
        if failed >= h.failures {
          VerdictStays(h, replaceWhenHealthy, probes, n + 1);
          return Watch(seenHealthy, failed, Hang);
        }
      }
    }
    assert probes[..|probes|] == probes;
    return Watch(seenHealthy, failed, Watching);
  }

  ghost predicate TimeFlows(probes: seq<Probe>) {
    forall i, j | 0 <= i <= j < |probes| :: probes[i].elapsed <= probes[j].elapsed
  }

  ghost predicate Answered(probes: seq<Probe>, n: nat)
    requires n <= |probes|
  {
    exists j | 0 <= j < n :: probes[j].ok
  }

  /** A failed probe that counts: the child answered before, or its start grace is over. */
  ghost predicate Counts(h: Health, probes: seq<Probe>, i: nat)
    requires i < |probes|
  {
    !probes[i].ok && (Answered(probes, i) || probes[i].elapsed >= h.startGrace)
  }

  /** The consecutive failures that make a hang; the loop compares after it counted one. */
  function Limit(h: Health): (n: nat)
    ensures n > 0
  {
    Max(h.failures, 1)
  }

  /** The last `n` probes up to and including `at` all count as failures. */
  ghost predicate FailsInARow(h: Health, probes: seq<Probe>, at: nat, n: nat)
    requires at < |probes|
  {
    n <= at + 1 && forall i | at + 1 - n <= i <= at :: Counts(h, probes, i)
  }

  /** A hang is due at probe `at`. */
  ghost predicate HangPoint(h: Health, probes: seq<Probe>, at: nat)
    requires at < |probes|
  {
    FailsInARow(h, probes, at, Limit(h))
  }

  ghost predicate NoHangBefore(h: Health, probes: seq<Probe>, n: nat)
    requires n <= |probes|
  {
    forall at: nat | at < n :: !HangPoint(h, probes, at)
  }

  /** What the counters mean while the loop runs: the failure count is the length of the longest
      run of counted failures that ends at the last probe. */
  ghost predicate Meaning(h: Health, probes: seq<Probe>, n: nat, w: Watch)
    requires n <= |probes|
  {
    && w.verdict == Watching
    && (w.seenHealthy <==> Answered(probes, n))
    && w.failed < Limit(h)
    && w.failed <= n
    && (forall i: nat | n - w.failed <= i < n :: Counts(h, probes, i))
    && (w.failed < n ==> !Counts(h, probes, n - w.failed - 1))
  }

  lemma AnsweredStep(probes: seq<Probe>, n: nat)
    requires n < |probes|
    ensures Answered(probes, n + 1) <==> Answered(probes, n) || probes[n].ok
  {
    if Answered(probes, n) {
      var j :| 0 <= j < n && probes[j].ok;
    }
  }

  /** Within the grace of a child that never answered no failure counts. */
  lemma NothingCounts(h: Health, probes: seq<Probe>, n: nat, i: nat)
    requires TimeFlows(probes) && i <= n < |probes|
    requires !Answered(probes, n) && probes[n].elapsed < h.startGrace
    ensures !Counts(h, probes, i)
  {
    assert forall j | 0 <= j < n :: !probes[j].ok;
  }

  lemma CountedFailure(h: Health, probes: seq<Probe>, n: nat, w: Watch)
    requires n < |probes| && Meaning(h, probes, n, w) && Counts(h, probes, n)
    ensures HangPoint(h, probes, n) <==> w.failed + 1 >= Limit(h)
    ensures !HangPoint(h, probes, n) ==> Meaning(h, probes, n + 1, w.(failed := w.failed + 1))
  {
    AnsweredStep(probes, n);
    var k := n - w.failed - 1;
    if k >= 0 && w.failed + 1 < Limit(h) {
      assert !Counts(h, probes, k) && n + 1 - Limit(h) <= k;
    }
  }

  /** One turn of the loop keeps the meaning, or the verdict is due at this probe. */
  lemma MeaningStep(h: Health, probes: seq<Probe>, n: nat, w: Watch)
    requires TimeFlows(probes) && n < |probes| && Meaning(h, probes, n, w)
    ensures var next := WatchStep(h, false, w, probes[n]);
            if HangPoint(h, probes, n) then next.verdict == Hang else Meaning(h, probes, n + 1, next)
  {
    AnsweredStep(probes, n);
    if Counts(h, probes, n) {
      hide Counts;
      CountedFailure(h, probes, n, w);
    } else {
      assert !HangPoint(h, probes, n);
      if !probes[n].ok && w.failed > 0 {
        NothingCounts(h, probes, n, n - 1);
      }
    }
  }

  lemma {:induction false} MeaningHolds(h: Health, probes: seq<Probe>, n: nat)
    requires TimeFlows(probes) && n <= |probes| && NoHangBefore(h, probes, n)
    ensures Meaning(h, probes, n, Watched(h, false, probes[..n]))
  {
    if n > 0 {
      MeaningHolds(h, probes, n - 1);
      WatchedStep(h, false, probes, n - 1);
      MeaningStep(h, probes, n - 1, Watched(h, false, probes[..n - 1]));
    }
  }

  /** The watchdog theorem: a child hangs at probe `n` exactly if the last `failures` probes all
      failed, each after the first answer or after the start grace, and no earlier probe met this. */
  lemma HangCondition(h: Health, probes: seq<Probe>, n: nat)
    requires TimeFlows(probes) && n < |probes|
    ensures (&& Watched(h, false, probes[..n]).verdict == Watching
             && Watched(h, false, probes[..n + 1]).verdict == Hang)
       <==> HangPoint(h, probes, n) && NoHangBefore(h, probes, n)
  {
    hide HangPoint;
    WatchedStep(h, false, probes, n);
    if NoHangBefore(h, probes, n) {
      MeaningHolds(h, probes, n);
      MeaningStep(h, probes, n, Watched(h, false, probes[..n]));
    } else {
      var at := FirstHang(h, probes, n);
      HangIsNoted(h, probes, at);
      assert probes[..n][..at + 1] == probes[..at + 1];
      VerdictStays(h, false, probes[..n], at + 1);
    }
  }

  lemma HangIsNoted(h: Health, probes: seq<Probe>, at: nat)
    requires TimeFlows(probes) && at < |probes|
    requires HangPoint(h, probes, at) && NoHangBefore(h, probes, at)
    ensures Watched(h, false, probes[..at + 1]).verdict == Hang
  {
    WatchedStep(h, false, probes, at);
    MeaningHolds(h, probes, at);
    MeaningStep(h, probes, at, Watched(h, false, probes[..at]));
  }

  lemma {:induction false} FirstHang(h: Health, probes: seq<Probe>, n: nat) returns (at: nat)
    requires n <= |probes| && !NoHangBefore(h, probes, n)
    ensures at < n && HangPoint(h, probes, at) && NoHangBefore(h, probes, at)
  {
    hide HangPoint;
    at :| at < n && HangPoint(h, probes, at);
    if !NoHangBefore(h, probes, at) {
      at := FirstHang(h, probes, at);
    }
  }

  /** What a verdict and the flag say about the answers. */
  lemma {:induction false} VerdictAndAnswers(h: Health, replaceWhenHealthy: bool, probes: seq<Probe>)
    ensures var w := Watched(h, replaceWhenHealthy, probes);
            && (w.verdict == Replace ==> replaceWhenHealthy && w.seenHealthy)
            && (w.seenHealthy && replaceWhenHealthy ==> w.verdict == Replace)
            && (w.verdict == Replace ==> exists n | 0 <= n < |probes| :: probes[n].ok && !Answered(probes, n))
            && (w.verdict == Watching ==> (w.seenHealthy <==> Answered(probes, |probes|)))
  {
    if probes != [] {
      var n := |probes| - 1;
      var init := probes[..n];
      VerdictAndAnswers(h, replaceWhenHealthy, init);
      AnsweredStep(probes, n);
      AnsweredPrefix(probes, n);
      if Watched(h, replaceWhenHealthy, init).verdict == Replace {
        var k :| 0 <= k < n && init[k].ok && !Answered(init, k);
        AnsweredPrefix(probes, n);
        assert probes[k].ok && !Answered(probes, k);
      }
    }
  }

  lemma AnsweredPrefix(probes: seq<Probe>, n: nat)
    requires n <= |probes|
    ensures forall k | 0 <= k <= n :: Answered(probes[..n], k) <==> Answered(probes, k)
  {
    forall k | 0 <= k <= n
      ensures Answered(probes[..n], k) <==> Answered(probes, k)
    {
      forall j | 0 <= j < k
        ensures probes[..n][j] == probes[j]
      {
      }
      if Answered(probes, k) {
        var j :| 0 <= j < k && probes[j].ok;
        assert probes[..n][j].ok;
      }
    }
  }

  /** Until the first good answer the restart flag makes no difference. */
  lemma {:induction false} SameUntilAnswer(h: Health, probes: seq<Probe>, n: nat)
    requires n <= |probes| && !Answered(probes, n)
    ensures Watched(h, true, probes[..n]) == Watched(h, false, probes[..n])
    ensures Watched(h, true, probes[..n]).verdict != Replace
  {
    if n > 0 {
      AnsweredStep(probes, n - 1);
      SameUntilAnswer(h, probes, n - 1);
      WatchedStep(h, true, probes, n - 1);
      WatchedStep(h, false, probes, n - 1);
    }
  }

  lemma {:induction false} FirstAnswer(probes: seq<Probe>, n: nat) returns (first: nat)
    requires n < |probes| && probes[n].ok
    ensures first <= n && probes[first].ok && !Answered(probes, first)
  {
    first := n;
    if Answered(probes, n) {
      var j: nat :| j < n && probes[j].ok;
      first := FirstAnswer(probes, j);
    }
  }

  /** A child with the restart flag is replaced if and only if some probe is answered and no hang was due
      before it; a child without the flag never is. */
  lemma ReplaceCondition(h: Health, replaceWhenHealthy: bool, probes: seq<Probe>)
    requires TimeFlows(probes)
    ensures Watched(h, replaceWhenHealthy, probes).verdict == Replace
       <==> replaceWhenHealthy && exists n | 0 <= n < |probes| :: probes[n].ok && NoHangBefore(h, probes, n)
  {
    hide Watched, HangPoint, WatchStep;
    VerdictAndAnswers(h, replaceWhenHealthy, probes);
    if replaceWhenHealthy {
      if Watched(h, true, probes).verdict == Replace {
        var n :| 0 <= n < |probes| && probes[n].ok && !Answered(probes, n);
        NoHangIfReplaced(h, probes, n);
      }
      if n :| 0 <= n < |probes| && probes[n].ok && NoHangBefore(h, probes, n) {
        var first := FirstAnswer(probes, n);
        ReplacedAtAnswer(h, probes, first);
      }
    }
  }

  lemma NoHangIfReplaced(h: Health, probes: seq<Probe>, n: nat)
    requires TimeFlows(probes) && n < |probes| && !Answered(probes, n)
    requires Watched(h, true, probes).verdict == Replace
    ensures NoHangBefore(h, probes, n)
  {
    hide Watched, HangPoint, WatchStep;
    forall at: nat | at < n && NoHangBefore(h, probes, at)
      ensures !HangPoint(h, probes, at)
    {
      HangIsKept(h, probes, at);
      assert forall j | 0 <= j < at + 1 :: !probes[j].ok;
      SameUntilAnswer(h, probes, at + 1);
    }
    if !NoHangBefore(h, probes, n) {
      var at := FirstHang(h, probes, n);
    }
  }

  /** A hang that is due first is the final verdict, if nothing was answered before it. */
  lemma HangIsKept(h: Health, probes: seq<Probe>, at: nat)
    requires TimeFlows(probes) && at < |probes| && NoHangBefore(h, probes, at)
    ensures HangPoint(h, probes, at) && Watched(h, true, probes[..at + 1]) == Watched(h, false, probes[..at + 1]) ==>
              Watched(h, true, probes).verdict == Hang
  {
    hide Watched, HangPoint, WatchStep;
    if HangPoint(h, probes, at) && Watched(h, true, probes[..at + 1]) == Watched(h, false, probes[..at + 1]) {
      HangIsNoted(h, probes, at);
      VerdictStays(h, true, probes, at + 1);
    }
  }

  lemma ReplacedAtAnswer(h: Health, probes: seq<Probe>, n: nat)
    requires TimeFlows(probes) && n < |probes| && probes[n].ok && !Answered(probes, n) && NoHangBefore(h, probes, n)
    ensures Watched(h, true, probes).verdict == Replace
  {
    hide Watched, HangPoint;
    MeaningHolds(h, probes, n);
    SameUntilAnswer(h, probes, n);
    WatchedStep(h, true, probes, n);
    VerdictStays(h, true, probes, n + 1);
  }

  // What the answers alone decide

  /** Some probe is answered before a hang is due. */
  ghost predicate AnswersInTime(h: Health, probes: seq<Probe>) {
    exists n | 0 <= n < |probes| :: probes[n].ok && NoHangBefore(h, probes, n)
  }

  ghost predicate Replaces(h: Health, replaceWhenHealthy: bool, probes: seq<Probe>) {
    replaceWhenHealthy && AnswersInTime(h, probes)
  }

  ghost predicate Hangs(h: Health, replaceWhenHealthy: bool, probes: seq<Probe>) {
    !NoHangBefore(h, probes, |probes|) && !Replaces(h, replaceWhenHealthy, probes)
  }

  /** The first hang without the flag. */
  lemma HangWithoutFlag(h: Health, probes: seq<Probe>)
    requires TimeFlows(probes)
    ensures var w := Watched(h, false, probes);
            && (w.verdict == Hang <==> !NoHangBefore(h, probes, |probes|)) && w.verdict != Replace
            && (w.seenHealthy <==> AnswersInTime(h, probes))
  {
    hide HangPoint, WatchStep, Watched;
    VerdictAndAnswers(h, false, probes);
    if NoHangBefore(h, probes, |probes|) {
      MeaningHolds(h, probes, |probes|);
      assert probes[..|probes|] == probes;
    } else {
      var at := FirstHang(h, probes, |probes|);
      HangIsNoted(h, probes, at);
      VerdictStays(h, false, probes, at + 1);
      HealthyAtHang(h, probes, at);
    }
  }

  /** A child that hangs was healthy if and only if it was answered before. */
  lemma HealthyAtHang(h: Health, probes: seq<Probe>, at: nat)
    requires TimeFlows(probes) && at < |probes| && HangPoint(h, probes, at) && NoHangBefore(h, probes, at)
    ensures Watched(h, false, probes[..at + 1]).seenHealthy <==> AnswersInTime(h, probes)
  {
    MeaningHolds(h, probes, at);
    WatchedStep(h, false, probes, at);
    assert Counts(h, probes, at);
    hide HangPoint, Watched;
    if n :| 0 <= n < |probes| && probes[n].ok && NoHangBefore(h, probes, n) {
      assert n < at;
    }
    if Answered(probes, at) {
      var n :| 0 <= n < at && probes[n].ok;
      assert NoHangBefore(h, probes, n);
    }
  }

  /** The verdict and the flag of a watched child, from its answers alone. */
  lemma VerdictCondition(h: Health, replaceWhenHealthy: bool, probes: seq<Probe>)
    requires TimeFlows(probes)
    ensures var w := Watched(h, replaceWhenHealthy, probes);
            && (w.verdict == Replace <==> Replaces(h, replaceWhenHealthy, probes))
            && (w.verdict == Hang <==> Hangs(h, replaceWhenHealthy, probes))
            && (w.seenHealthy <==> AnswersInTime(h, probes))
  {
    hide HangPoint, WatchStep, Watched;
    ReplaceCondition(h, replaceWhenHealthy, probes);
    VerdictAndAnswers(h, replaceWhenHealthy, probes);
    HangWithoutFlag(h, probes);
    if replaceWhenHealthy && !AnswersInTime(h, probes) {
      HangWithFlag(h, probes);
    }
  }

  /** Without an answer in time the flag makes no difference. */
  lemma HangWithFlag(h: Health, probes: seq<Probe>)
    requires TimeFlows(probes) && !AnswersInTime(h, probes)
    ensures Watched(h, true, probes).verdict == Hang <==> !NoHangBefore(h, probes, |probes|)
  {
    hide HangPoint, WatchStep, Watched;
    if NoHangBefore(h, probes, |probes|) {
      forall n | 0 <= n < |probes|
        ensures !probes[n].ok
      {
        assert NoHangBefore(h, probes, n);
      }
      SameUntilAnswer(h, probes, |probes|);
      assert probes[..|probes|] == probes;
      HangWithoutFlag(h, probes);
    } else {
      var at := FirstHang(h, probes, |probes|);
      forall n | 0 <= n < at + 1
        ensures !probes[n].ok
      {
        assert NoHangBefore(h, probes, n);
      }
      SameUntilAnswer(h, probes, at + 1);
      HangIsKept(h, probes, at);
    }
  }
}
