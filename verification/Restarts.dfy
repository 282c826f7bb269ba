/**
 How the runs of a child end, from the answers to its probes alone, and what this decides about the next
 starts (src/supervisor.rs, src/llm/specs.rs).
 */
module Restarts {
  import opened Common
  import opened Engine
  import opened Specs
  import opened Watchdog
  import opened Supervision

  /** The answers of the current child. */
  function ProbesOf(env: Env, events: seq<Event>): seq<Probe> {
    if events == [] then []
    else
      var init, e := events[..|events| - 1], events[|events| - 1];
      var s := After(env, init);
      if s.phase.Ready? && e.Spawn? then []
      else if s.phase.Alive? && e.Answer? then ProbesOf(env, init) + [e.probe]
      else ProbesOf(env, init)
  }

  /** For every child the times of its answers do not decrease. */
  ghost predicate TimesFlow(env: Env, events: seq<Event>) {
    forall n | 0 <= n <= |events| :: TimeFlows(ProbesOf(env, events[..n]))
  }

  /** The watch of a living child is that of its answers. */
  lemma {:induction false} WatchOfProbes(env: Env, events: seq<Event>)
    ensures var s := After(env, events);
            s.phase.Alive? ==>
              s.phase.watch == Watched(env.health, s.phase.spec.restartWhenHealthy, ProbesOf(env, events))
    decreases |events|
  {
    if events != [] {
      hide PlanOf, WatchStep;
      var init, e := events[..|events| - 1], events[|events| - 1];
      var s := After(env, init);
      WatchOfProbes(env, init);
      if s.phase.Alive? && e.Answer? {
        var probes := ProbesOf(env, init) + [e.probe];
        assert probes[..|probes| - 1] == ProbesOf(env, init);
      }
    }
  }

  /** How a run ends: by itself, or by its watchdog for the reason that its answers give. A child that its
      watchdog leaves alone goes on. */
  lemma OutcomeOfRun(env: Env, events: seq<Event>, exited: bool, ran: nat)
    requires After(env, events).phase.Alive? && TimeFlows(ProbesOf(env, events))
    ensures var s, probes := After(env, events), ProbesOf(env, events);
            var spec, next := s.phase.spec, Step(env, s, End(exited, ran));
            var replaced := Replaces(env.health, spec.restartWhenHealthy, probes);
            if exited || replaced || Hangs(env.health, spec.restartWhenHealthy, probes) then
              var ended := if exited then Exited else if replaced then Replaced else Hung;
              var o := RunOutcome(ended, AnswersInTime(env.health, probes), ran);
              next.phase == Stopped(Some(o)) && next.runs == s.runs + [Run(spec.program, o)]
            else next == s
  {
    hide After, Watched, ProbesOf, Replaces, Hangs, AnswersInTime;
    WatchOfProbes(env, events);
    VerdictCondition(env.health, After(env, events).phase.spec.restartWhenHealthy, ProbesOf(env, events));
  }

  /** At event `n` a child with the restart flag is stopped because it answered. */
  ghost predicate ReplacedAt(env: Env, events: seq<Event>, n: nat) {
    && n < |events| && events[n].End? && !events[n].exited
    && var s := After(env, events[..n]);
    && s.phase.Alive?
    && Replaces(env.health, s.phase.spec.restartWhenHealthy, ProbesOf(env, events[..n]))
  }

  lemma RunsGrow(env: Env, s: Supervisor, e: Event)
    ensures s.runs <= Step(env, s, e).runs && |Step(env, s, e).runs| <= |s.runs| + 1
    ensures ReplacedRuns(s.runs) <= ReplacedRuns(Step(env, s, e).runs)
  {
    hide PlanOf, WatchStep, ReplacedRuns;
    var next := Step(env, s, e);
    if |next.runs| > |s.runs| {
      CountsAppend(s.runs, next.runs[|s.runs|]);
      assert next.runs == s.runs + [next.runs[|s.runs|]];
    }
  }

  lemma NextState(env: Env, events: seq<Event>, n: nat)
    requires n < |events|
    ensures After(env, events[..n + 1]) == Step(env, After(env, events[..n]), events[n])
  {
    hide Step;
    assert events[..n + 1][..n] == events[..n];
  }

  /** A replacement is counted as one. */
  lemma ReplacementCounts(env: Env, events: seq<Event>, n: nat)
    requires n < |events| && TimesFlow(env, events)
    ensures ReplacedRuns(After(env, events[..n + 1]).runs) ==
              ReplacedRuns(After(env, events[..n]).runs) + if ReplacedAt(env, events, n) then 1 else 0
  {
    hide After, ProbesOf, Replaces, Hangs, AnswersInTime, ReplacedRuns;
    NextState(env, events, n);
    var s, e := After(env, events[..n]), events[n];
    if s.phase.Alive? && e.End? {
      OutcomeOfRun(env, events[..n], e.exited, e.ran);
      if Step(env, s, e) != s {
        CountsAppend(s.runs, Step(env, s, e).runs[|s.runs|]);
      }
    } else {
      OtherRuns(env, s, e);
    }
  }

  lemma OtherRuns(env: Env, s: Supervisor, e: Event)
    requires !(s.phase.Alive? && e.End?)
    ensures ReplacedRuns(Step(env, s, e).runs) == ReplacedRuns(s.runs)
  {
    hide PlanOf, WatchStep, ReplacedRuns;
    var next := Step(env, s, e);
    if |next.runs| > |s.runs| {
      CountsAppend(s.runs, next.runs[|s.runs|]);
    }
  }

  lemma {:induction false} ReplacedStays(env: Env, events: seq<Event>, n: nat, m: nat)
    requires n <= m <= |events|
    ensures ReplacedRuns(After(env, events[..n]).runs) <= ReplacedRuns(After(env, events[..m]).runs)
    decreases m - n
  {
    if n < m {
      hide After, ReplacedRuns, Step;
      ReplacedStays(env, events, n, m - 1);
      NextState(env, events, m - 1);
      RunsGrow(env, After(env, events[..m - 1]), events[m - 1]);
    }
  }

  /** After a replacement no child is planned or started with the restart flag, so there is no second one:
      the download does not restart without end. */
  lemma NoSecondReplacement(env: Env, events: seq<Event>, n: nat, m: nat)
    requires TimesFlow(env, events) && ReplacedAt(env, events, n) && n < m <= |events|
    ensures var s := After(env, events[..m]);
            s.phase.Ready? || s.phase.Alive? ==> !s.phase.spec.restartWhenHealthy
    ensures !ReplacedAt(env, events, m)
  {
    hide After, ProbesOf, AnswersInTime, ReplacedRuns, TimesFlow;
    ReplacementCounts(env, events, n);
    ReplacedStays(env, events, n + 1, m);
    RunIsSound(env, events[..m]);
  }

  /** The note that the download is done comes from a replacement. */
  lemma {:induction false} NotedReplacement(env: Env, events: seq<Event>)
    ensures var s := After(env, events);
            s.specs.downloadDone || (Pending(s) && s.phase.outcome.value.ended == Replaced) <==>
              ReplacedRuns(s.runs) > 0
    decreases |events|
  {
    if events != [] {
      hide Step, ReplacedRuns, After;
      var init, e := events[..|events| - 1], events[|events| - 1];
      NotedReplacement(env, init);
      assert init + [e] == events;
      AfterStep(env, init, e);
      NoteKept(env, After(env, init), e);
    } else {
      FirstNote(env);
    }
  }

  lemma FirstNote(env: Env)
    ensures After(env, []) == INITIAL && ReplacedRuns(INITIAL.runs) == 0
  {
  }

  lemma NoteKept(env: Env, s: Supervisor, e: Event)
    requires s.specs.downloadDone || (Pending(s) && s.phase.outcome.value.ended == Replaced) <==>
               ReplacedRuns(s.runs) > 0
    ensures var next := Step(env, s, e);
            next.specs.downloadDone || (Pending(next) && next.phase.outcome.value.ended == Replaced) <==>
              ReplacedRuns(next.runs) > 0
  {
    hide PlanOf, WatchStep, ReplacedRuns;
    var next := Step(env, s, e);
    if s.phase.Stopped? && e.Plan? {
      PlanFailures(env.host, s.specs, s.phase.outcome, e.model);
    } else if |next.runs| > |s.runs| {
      CountsAppend(s.runs, next.runs[|s.runs|]);
    }
  }

  lemma {:induction false} CountedReplacement(env: Env, events: seq<Event>, m: nat)
    requires TimesFlow(env, events) && m <= |events|
    ensures ReplacedRuns(After(env, events[..m]).runs) > 0 <==> exists n: nat | n < m :: ReplacedAt(env, events, n)
    decreases m
  {
    hide After, ReplacedAt, ReplacedRuns, TimesFlow;
    if m > 0 {
      CountedReplacement(env, events, m - 1);
      ReplacementCounts(env, events, m - 1);
    } else {
      assert events[..0] == [];
      FirstNote(env);
    }
  }

  /** Which plans download first: those of a host that can run ik_llama.cpp, without a ban, without a model
      file, and before any child was replaced. */
  lemma DownloadCondition(env: Env, events: seq<Event>, model: Model)
    requires TimesFlow(env, events) && After(env, events).phase.Stopped?
    ensures var next := Step(env, After(env, events), Plan(model));
            && next.phase.Ready?
            && (next.phase.spec.restartWhenHealthy <==>
                  && IkPossible(env.host) && !next.specs.failures.banned && model.None?
                  && !exists n: nat | n < |events| :: ReplacedAt(env, events, n))
  {
    hide After, ReplacedAt, ReplacedRuns, TimesFlow, PlanOf;
    var s := After(env, events);
    NotedReplacement(env, events);
    CountedReplacement(env, events, |events|);
    assert events[..|events|] == events;
    PlanFailures(env.host, s.specs, s.phase.outcome, model);
    PlanConditions(env.host, s.specs, s.phase.outcome, model);
    PlanAgrees(env.host, s.specs, s.phase.outcome, model);
  }
}
