/**
 The restart loop of the supervisor (src/supervisor.rs) over the specs of the LLM: plan, spawn,
 probe, end, and again. The guarantees hold over all runs, whatever the children do.
 */
module Supervision {
  import opened Common
  import opened Engine
  import opened Specs
  import opened Watchdog

  datatype Env = Env(host: Host, health: Health)

  /** Between two children (with the outcome of the last one), planned, or with a living child. */
  datatype Phase =
    | Stopped(outcome: Option<RunOutcome>)
    | Ready(spec: ChildSpec)
    | Alive(spec: ChildSpec, watch: Watch)

  /** The supervisor and what it did so far: the finished runs, the chosen engines with the model
      files found at each choice, and the programs that were started. */
  datatype Supervisor = Supervisor(
    specs: SpecState,
    phase: Phase,
    starts: nat,
    runs: seq<Run>,
    chosen: seq<EngineKind>,
    models: seq<Model>,
    spawned: seq<EngineKind>)

  const INITIAL := Supervisor(FIRST, Stopped(None), 0, [], [], [], [])

  /** What happens next. The model file, the success of a start, the answers and the end of the child
      are choices of the environment. A child may also exit while the supervisor stops it. */
  datatype Event =
    | Plan(model: Model)
    | Spawn(ok: bool, ran: nat)
    | Answer(probe: Probe)
    | End(exited: bool, ran: nat)

  function EndedBy(w: Watch, exited: bool): Ended {
    if exited || w.verdict == Watching then Exited
    else if w.verdict == Replace then Replaced
    else Hung
  }

  function Finish(s: Supervisor, spec: ChildSpec, o: RunOutcome): Supervisor {
    s.(phase := Stopped(Some(o)), runs := s.runs + [Run(spec.program, o)])
  }

  /** One step; an event that does not fit the phase changes nothing. */
  function Step(env: Env, s: Supervisor, e: Event): Supervisor {
    match (s.phase, e)
    case (Stopped(outcome), Plan(model)) =>
      var p := PlanOf(env.host, s.specs, outcome, model);
      s.(specs := p.state, phase := Ready(p.spec),
         chosen := s.chosen + [p.decision.kind], models := s.models + [model])
    case (Ready(spec), Spawn(ok, ran)) =>
      if ok then s.(phase := Alive(spec, FRESH), starts := s.starts + 1, spawned := s.spawned + [spec.program])
      else Finish(s, spec, RunOutcome(SpawnFailed, false, ran))
    case (Alive(spec, w), Answer(probe)) =>
      s.(phase := Alive(spec, WatchStep(env.health, spec.restartWhenHealthy, w, probe)))
    case (Alive(spec, w), End(exited, ran)) =>
      if !exited && w.verdict == Watching then s
      else Finish(s, spec, RunOutcome(EndedBy(w, exited), w.seenHealthy, ran))
    case _ => s
  }

  function Continue(env: Env, s: Supervisor, events: seq<Event>): Supervisor {
    if events == [] then s
    else Step(env, Continue(env, s, events[..|events| - 1]), events[|events| - 1])
  }

  function After(env: Env, events: seq<Event>): Supervisor {
    Continue(env, INITIAL, events)
  }

  lemma AfterStep(env: Env, events: seq<Event>, e: Event)
    ensures After(env, events + [e]) == Step(env, After(env, events), e)
  {
    hide Step;
    assert (events + [e])[..|events|] == events;
  }

  function FailedRuns(runs: seq<Run>): nat {
    if runs == [] then 0
    else FailedRuns(runs[..|runs| - 1]) + if Failed(runs[|runs| - 1]) then 1 else 0
  }

  function GoodRuns(runs: seq<Run>): nat {
    if runs == [] then 0
    else GoodRuns(runs[..|runs| - 1]) + if Good(runs[|runs| - 1]) then 1 else 0
  }

  function ReplacedRuns(runs: seq<Run>): nat {
    if runs == [] then 0
    else ReplacedRuns(runs[..|runs| - 1]) + if runs[|runs| - 1].outcome.ended == Replaced then 1 else 0
  }

  lemma CountsAppend(runs: seq<Run>, r: Run)
    ensures Noted(runs + [r]) == NoteOf(Noted(runs), r.kind, Some(r.outcome))
    ensures FailedRuns(runs + [r]) == FailedRuns(runs) + if Failed(r) then 1 else 0
    ensures GoodRuns(runs + [r]) == GoodRuns(runs) + if Good(r) then 1 else 0
    ensures ReplacedRuns(runs + [r]) == ReplacedRuns(runs) + if r.outcome.ended == Replaced then 1 else 0
  {
    assert (runs + [r])[..|runs|] == runs;
  }

  /** The last outcome waits for the next plan. */
  predicate Pending(s: Supervisor) {
    s.phase.Stopped? && s.phase.outcome.Some?
  }

  function NotedRuns(s: Supervisor): seq<Run> {
    if Pending(s) && s.runs != [] then s.runs[..|s.runs| - 1] else s.runs
  }

  /** While a child is planned or alive, the active engine names its program. */
  ghost predicate ActiveIsProgram(s: Supervisor) {
    && (s.phase.Ready? || s.phase.Alive? ==>
          s.phase.spec.program == s.specs.active && s.specs.last == Some(s.specs.active))
    && (s.phase.Alive? ==> s.spawned != [] && s.spawned[|s.spawned| - 1] == s.specs.active)
    && s.starts == |s.spawned|
  }

  /** The failures that the chooser counted are those of the finished runs. */
  ghost predicate FailuresAreNoted(s: Supervisor) {
    && s.specs.failures == Noted(NotedRuns(s))
    && (Pending(s) ==>
          && s.runs != [] && s.runs[|s.runs| - 1].outcome == s.phase.outcome.value
          && s.specs.last == Some(s.runs[|s.runs| - 1].kind))
    && (s.phase == Stopped(None) ==> s.specs.last.None?)
  }

  /** A run is replaced only by a download-first spec, and then no such spec comes again. */
  ghost predicate ReplacedOnce(s: Supervisor) {
    && ReplacedRuns(s.runs) <= 1
    && (ReplacedRuns(s.runs) == 1 ==> s.specs.downloadDone || (Pending(s) && s.phase.outcome.value.ended == Replaced))
    && (s.phase.Ready? || s.phase.Alive? ==> s.phase.spec.restartWhenHealthy ==> ReplacedRuns(s.runs) == 0)
    && (s.phase.Alive? && s.phase.watch.verdict == Replace ==> s.phase.spec.restartWhenHealthy)
  }

  /** A banned engine is not started, so its failures stay bounded. */
  ghost predicate FailuresBounded(s: Supervisor) {
    var f, noted := s.specs.failures, NotedRuns(s);
    && (!f.banned ==> f.count <= 1 && FailedRuns(noted) <= GoodRuns(noted) + f.count)
    && (f.banned ==> FailedRuns(noted) <= GoodRuns(noted) + 2)
    && (f.banned && s.specs.last.Some? ==> s.specs.last.value == LlamaCpp)
  }

  /** ik_llama.cpp was passed over for a file that it runs only because of the ban. */
  ghost predicate PassedOverOnlyIfBanned(env: Env, s: Supervisor) {
    && |s.chosen| == |s.models|
    && forall i | 0 <= i < |s.chosen| ::
         if s.chosen[i] == Ik then IkPossible(env.host) && IkRuns(env.host, s.models[i])
         else IkPossible(env.host) && IkRuns(env.host, s.models[i]) ==> s.specs.failures.banned
  }

  /** Once found, the model file stays and keeps its architecture. */
  ghost predicate FileStays(models: seq<Model>) {
    forall i, j | 0 <= i <= j < |models| && models[i].Some? :: models[j] == models[i]
  }

  /** Between two starts of ik_llama.cpp there is no other start: llama.cpp*, ik*, llama.cpp*. */
  ghost predicate OneIkStretch(chosen: seq<EngineKind>) {
    forall i, j, k | 0 <= i <= j <= k < |chosen| && chosen[i] == Ik && chosen[k] == Ik :: chosen[j] == Ik
  }

  lemma StepKeepsActive(env: Env, s: Supervisor, e: Event)
    requires ActiveIsProgram(s)
    ensures ActiveIsProgram(Step(env, s, e))
  {
    hide PlanOf, WatchStep;
    if s.phase.Stopped? && e.Plan? {
      PlanAgrees(env.host, s.specs, s.phase.outcome, e.model);
    }
  }

  lemma PlanFailures(h: Host, s: SpecState, outcome: Option<RunOutcome>, model: Model)
    ensures PlanOf(h, s, outcome, model).state.failures
         == if s.last.Some? then NoteOf(s.failures, s.last.value, outcome) else s.failures
    ensures PlanOf(h, s, outcome, model).state.downloadDone
         == (s.downloadDone || (outcome.Some? && outcome.value.ended == Replaced))
    ensures PlanOf(h, s, outcome, model).state.last == Some(PlanOf(h, s, outcome, model).decision.kind)
  {
    hide Decide, NoteOf;
  }

  lemma StepKeepsNotes(env: Env, s: Supervisor, e: Event)
    requires ActiveIsProgram(s) && FailuresAreNoted(s)
    ensures FailuresAreNoted(Step(env, s, e))
  {
    hide PlanOf, WatchStep, NoteOf, Noted;
    var next := Step(env, s, e);
    if s.phase.Stopped? && e.Plan? {
      PlanFailures(env.host, s.specs, s.phase.outcome, e.model);
      if Pending(s) {
        var r := s.runs[|s.runs| - 1];
        CountsAppend(NotedRuns(s), r);
        assert s.runs == NotedRuns(s) + [r];
      }
    } else if |next.runs| > |s.runs| {
      assert next.runs[..|s.runs|] == s.runs;
    }
  }

  lemma StepKeepsReplaced(env: Env, s: Supervisor, e: Event)
    requires ReplacedOnce(s)
    ensures ReplacedOnce(Step(env, s, e))
  {
    hide PlanOf, ReplacedRuns;
    var next := Step(env, s, e);
    if s.phase.Stopped? && e.Plan? {
      PlanFailures(env.host, s.specs, s.phase.outcome, e.model);
      PlanConditions(env.host, s.specs, s.phase.outcome, e.model);
      PlanAgrees(env.host, s.specs, s.phase.outcome, e.model);
    } else if |next.runs| > |s.runs| {
      CountsAppend(s.runs, next.runs[|s.runs|]);
    }
  }

  lemma StepKeepsBound(env: Env, s: Supervisor, e: Event)
    requires ActiveIsProgram(s) && FailuresAreNoted(s) && FailuresBounded(s)
    ensures FailuresBounded(Step(env, s, e))
  {
    hide PlanOf, WatchStep, Noted, FailedRuns, GoodRuns;
    var next := Step(env, s, e);
    if s.phase.Stopped? && e.Plan? {
      PlanFailures(env.host, s.specs, s.phase.outcome, e.model);
      PlanConditions(env.host, s.specs, s.phase.outcome, e.model);
      if Pending(s) {
        var r := s.runs[|s.runs| - 1];
        CountsAppend(NotedRuns(s), r);
        assert s.runs == NotedRuns(s) + [r];
      }
    } else if |next.runs| > |s.runs| {
      assert next.runs[..|s.runs|] == s.runs;
    }
  }

  lemma StepKeepsPassedOver(env: Env, s: Supervisor, e: Event)
    requires PassedOverOnlyIfBanned(env, s)
    ensures PassedOverOnlyIfBanned(env, Step(env, s, e))
  {
    hide PlanOf, WatchStep, IkRuns, IkPossible;
    if s.phase.Stopped? && e.Plan? {
      PlanConditions(env.host, s.specs, s.phase.outcome, e.model);
    }
  }

  lemma StepKeepsStretch(env: Env, s: Supervisor, e: Event)
    requires PassedOverOnlyIfBanned(env, s)
    requires FileStays(Step(env, s, e).models) && OneIkStretch(s.chosen)
    ensures FileStays(s.models) && OneIkStretch(Step(env, s, e).chosen)
  {
    hide PlanOf, WatchStep;
    var next := Step(env, s, e);
    if s.phase.Stopped? && e.Plan? {
      var n := |s.chosen|;
      assert forall i | 0 <= i < n :: next.models[i] == s.models[i] && next.chosen[i] == s.chosen[i];
      assert forall i | 0 <= i < |s.models| :: next.models[i] == s.models[i];
      PlanConditions(env.host, s.specs, s.phase.outcome, e.model);
      if next.chosen[n] == Ik {
        forall i, j | 0 <= i <= j < n && next.chosen[i] == Ik
          ensures next.chosen[j] == Ik
        {
          assert next.models[j] == next.models[i];
        }
      }
    }
  }

  ghost predicate Sound(env: Env, s: Supervisor) {
    && ActiveIsProgram(s) && FailuresAreNoted(s) && ReplacedOnce(s)
    && FailuresBounded(s) && PassedOverOnlyIfBanned(env, s)
  }

  /** All invariants hold after every event of every run. */
  lemma {:induction false} RunIsSound(env: Env, events: seq<Event>)
    ensures Sound(env, After(env, events))
    decreases |events|
  {
    if events != [] {
      hide Step, ActiveIsProgram, FailuresAreNoted, ReplacedOnce, FailuresBounded, PassedOverOnlyIfBanned;
      var s, e := After(env, events[..|events| - 1]), events[|events| - 1];
      RunIsSound(env, events[..|events| - 1]);
      StepKeepsActive(env, s, e);
      StepKeepsNotes(env, s, e);
      StepKeepsReplaced(env, s, e);
      StepKeepsBound(env, s, e);
      StepKeepsPassedOver(env, s, e);
    }
  }

  /** Whenever a child lives, the active engine names its program; the counter of starts is the number
      of started programs; a child with ik_llama.cpp has a model file it may run. */
  lemma LivingChild(env: Env, events: seq<Event>)
    ensures var s := After(env, events);
            && s.starts == |s.spawned| && |s.chosen| == |s.models|
            && (s.phase.Alive? ==> s.spawned != [] && s.phase.spec.program == s.specs.active == s.spawned[|s.spawned| - 1])
            && (forall i | 0 <= i < |s.chosen| && s.chosen[i] == Ik :: IkRuns(env.host, s.models[i]))
  {
    hide After;
    RunIsSound(env, events);
  }

  /** Over any run a child is replaced at most once, so there is no endless download restart. */
  lemma ReplacedAtMostOnce(env: Env, events: seq<Event>)
    ensures ReplacedRuns(After(env, events).runs) <= 1
  {
    hide After;
    RunIsSound(env, events);
  }

  /** The engine is banned exactly if two failed runs had no good run between them, and the failed
      runs never outnumber the good ones by more than two. */
  lemma FailureHistory(env: Env, events: seq<Event>)
    ensures var s := After(env, events);
            && (s.specs.failures.banned <==> FailedTwice(NotedRuns(s)))
            && FailedRuns(s.runs) <= GoodRuns(s.runs) + 2
  {
    hide After, Noted, FailedTwice, FailedRuns, GoodRuns;
    var s := After(env, events);
    RunIsSound(env, events);
    BanCondition(NotedRuns(s));
    if Pending(s) {
      var r := s.runs[|s.runs| - 1];
      CountsAppend(NotedRuns(s), r);
      assert s.runs == NotedRuns(s) + [r];
    }
  }

  lemma {:induction false} EngineHistory(env: Env, events: seq<Event>)
    requires FileStays(After(env, events).models)
    ensures OneIkStretch(After(env, events).chosen)
    decreases |events|
  {
    if events != [] {
      hide Step, OneIkStretch, FileStays, Sound;
      var init, e := events[..|events| - 1], events[|events| - 1];
      RunIsSound(env, init);
      SoundPassesOver(env, After(env, init));
      StepFileStays(env, After(env, init), e);
      EngineHistory(env, init);
      StepKeepsStretch(env, After(env, init), e);
    }
  }

  lemma SoundPassesOver(env: Env, s: Supervisor)
    requires Sound(env, s)
    ensures PassedOverOnlyIfBanned(env, s)
  {
  }

  lemma StepFileStays(env: Env, s: Supervisor, e: Event)
    requires FileStays(Step(env, s, e).models)
    ensures FileStays(s.models)
  {
    hide PlanOf, WatchStep;
    assert forall i | 0 <= i < |s.models| :: Step(env, s, e).models[i] == s.models[i];
  }

  function Switches(chosen: seq<EngineKind>): nat {
    if |chosen| < 2 then 0
    else Switches(chosen[..|chosen| - 1]) + if chosen[|chosen| - 1] != chosen[|chosen| - 2] then 1 else 0
  }

  /** The number of switches follows from the shape: after `n` starts it is 0 or 1 while no second
      llama.cpp stretch began, and 2 at most. */
  lemma {:induction false} SwitchCount(chosen: seq<EngineKind>)
    requires OneIkStretch(chosen)
    ensures Switches(chosen) <= 2
    ensures chosen != [] && chosen[|chosen| - 1] == Ik ==> Switches(chosen) <= 1
    ensures (forall i | 0 <= i < |chosen| :: chosen[i] == LlamaCpp) ==> Switches(chosen) == 0
    decreases |chosen|
  {
    if |chosen| >= 2 {
      var n := |chosen| - 1;
      var init := chosen[..n];
      SwitchCount(init);
      if chosen[n] == Ik && chosen[n - 1] == LlamaCpp {
        forall i | 0 <= i < n
          ensures chosen[i] == LlamaCpp
        {
          if chosen[i] == Ik {
            assert chosen[n - 1] == Ik;
          }
        }
      }
    }
  }

  /** With constant host facts and a model file that stays, the engine switches at most twice. */
  lemma AtMostTwoSwitches(env: Env, events: seq<Event>)
    requires FileStays(After(env, events).models)
    ensures Switches(After(env, events).chosen) <= 2
  {
    hide After;
    EngineHistory(env, events);
    SwitchCount(After(env, events).chosen);
  }
}
