/** The engine and the spec of each start (src/llm/specs.rs). */
module Specs {
  import opened Common
  import opened Engine

  /** What matters of a child process spec: the program, and whether its first good answer ends it. */
  datatype ChildSpec = ChildSpec(program: EngineKind, restartWhenHealthy: bool)

  datatype SpecState = SpecState(failures: Failures, downloadDone: bool, last: Option<EngineKind>, active: EngineKind)

  const FIRST := SpecState(Failures(0, false), false, None, LlamaCpp)

  datatype Planned = Planned(state: SpecState, decision: Decision, spec: ChildSpec)

  function PlanOf(h: Host, s: SpecState, outcome: Option<RunOutcome>, model: Model): Planned {
    var failures := if s.last.Some? then NoteOf(s.failures, s.last.value, outcome) else s.failures;
    var downloadDone := s.downloadDone || (outcome.Some? && outcome.value.ended == Replaced);
    var d := Decide(FactsOf(h, model, downloadDone, failures.banned));
    var spec := if d.kind == Ik && model.Some? then ChildSpec(Ik, false) else ChildSpec(LlamaCpp, d.downloadFirst);
    Planned(SpecState(failures, downloadDone, Some(d.kind), d.kind), d, spec)
  }

  class LlmSpecs {
    const host: Host
    const chooser: Chooser
    const active: ActiveEngine
    var downloadDone: bool
    var last: Option<EngineKind>

    function State(): SpecState
      reads this, chooser, active
    {
      SpecState(chooser.State(), downloadDone, last, active.Get())
    }

    constructor (host: Host)
      ensures this.host == host && State() == FIRST && fresh(chooser) && fresh(active)
    {
      this.host := host;
      chooser := new Chooser();
      active := new ActiveEngine(LlamaCpp);
      downloadDone := false;
      last := None;
    }

    method Plan(outcome: Option<RunOutcome>, model: Model) returns (d: Decision, spec: ChildSpec)
      modifies this, chooser, active
      ensures Planned(State(), d, spec) == PlanOf(host, old(State()), outcome, model)
    {
      hide Decide, NoteOf;
      if last.Some? {
        chooser.Note(last.value, outcome);
      }
      if outcome.Some? && outcome.value.ended == Replaced {
        downloadDone := true;
      }
      var facts := FactsOf(host, model, downloadDone, chooser.banned);
      d := Decide(facts);
      last := Some(d.kind);
      active.Set(d.kind);
      if d.kind == Ik && model.Some? {
        spec := ChildSpec(Ik, false);
      } else {
        spec := ChildSpec(LlamaCpp, d.downloadFirst);
      }
    }
  }

  /** The active engine names the program of the spec, ik_llama.cpp only runs a model file on disk,
      and only a download-first spec is stopped at its first answer. */
  lemma PlanAgrees(h: Host, s: SpecState, outcome: Option<RunOutcome>, model: Model)
    ensures var p := PlanOf(h, s, outcome, model);
            && p.spec.program == p.decision.kind == p.state.active
            && p.state.last == Some(p.decision.kind)
            && (p.spec.program == Ik ==> model.Some?)
            && (p.spec.restartWhenHealthy <==> p.decision.downloadFirst)
  {
    var p := PlanOf(h, s, outcome, model);
    DecisionConditions(h, model, p.state.downloadDone, p.state.failures.banned);
  }

  /** When a plan chooses ik_llama.cpp, and when it downloads first. */
  lemma PlanConditions(h: Host, s: SpecState, outcome: Option<RunOutcome>, model: Model)
    ensures var p := PlanOf(h, s, outcome, model);
            && (p.decision.kind == Ik <==> IkPossible(h) && !p.state.failures.banned && IkRuns(h, model))
            && (p.decision.downloadFirst <==>
                IkPossible(h) && !p.state.failures.banned && model.None? && !p.state.downloadDone)
            && (s.failures.banned ==> p.state.failures.banned)
  {
    var p := PlanOf(h, s, outcome, model);
    DecisionConditions(h, model, p.state.downloadDone, p.state.failures.banned);
  }
}
