/** Which program runs the model (src/llm/engine.rs), and the spec of each start (src/llm/specs.rs). */
module Engine {
  import opened Common

  datatype EngineKind = LlamaCpp | Ik

  datatype EngineChoice = Auto | AlwaysLlamaCpp | PreferIk

  datatype Family = Ling3 | Minicpm5 | Lfm3 | Qwen35 | Granite4

  /** The architectures that ik_llama.cpp is verified for. */
  function IkArchitectures(family: Family): seq<string> {
    match family
    case Ling3 => ["bailingmoe3"]
    case Minicpm5 => ["llama"]
    case Lfm3 => ["lfm3"]
    case Qwen35 => []
    case Granite4 => []
  }

  datatype Facts = Facts(
    choice: EngineChoice,
    device: string,
    family: Family,
    architecture: Option<string>,
    modelOnDisk: bool,
    downloadDone: bool,
    cpuAvx2Fma: bool,
    ikBinary: bool,
    ikBanned: bool)

  datatype Reason =
    | Configured
    | Gpu
    | NoIkBinary
    | NoAvx2Fma
    | IkFailedTwice
    | FamilyNotVerified
    | DownloadNotFound
    | DownloadsFirst
    | ArchitectureNotVerified(a: string)
    | ArchitectureUnknown
    | IkWanted

  datatype Decision = Decision(kind: EngineKind, reason: Reason, downloadFirst: bool)

  function Stay(reason: Reason): Decision {
    Decision(LlamaCpp, reason, false)
  }

  function Decide(f: Facts): Decision {
    if f.choice == AlwaysLlamaCpp then Stay(Configured)
    else if f.device != "none" then Stay(Gpu)
    else if !f.ikBinary then Stay(NoIkBinary)
    else if !f.cpuAvx2Fma then Stay(NoAvx2Fma)
    else if f.ikBanned then Stay(IkFailedTwice)
    else if f.choice == Auto && IkArchitectures(f.family) == [] then Stay(FamilyNotVerified)
    else if !f.modelOnDisk then
      if f.downloadDone then Stay(DownloadNotFound) else Decision(LlamaCpp, DownloadsFirst, true)
    else if f.choice == Auto then
      match f.architecture
      case Some(a) =>
        if a in IkArchitectures(f.family) then Decision(Ik, IkWanted, false)
        else Stay(ArchitectureNotVerified(a))
      case None => Stay(ArchitectureUnknown)
    else Decision(Ik, IkWanted, false)
  }

  /** The machine and the configuration. They do not change while the server runs. */
  datatype Host = Host(choice: EngineChoice, device: string, family: Family, cpuAvx2Fma: bool, ikBinary: bool)

  /** The model file on disk: None if there is none, otherwise its architecture if it is readable. */
  type Model = Option<Option<string>>

  function FactsOf(h: Host, model: Model, downloadDone: bool, banned: bool): Facts {
    Facts(h.choice, h.device, h.family, if model.Some? then model.value else None, model.Some?,
          downloadDone, h.cpuAvx2Fma, h.ikBinary, banned)
  }

  /** ik_llama.cpp may run this family on this machine. */
  predicate IkPossible(h: Host) {
    && h.choice != AlwaysLlamaCpp && h.device == "none" && h.ikBinary && h.cpuAvx2Fma
    && (h.choice == Auto ==> IkArchitectures(h.family) != [])
  }

  /** The model file is one that ik_llama.cpp may run. */
  predicate IkRuns(h: Host, model: Model) {
    model.Some? && (h.choice == Auto ==> model.value.Some? && model.value.value in IkArchitectures(h.family))
  }

  /** When each of the two special decisions is taken, as one condition each. */
  lemma DecisionConditions(h: Host, model: Model, downloadDone: bool, banned: bool)
    ensures var d := Decide(FactsOf(h, model, downloadDone, banned));
            && (d.kind == Ik <==> IkPossible(h) && !banned && IkRuns(h, model))
            && (d.downloadFirst <==> IkPossible(h) && !banned && model.None? && !downloadDone)
  {
  }

  /** Where ik_llama.cpp can run at all: on a CPU with AVX2 and FMA, with its program; and which model files:
      any one if it is preferred, and with automatic choice those of the three verified families that have
      their own architecture. */
  lemma IkConditions(h: Host, model: Model)
    ensures IkPossible(h) && IkRuns(h, model) <==>
              && h.device == "none" && h.ikBinary && h.cpuAvx2Fma && model.Some?
              && match h.choice
                 case AlwaysLlamaCpp => false
                 case PreferIk => true
                 case Auto =>
                   && model.value.Some?
                   && (h.family, model.value.value) in {(Ling3, "bailingmoe3"), (Minicpm5, "llama"), (Lfm3, "lfm3")}
    ensures h.choice == Auto && IkPossible(h) ==> h.family in {Ling3, Minicpm5, Lfm3}
  {
  }

  datatype Ended = Exited | Hung | Replaced | SpawnFailed

  /** How a run ended; the time is in seconds. */
  datatype RunOutcome = RunOutcome(ended: Ended, healthy: bool, ran: nat)

  const GOOD_RUN := 120
  const MAX_FAILURES := 2

  datatype Failures = Failures(count: nat, banned: bool)

  predicate GoodRun(o: RunOutcome) {
    o.ended != Replaced && o.healthy && o.ran >= GOOD_RUN
  }

  predicate FailedRun(o: RunOutcome) {
    o.ended != Replaced && !(o.healthy && o.ran >= GOOD_RUN)
  }

  function NoteOf(f: Failures, kind: EngineKind, outcome: Option<RunOutcome>): Failures {
    match outcome
    case None => f
    case Some(o) =>
      if kind != Ik || o.ended == Replaced then f
      else if o.healthy && o.ran >= GOOD_RUN then f.(count := 0)
      else Failures(f.count + 1, f.banned || f.count + 1 >= MAX_FAILURES)
  }

  class Chooser {
    var failures: nat
    var banned: bool

    function State(): Failures
      reads this
    {
      Failures(failures, banned)
    }

    constructor ()
      ensures State() == Failures(0, false)
    {
      failures := 0;
      banned := false;
    }

    method Note(kind: EngineKind, outcome: Option<RunOutcome>)
      modifies this
      ensures State() == NoteOf(old(State()), kind, outcome)
    {
      if outcome.None? {
        return;
      }
      var o := outcome.value;
      if kind != Ik || o.ended == Replaced {
        return;
      }
      if o.healthy && o.ran >= GOOD_RUN {
        failures := 0;
        return;
      }
      failures := failures + 1;
      if failures >= MAX_FAILURES && !banned {
        banned := true;
      }
    }
  }

  /** A finished run of an engine. */
  datatype Run = Run(kind: EngineKind, outcome: RunOutcome)

  function Noted(runs: seq<Run>): Failures {
    if runs == [] then Failures(0, false)
    else
      var last := runs[|runs| - 1];
      NoteOf(Noted(runs[..|runs| - 1]), last.kind, Some(last.outcome))
  }

  predicate Failed(r: Run) {
    r.kind == Ik && FailedRun(r.outcome)
  }

  predicate Good(r: Run) {
    r.kind == Ik && GoodRun(r.outcome)
  }

  /** A run of ik_llama.cpp that was not replaced is good if it was healthy and took two minutes, and it failed
      otherwise. */
  lemma RunKinds(r: Run)
    ensures Good(r) <==> r.kind == Ik && r.outcome.ended != Replaced && r.outcome.healthy && r.outcome.ran >= 120
    ensures Failed(r) <==> r.kind == Ik && r.outcome.ended != Replaced && !Good(r)
  {
  }

  /** Run `i` failed and no good run follows it before `end`. */
  ghost predicate OpenFailure(runs: seq<Run>, i: nat, end: nat) {
    i < end <= |runs| && Failed(runs[i]) && forall k | i < k < end :: !Good(runs[k])
  }

  /** Two failed ik runs with no good ik run between them. */
  ghost predicate FailedTwice(runs: seq<Run>) {
    exists i: nat, j: nat | i < j < |runs| :: OpenFailure(runs, i, j) && Failed(runs[j])
  }

  lemma OpenFailureStep(init: seq<Run>, last: Run, i: nat)
    ensures i < |init| ==>
              (OpenFailure(init + [last], i, |init| + 1) <==> OpenFailure(init, i, |init|) && !Good(last))
    ensures forall j: nat | j <= |init| :: OpenFailure(init + [last], i, j) <==> OpenFailure(init, i, j)
  {
    var runs := init + [last];
    forall j: nat | j <= |init|
      ensures OpenFailure(runs, i, j) <==> OpenFailure(init, i, j)
    {
      if i < j {
        assert forall k | i <= k < j :: runs[k] == init[k];
      }
    }
    if i < |init| {
      assert forall k | i <= k < |init| :: runs[k] == init[k];
      assert runs[|init|] == last;
    }
  }

  /** The counter is zero exactly if no failure is open. */
  lemma {:induction false} CountCondition(runs: seq<Run>)
    ensures Noted(runs).count > 0 <==> exists i: nat :: OpenFailure(runs, i, |runs|)
  {
    if runs != [] {
      hide OpenFailure;
      var init, last := runs[..|runs| - 1], runs[|runs| - 1];
      var n := |init|;
      assert runs == init + [last];
      CountCondition(init);
      LastOpen(runs);
      forall i: nat {
        OpenFailureStep(init, last, i);
      }
      if i: nat :| OpenFailure(runs, i, |runs|) {
        OpenIsBefore(runs, i);
        assert i < n ==> OpenFailure(init, i, n);
      }
      if Noted(runs).count > 0 && !Failed(last) {
        var i: nat :| OpenFailure(init, i, n);
        OpenIsBefore(init, i);
        assert OpenFailure(runs, i, |runs|);
      }
    }
  }

  lemma OpenIsBefore(runs: seq<Run>, i: nat)
    requires OpenFailure(runs, i, |runs|)
    ensures i < |runs|
  {
  }

  lemma LastOpen(runs: seq<Run>)
    requires runs != []
    ensures OpenFailure(runs, |runs| - 1, |runs|) <==> Failed(runs[|runs| - 1])
  {
  }

  /** The ban is permanent and falls exactly when two failed runs have no good run between them. */
  lemma {:induction false} BanCondition(runs: seq<Run>)
    ensures Noted(runs).banned <==> FailedTwice(runs)
  {
    if runs != [] {
      hide OpenFailure;
      var init, last := runs[..|runs| - 1], runs[|runs| - 1];
      var n := |init|;
      assert runs == init + [last];
      BanCondition(init);
      CountCondition(init);
      forall i: nat {
        OpenFailureStep(init, last, i);
      }
      if Noted(init).banned {
        var i: nat, j: nat :| i < j < n && OpenFailure(init, i, j) && Failed(init[j]);
        assert OpenFailure(runs, i, j) && Failed(runs[j]);
      } else if Noted(runs).banned {
        var i: nat :| OpenFailure(init, i, n);
        OpenIsBefore(init, i);
        assert OpenFailure(runs, i, n) && Failed(runs[n]);
      }
      if FailedTwice(runs) {
        var i: nat, j: nat :| i < j < |runs| && OpenFailure(runs, i, j) && Failed(runs[j]);
        assert OpenFailure(init, i, j);
        assert j < n ==> Failed(init[j]);
      }
    }
  }

  /** The engine of the current start, as one machine word (1 is ik_llama.cpp). */
  class ActiveEngine {
    var word: nat

    function Get(): EngineKind
      reads this
    {
      if word == 1 then Ik else LlamaCpp
    }

    constructor (kind: EngineKind)
      ensures Get() == kind
    {
      word := if kind == Ik then 1 else 0;
    }

    method Set(kind: EngineKind)
      modifies this
      ensures Get() == kind
    {
      word := if kind == Ik then 1 else 0;
    }
  }
}
