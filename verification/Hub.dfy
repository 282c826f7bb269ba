/**
 The supervisor, the LLM specs and the prompt cache together (src/supervisor.rs, src/llm/specs.rs,
 src/llm/slots.rs): they share the counter of starts and the active engine, and their steps
 interleave in any order. A turn of the cache loop is four steps: it reads the counter, asks for the
 health, lists the slots, and then reads the file name and calls the engine. Children can end and
 start, and engines can change, between them.
 */
module Hub {
  import opened Common
  import opened Engine
  import opened Specs
  import V = Supervision
  import K = SlotKeeper
  import W = Watchdog

  /** The start counter at the four steps of a turn: where it is read, and what a second look would give
      when the health is asked, the slots are listed and the engine is called. */
  datatype Counts = Counts(read: nat, asked: nat, listed: nat, called: nat)

  /** What a turn of the cache loop does: the number of the program that lives then and gets the call, the
      engine whose file is used, and how many plans the supervisor had made. */
  datatype Deed = Deed(action: K.Action, counts: Counts, receiver: Option<nat>, file: EngineKind, plans: nat)

  /** How far the cache loop is in its turn, with what it found. */
  datatype Turn =
    | Asleep
    | Looked(start: nat, now: nat)
    | Asked(start: nat, now: nat, asked: nat, healthy: bool)
    | Listed(start: nat, now: nat, asked: nat, healthy: bool, listed: nat, slots: Option<seq<K.Slot>>)

  /** `planned` tells for each start how many plans came before it. */
  datatype State = State(
    sup: V.Supervisor,
    planned: seq<nat>,
    turn: Turn,
    keeper: K.Keeper,
    ticks: seq<K.Tick>,
    deeds: seq<Deed>)

  datatype Happening =
    | Child(event: V.Event)
    | Look(now: nat)
    | Ask(healthy: bool)
    | List(slots: Option<seq<K.Slot>>)
    | Act(later: nat, saved: bool)

  function Start(began: nat): State {
    State(V.INITIAL, [], Asleep, K.First(began), [], [])
  }

  /** One step; a step that does not fit the turn changes nothing. A dead child answers nothing. */
  function Step(env: V.Env, s: State, h: Happening): State {
    match (h, s.turn)
    case (Child(e), _) =>
      var next := V.Step(env, s.sup, e);
      s.(sup := next, planned := if next.starts > s.sup.starts then s.planned + [|s.sup.chosen|] else s.planned)
    case (Look(now), Asleep) => s.(turn := Looked(s.sup.starts, now))
    case (Ask(ok), Looked(start, now)) =>
      s.(turn := Asked(start, now, s.sup.starts, ok && s.sup.phase.Alive?))
    case (List(slots), Asked(start, now, asked, healthy)) =>
      s.(turn := Listed(start, now, asked, healthy, s.sup.starts, if s.sup.phase.Alive? then slots else None))
    case (Act(later, saved), Listed(start, now, asked, healthy, listed, slots)) =>
      var t := K.Tick(start, healthy, slots, now, later, saved);
      var turn := K.Poll(s.keeper, t);
      var deed := DeedNow(s.sup, turn.action, Counts(start, asked, listed, s.sup.starts));
      s.(turn := Asleep, keeper := turn.keeper, ticks := s.ticks + [t], deeds := s.deeds + [deed])
    case _ => s
  }

  /** Programs have numbers: the first one that was started is number 1. */
  function DeedNow(sup: V.Supervisor, action: K.Action, counts: Counts): Deed {
    Deed(action, counts, if sup.phase.Alive? then Some(|sup.spawned|) else None, sup.specs.active, |sup.chosen|)
  }

  function After(env: V.Env, began: nat, hs: seq<Happening>): State {
    if hs == [] then Start(began)
    else Step(env, After(env, began, hs[..|hs| - 1]), hs[|hs| - 1])
  }

  /** The supervisor's part of a run. */
  function ChildEvents(hs: seq<Happening>): seq<V.Event> {
    if hs == [] then []
    else ChildEvents(hs[..|hs| - 1]) + if hs[|hs| - 1].Child? then [hs[|hs| - 1].event] else []
  }

  /** The cache loop does not disturb the supervisor. */
  lemma {:induction false} SupervisorRuns(env: V.Env, began: nat, hs: seq<Happening>)
    ensures After(env, began, hs).sup == V.After(env, ChildEvents(hs))
    decreases |hs|
  {
    if hs != [] {
      hide V.Step, V.After, K.Poll;
      var init, h := hs[..|hs| - 1], hs[|hs| - 1];
      SupervisorRuns(env, began, init);
      if h.Child? {
        V.AfterStep(env, ChildEvents(init), h.event);
      } else {
        assert ChildEvents(hs) == ChildEvents(init);
      }
    }
  }

  /** The start that an action is meant for. */
  function StartOf(a: K.Action): Option<nat> {
    match a
    case Restore(start) => Some(start)
    case Save(start, _) => Some(start)
    case _ => None
  }

  /** Programs are those that the plans chose: the active engine is the last choice, and each start runs
      the choice before it. */
  ghost predicate Chosen(s: State) {
    var sup := s.sup;
    && V.ActiveIsProgram(sup)
    && (sup.chosen != [] ==> sup.specs.active == sup.chosen[|sup.chosen| - 1])
    && (sup.phase.Ready? || sup.phase.Alive? ==> sup.chosen != [])
    && |s.planned| == |sup.spawned|
    && (forall i | 0 <= i < |s.planned| ::
          0 < s.planned[i] <= |sup.chosen| && sup.spawned[i] == sup.chosen[s.planned[i] - 1])
  }

  /** A deed uses the file of the last choice, which is the engine that lives, and it is meant for a
      program that was started before. The counter never goes back within a turn. */
  ghost predicate DeedFits(s: State, d: Deed) {
    && d.counts.read <= d.counts.asked <= d.counts.listed <= d.counts.called <= |s.sup.spawned|
    && d.plans <= |s.sup.chosen|
    && (d.plans > 0 ==> d.file == s.sup.chosen[d.plans - 1])
    && (d.receiver.Some? ==>
          0 < d.receiver.value == d.counts.called && d.file == s.sup.spawned[d.receiver.value - 1])
    && (StartOf(d.action).Some? ==>
          && 0 < StartOf(d.action).value == d.counts.read <= |s.planned|
          && s.planned[d.counts.read - 1] <= d.plans)
  }

  function TurnStart(s: State): nat {
    if s.turn.Asleep? then s.sup.starts else s.turn.start
  }

  /** Within a turn and from turn to turn the counter only grows. */
  ghost predicate CountsGrow(s: State) {
    && (s.turn.Looked? ==> s.turn.start <= s.sup.starts)
    && (s.turn.Asked? ==> s.turn.start <= s.turn.asked <= s.sup.starts)
    && (s.turn.Listed? ==> s.turn.start <= s.turn.asked <= s.turn.listed <= s.sup.starts)
    && (forall i | 0 <= i < |s.deeds| :: s.deeds[i].counts.called <= TurnStart(s))
    && (forall i, j | 0 <= i < j < |s.deeds| :: s.deeds[i].counts.called <= s.deeds[j].counts.read)
  }

  ghost predicate Linked(began: nat, s: State) {
    && |s.deeds| == |s.ticks|
    && s.keeper == K.KeeperAfter(began, s.ticks)
    && (forall i | 0 <= i < |s.ticks| ::
          s.deeds[i].action == K.ActionAt(began, s.ticks, i) && s.deeds[i].counts.read == s.ticks[i].starts)
    && K.CounterGrows(s.ticks)
    && (s.ticks != [] ==> s.ticks[|s.ticks| - 1].starts <= TurnStart(s))
    && TurnStart(s) <= s.sup.starts
    && CountsGrow(s)
    && Chosen(s)
    && (forall i | 0 <= i < |s.deeds| :: DeedFits(s, s.deeds[i]))
  }

  lemma SpawnedGrows(env: V.Env, s: V.Supervisor, e: V.Event)
    ensures s.spawned <= V.Step(env, s, e).spawned && s.starts <= V.Step(env, s, e).starts
    ensures s.chosen <= V.Step(env, s, e).chosen
  {
    hide PlanOf;
  }

  lemma {:induction false} ChildKeepsChosen(env: V.Env, s: State, e: V.Event)
    requires Chosen(s) && V.ActiveIsProgram(V.Step(env, s.sup, e))
    ensures Chosen(Step(env, s, Child(e)))
  {
    if s.sup.phase.Stopped? && e.Plan? {
      PlanAgrees(env.host, s.sup.specs, s.sup.phase.outcome, e.model);
    }
    hide PlanOf;
  }

  lemma ChildKeepsCounts(env: V.Env, s: State, e: V.Event)
    requires CountsGrow(s)
    ensures CountsGrow(Step(env, s, Child(e)))
  {
    SpawnedGrows(env, s.sup, e);
    hide V.Step;
  }

  lemma ChildKeepsDeed(env: V.Env, s: State, e: V.Event, d: Deed)
    requires DeedFits(s, d)
    ensures DeedFits(Step(env, s, Child(e)), d)
  {
    SpawnedGrows(env, s.sup, e);
    hide V.Step;
  }

  lemma {:induction false} ChildKeepsLink(env: V.Env, began: nat, s: State, e: V.Event)
    requires Linked(began, s) && V.ActiveIsProgram(V.Step(env, s.sup, e))
    ensures Linked(began, Step(env, s, Child(e)))
  {
    hide V.Step, K.KeeperAfter, K.ActionAt, V.ActiveIsProgram, Chosen, DeedFits, CountsGrow;
    ChildKeepsChosen(env, s, e);
    ChildKeepsCounts(env, s, e);
    SpawnedGrows(env, s.sup, e);
    var next := Step(env, s, Child(e));
    forall i | 0 <= i < |s.deeds|
      ensures DeedFits(next, s.deeds[i])
    {
      ChildKeepsDeed(env, s, e, s.deeds[i]);
    }
  }

  /** What an action is meant for: the counter that the turn read. */
  lemma ActionStart(k: K.Keeper, t: K.Tick)
    requires k.restoredStart <= t.starts
    ensures var a := K.Poll(k, t).action;
            StartOf(a).Some? ==> 0 < StartOf(a).value == t.starts
  {
    hide K.Pick;
  }

  lemma NowFits(s: State, action: K.Action, counts: Counts)
    requires Chosen(s) && (StartOf(action).Some? ==> 0 < StartOf(action).value == counts.read)
    requires counts.read <= counts.asked <= counts.listed <= counts.called == s.sup.starts
    ensures DeedFits(s, DeedNow(s.sup, action, counts))
  {
  }

  lemma {:induction false} ActKeepsLink(env: V.Env, began: nat, s: State, h: Happening)
    requires Linked(began, s) && s.turn.Listed? && h.Act?
    ensures Linked(began, Step(env, s, h))
  {
    hide K.Poll, K.ActionAt, Chosen, DeedFits, CountsGrow;
    ActKeepsCounts(env, s, h);
    ReadNow(s);
    var t := K.Tick(s.turn.start, s.turn.healthy, s.turn.slots, s.turn.now, h.later, h.saved);
    var next := Step(env, s, h);
    var n := |s.ticks|;
    assert next.ticks == s.ticks + [t];
    assert next.ticks[..n] == s.ticks && s.ticks[..n] == s.ticks;
    SameActions(began, s.ticks, t);
    K.RestoredStartBounds(began, s.ticks, n);
    ActionStart(s.keeper, t);
    NowFits(s, K.Poll(s.keeper, t).action, Counts(s.turn.start, s.turn.asked, s.turn.listed, s.sup.starts));
    SameFits(s, next);
  }

  lemma SameActions(began: nat, ticks: seq<K.Tick>, t: K.Tick)
    ensures forall i | 0 <= i < |ticks| :: K.ActionAt(began, ticks + [t], i) == K.ActionAt(began, ticks, i)
    ensures K.ActionAt(began, ticks + [t], |ticks|) == K.Poll(K.KeeperAfter(began, ticks), t).action
  {
    hide K.Poll, K.KeeperAfter;
    forall i | 0 <= i <= |ticks|
      ensures (ticks + [t])[..i] == ticks[..i]
    {
    }
    assert ticks[..|ticks|] == ticks;
  }

  lemma ActKeepsCounts(env: V.Env, s: State, h: Happening)
    requires CountsGrow(s) && s.turn.Listed? && h.Act?
    ensures CountsGrow(Step(env, s, h))
  {
    hide K.Poll;
  }

  lemma ReadNow(s: State)
    requires CountsGrow(s) && s.turn.Listed?
    ensures s.turn.start <= s.turn.asked <= s.turn.listed <= s.sup.starts
  {
  }

  /** Only the supervisor matters for the deeds. */
  lemma SameFits(s: State, next: State)
    requires s.sup == next.sup && s.planned == next.planned
    ensures Chosen(s) == Chosen(next) && forall d :: DeedFits(s, d) == DeedFits(next, d)
  {
  }

  lemma WaitKeepsLink(env: V.Env, began: nat, s: State, h: Happening)
    requires Linked(began, s) && (h.Look? || h.Ask? || h.List?)
    ensures Linked(began, Step(env, s, h))
  {
    hide K.KeeperAfter, K.ActionAt, Chosen, DeedFits;
    SameFits(s, Step(env, s, h));
  }

  lemma {:induction false} RunIsLinked(env: V.Env, began: nat, hs: seq<Happening>)
    ensures Linked(began, After(env, began, hs))
    decreases |hs|
  {
    if hs != [] {
      hide Step, Linked, V.After, V.Step, V.ActiveIsProgram;
      var init, h := hs[..|hs| - 1], hs[|hs| - 1];
      RunIsLinked(env, began, init);
      match h
      case Child(e) =>
        ProgramAfter(env, began, init, e);
        ChildKeepsLink(env, began, After(env, began, init), e);
      case Act(_, _) =>
        if After(env, began, init).turn.Listed? {
          ActKeepsLink(env, began, After(env, began, init), h);
        } else {
          NoAct(env, After(env, began, init), h);
        }
      case _ =>
        WaitKeepsLink(env, began, After(env, began, init), h);
    }
  }

  lemma NoAct(env: V.Env, s: State, h: Happening)
    requires h.Act? && !s.turn.Listed?
    ensures Step(env, s, h) == s
  {
  }

  lemma {:induction false} ProgramAfter(env: V.Env, began: nat, hs: seq<Happening>, e: V.Event)
    ensures V.ActiveIsProgram(V.Step(env, After(env, began, hs).sup, e))
  {
    hide V.After, V.Step, V.ActiveIsProgram, After;
    SupervisorRuns(env, began, hs);
    V.AfterStep(env, ChildEvents(hs), e);
    V.RunIsSound(env, ChildEvents(hs) + [e]);
  }

  /** Restore discipline of the whole system: the number of restores is at most the settled start,
      that is at most the counter, and the counter is the number of started programs. */
  lemma {:induction false} RestoresNeverExceedStarts(env: V.Env, began: nat, hs: seq<Happening>)
    ensures var s := After(env, began, hs);
            && K.Restores(began, s.ticks, |s.ticks|) <= s.keeper.restoredStart <= s.sup.starts
            && s.sup.starts == |s.sup.spawned|
  {
    hide After, K.KeeperAfter, V.After, K.Restores;
    var s := After(env, began, hs);
    RunIsLinked(env, began, hs);
    K.RestoreCount(began, s.ticks, |s.ticks|);
    assert s.ticks[..|s.ticks|] == s.ticks;
    if s.ticks == [] {
      K.RestoredStartBounds(began, s.ticks, 0);
    }
  }

  /** For each value of the counter at most one restore is issued, before any periodic save for it. */
  lemma CounterDiscipline(env: V.Env, began: nat, hs: seq<Happening>, i: nat, j: nat, start: nat)
    requires i < j < |After(env, began, hs).deeds|
    requires After(env, began, hs).deeds[i].action in {K.Restore(start), K.LeaveBusy(start)}
          || (After(env, began, hs).deeds[i].action.Save? && After(env, began, hs).deeds[i].action.start == start)
    ensures After(env, began, hs).deeds[j].action != K.Restore(start)
  {
    hide After, K.KeeperAfter, K.ActionAt;
    var s := After(env, began, hs);
    RunIsLinked(env, began, hs);
    if s.deeds[i].action.Save? {
      K.SaveAfterRestore(began, s.ticks, i, start, s.deeds[i].action.slot);
    } else {
      K.SettledOnce(began, s.ticks, i, j, start);
    }
  }

  // Which program

  /** Where a restore or save goes: to the program that its turn's counter names if and only if a program
      lives and the counter, read again at the call, is still the same. Then the health and the idle slots
      were answers of that program too, and the file is its own. */
  lemma {:induction false} CallOfStart(env: V.Env, began: nat, hs: seq<Happening>, i: nat)
    requires i < |After(env, began, hs).deeds| && StartOf(After(env, began, hs).deeds[i].action).Some?
    ensures var s := After(env, began, hs);
            var d := s.deeds[i];
            var start := StartOf(d.action).value;
            && 0 < start == d.counts.read <= d.counts.called <= |s.sup.spawned|
            && (d.receiver == Some(start) <==> d.receiver.Some? && d.counts.called == d.counts.read)
            && (d.receiver == Some(start) ==>
                  d.counts.asked == d.counts.listed == start && d.file == s.sup.spawned[start - 1])
            && (d.receiver.Some? && d.receiver != Some(start) ==> start < d.receiver.value)
  {
    hide After, K.KeeperAfter, K.ActionAt, V.ActiveIsProgram;
    RunIsLinked(env, began, hs);
    assert DeedFits(After(env, began, hs), After(env, began, hs).deeds[i]);
  }

  /** The program that a deed is about: the one that gets the call, or the one that was busy. */
  function Concerns(d: Deed): Option<nat> {
    match d.action
    case Idle => None
    case LeaveBusy(_) => Some(d.counts.listed)
    case _ => d.receiver
  }

  /** A restart came between the look at the counter and the call. */
  predicate Overtaken(d: Deed) {
    d.counts.read < d.counts.called
  }

  predicate Restores(d: Deed, program: nat) {
    d.action.Restore? && d.receiver == Some(program)
  }

  /** If a program is restored although a turn before restored it, saved it or left it busy, then that
      earlier turn was meant for a program before it, and the later one was not overtaken. */
  lemma {:induction false} RestoreDiscipline(env: V.Env, began: nat, hs: seq<Happening>, i: nat, j: nat, program: nat)
    requires i < j < |After(env, began, hs).deeds|
    requires Concerns(After(env, began, hs).deeds[i]) == Some(program)
    requires Restores(After(env, began, hs).deeds[j], program)
    ensures var deeds := After(env, began, hs).deeds;
            deeds[i].counts.read < program == deeds[j].counts.read && Overtaken(deeds[i]) && !Overtaken(deeds[j])
  {
    hide After, K.KeeperAfter, K.ActionAt, Chosen, V.ActiveIsProgram;
    var s := After(env, began, hs);
    RunIsLinked(env, began, hs);
    var d, e := s.deeds[i], s.deeds[j];
    assert DeedFits(s, d) && DeedFits(s, e);
    assert d.counts.called <= e.counts.read;
    assert program <= d.counts.called;
    if d.counts.read == program {
      StartOfBusy(began, s.ticks, i);
      CounterDiscipline(env, began, hs, i, j, program);
    }
  }

  /** Also a turn that leaves a busy engine alone means the counter that it read. */
  lemma StartOfBusy(began: nat, ticks: seq<K.Tick>, i: nat)
    requires i < |ticks|
    ensures K.ActionAt(began, ticks, i).LeaveBusy? ==> K.ActionAt(began, ticks, i).start == ticks[i].starts
  {
    hide K.Pick, K.KeeperAfter;
  }

  /** How many of the deeds restore a program. */
  function TimesRestored(deeds: seq<Deed>, program: nat): nat {
    if deeds == [] then 0
    else TimesRestored(deeds[..|deeds| - 1], program) + if Restores(deeds[|deeds| - 1], program) then 1 else 0
  }

  /** An overtaken turn restores the program, or one that is not overtaken does. */
  ghost predicate RestoredBy(deeds: seq<Deed>, program: nat, overtaken: bool) {
    exists i | 0 <= i < |deeds| :: Restores(deeds[i], program) && Overtaken(deeds[i]) == overtaken
  }

  /** A program is restored at most twice: once by its own turn, and once by an overtaken one. */
  lemma RestoredAtMostTwice(env: V.Env, began: nat, hs: seq<Happening>, program: nat)
    ensures var deeds := After(env, began, hs).deeds;
            TimesRestored(deeds, program) ==
              (if RestoredBy(deeds, program, false) then 1 else 0) + (if RestoredBy(deeds, program, true) then 1 else 0)
  {
    hide After, TimesRestored, RestoredBy;
    var deeds := After(env, began, hs).deeds;
    forall i, j | 0 <= i < j < |deeds| && Restores(deeds[i], program) && Restores(deeds[j], program)
      ensures Overtaken(deeds[i]) && !Overtaken(deeds[j])
    {
      RestoreDiscipline(env, began, hs, i, j, program);
    }
    CountRestores(deeds, program);
  }

  lemma {:induction false} CountRestores(deeds: seq<Deed>, program: nat)
    requires forall i, j | 0 <= i < j < |deeds| && Restores(deeds[i], program) && Restores(deeds[j], program) ::
               Overtaken(deeds[i]) && !Overtaken(deeds[j])
    ensures TimesRestored(deeds, program) ==
              (if RestoredBy(deeds, program, false) then 1 else 0) + (if RestoredBy(deeds, program, true) then 1 else 0)
    decreases |deeds|
  {
    if deeds != [] {
      hide Restores, Overtaken;
      var n := |deeds| - 1;
      var init, last := deeds[..n], deeds[n];
      CountRestores(init, program);
      assert RestoredBy(init, program, false) ==> RestoredBy(deeds, program, false);
      assert RestoredBy(init, program, true) ==> RestoredBy(deeds, program, true);
      if Restores(last, program) {
        assert RestoredBy(deeds, program, Overtaken(last));
      }
    }
  }

  // Which file

  /** An engine that lives when the file name is read only ever gets its own file. */
  lemma LivingEngineGetsItsFile(env: V.Env, began: nat, hs: seq<Happening>, i: nat)
    requires i < |After(env, began, hs).deeds|
    ensures var s := After(env, began, hs);
            var d := s.deeds[i];
            d.receiver.Some? ==>
              0 < d.receiver.value <= |s.sup.spawned| && d.file == s.sup.spawned[d.receiver.value - 1]
  {
    hide After, K.KeeperAfter, K.ActionAt;
    RunIsLinked(env, began, hs);
    assert DeedFits(After(env, began, hs), After(env, began, hs).deeds[i]);
  }

  /** A restore or save uses the file of the program that its counter names if and only if the last engine
      that was chosen before the file name was read is the one that was chosen for that program; so it
      always does if no plan came in between. */
  lemma {:induction false} FileOfStart(env: V.Env, began: nat, hs: seq<Happening>, i: nat)
    requires i < |After(env, began, hs).deeds| && StartOf(After(env, began, hs).deeds[i].action).Some?
    ensures var s := After(env, began, hs);
            var d := s.deeds[i];
            var start := StartOf(d.action).value;
            && 0 < start <= |s.sup.spawned| == |s.planned| && 0 < s.planned[start - 1] <= d.plans <= |s.sup.chosen|
            && (d.file == s.sup.spawned[start - 1] <==>
                  s.sup.chosen[d.plans - 1] == s.sup.chosen[s.planned[start - 1] - 1])
            && (s.planned[start - 1] == d.plans ==> d.file == s.sup.spawned[start - 1])
  {
    hide After, K.KeeperAfter, K.ActionAt, V.ActiveIsProgram;
    RunIsLinked(env, began, hs);
    assert DeedFits(After(env, began, hs), After(env, began, hs).deeds[i]);
  }

  // A turn that is overtaken

  lemma AfterMore(env: V.Env, began: nat, hs: seq<Happening>, h: Happening)
    ensures After(env, began, hs + [h]) == Step(env, After(env, began, hs), h)
  {
    hide Step;
    assert (hs + [h])[..|hs|] == hs;
  }

  /** The first child downloads; it is replaced when it first answers, and the next one is planned. */
  lemma Overtaking(env: V.Env, model: Model)
    requires IkPossible(env.host) && IkRuns(env.host, model)
    ensures var spec := ChildSpec(LlamaCpp, true);
            var s0 := V.Step(env, V.INITIAL, V.Plan(None));
            var s1 := V.Step(env, s0, V.Spawn(true, 0));
            var s2 := V.Step(env, s1, V.Answer(W.Probe(true, 0)));
            var s3 := V.Step(env, s2, V.End(false, 0));
            var s4 := V.Step(env, s3, V.Plan(model));
            && s1.phase == V.Alive(spec, W.FRESH) && s1.starts == 1 && s1.spawned == [LlamaCpp]
            && s2.phase.Alive? && s3.phase.Stopped? && s2.starts == s3.starts == 1
            && s4.specs.active == Ik && !s4.phase.Alive? && s4.starts == 1 && s4.spawned == [LlamaCpp]
            && s4.chosen == [LlamaCpp, Ik] && s0.starts == 0 && s0.chosen == [LlamaCpp]
  {
    PlanConditions(env.host, FIRST, None, None);
    var s0 := V.Step(env, V.INITIAL, V.Plan(None));
    PlanAgrees(env.host, FIRST, None, None);
    hide Decide;
    var s3 := V.Step(env, V.Step(env, V.Step(env, s0, V.Spawn(true, 0)), V.Answer(W.Probe(true, 0))), V.End(false, 0));
    PlanConditions(env.host, s3.specs, s3.phase.outcome, model);
    PlanAgrees(env.host, s3.specs, s3.phase.outcome, model);
  }

  /** The turn asks and lists while the first child lives. */
  const ANSWERS := [Child(V.Plan(None)), Child(V.Spawn(true, 0)), Look(0), Ask(true), List(Some([]))]

  lemma TurnHasAnswers(env: V.Env, model: Model)
    requires IkPossible(env.host) && IkRuns(env.host, model)
    ensures var s1 := V.Step(env, V.Step(env, V.INITIAL, V.Plan(None)), V.Spawn(true, 0));
            After(env, 0, ANSWERS) == State(s1, [1], Listed(1, 0, 1, true, 1, Some([])), K.First(0), [], [])
  {
    hide V.Step, After;
    Overtaking(env, model);
    NothingYet(env);
    var h1 := [Child(V.Plan(None))];
    var h2 := h1 + [Child(V.Spawn(true, 0))];
    AfterMore(env, 0, [], h1[0]);
    assert [] + [h1[0]] == h1;
    AfterMore(env, 0, h1, Child(V.Spawn(true, 0)));
    AfterMore(env, 0, h2, Look(0));
    AfterMore(env, 0, h2 + [Look(0)], Ask(true));
    AfterMore(env, 0, h2 + [Look(0)] + [Ask(true)], List(Some([])));
    assert ANSWERS == h2 + [Look(0)] + [Ask(true)] + [List(Some([]))];
  }

  lemma NothingYet(env: V.Env)
    ensures After(env, 0, []) == Start(0)
  {
  }

  function OvertakenTurn(model: Model): seq<Happening> {
    ANSWERS + [Child(V.Answer(W.Probe(true, 0)))] + [Child(V.End(false, 0))] + [Child(V.Plan(model))] + [Act(0, false)]
  }

  /** The turn reads the counter and the answers of llama.cpp, the supervisor ends that child and plans
      ik_llama.cpp, and only then the turn reads the file name: the restore that is meant for the first
      start uses the file of the other engine. No engine lives at that moment. */
  lemma OvertakenRestore(env: V.Env, model: Model)
    requires IkPossible(env.host) && IkRuns(env.host, model)
    ensures var s := After(env, 0, OvertakenTurn(model));
            && s.deeds == [Deed(K.Restore(1), Counts(1, 1, 1, 1), None, Ik, 2)]
            && s.sup.spawned == [LlamaCpp] && s.planned == [1]
  {
    hide V.Step, After, K.Pick;
    Overtaking(env, model);
    TurnHasAnswers(env, model);
    var h1 := ANSWERS + [Child(V.Answer(W.Probe(true, 0)))];
    var h2 := h1 + [Child(V.End(false, 0))];
    var h3 := h2 + [Child(V.Plan(model))];
    AfterMore(env, 0, ANSWERS, Child(V.Answer(W.Probe(true, 0))));
    AfterMore(env, 0, h1, Child(V.End(false, 0)));
    AfterMore(env, 0, h2, Child(V.Plan(model)));
    AfterMore(env, 0, h3, Act(0, false));
    assert !K.Busy([]);
  }

  // Restarts inside a turn

  function Continue(env: V.Env, s: State, hs: seq<Happening>): State
    decreases |hs|
  {
    if hs == [] then s else Continue(env, Step(env, s, hs[0]), hs[1..])
  }

  lemma {:induction false} AfterThen(env: V.Env, began: nat, hs: seq<Happening>, more: seq<Happening>)
    ensures After(env, began, hs + more) == Continue(env, After(env, began, hs), more)
    decreases |more|
  {
    hide Step, After;
    if more == [] {
      assert hs + more == hs;
    } else {
      AfterMore(env, began, hs, more[0]);
      AfterThen(env, began, hs + [more[0]], more[1..]);
      assert hs + [more[0]] + more[1..] == hs + more;
    }
  }

  lemma OneStep(env: V.Env, s: State, h: Happening, more: seq<Happening>)
    ensures Continue(env, s, [h] + more) == Continue(env, Step(env, s, h), more)
  {
    assert ([h] + more)[1..] == more;
  }

  lemma ThreeSteps(env: V.Env, s: State, a: Happening, b: Happening, c: Happening)
    ensures Continue(env, s, [a, b, c]) == Step(env, Step(env, Step(env, s, a), b), c)
  {
    hide Step;
    assert [a, b, c] == [a] + [b, c] && [b, c] == [b] + [c] && [c] == [c] + [];
    OneStep(env, s, a, [b, c]);
    OneStep(env, Step(env, s, a), b, [c]);
    OneStep(env, Step(env, Step(env, s, a), b), c, []);
  }

  /** The supervisor started one more llama.cpp, and the rest is as it was. */
  ghost predicate OneMore(s: State, t: State) {
    && t.sup.phase.Alive? && t.sup.starts == s.sup.starts + 1 && t.sup.specs.active == LlamaCpp
    && t.sup.spawned == s.sup.spawned + [LlamaCpp] && t.sup.chosen == s.sup.chosen + [LlamaCpp]
    && t == s.(sup := t.sup, planned := s.planned + [|t.sup.chosen|])
  }

  const STOP := Child(V.End(true, 0))
  const PLAN := Child(V.Plan(None))
  const SPAWN := Child(V.Spawn(true, 0))

  lemma ChildStarts(env: V.Env, s: State)
    requires s.sup.phase.Stopped?
    ensures OneMore(s, Step(env, Step(env, s, PLAN), SPAWN))
  {
    PlanAgrees(env.host, s.sup.specs, s.sup.phase.outcome, None);
    hide PlanOf;
  }

  lemma Restarts(env: V.Env, s: State)
    requires s.sup.phase.Alive?
    ensures OneMore(s, Continue(env, s, [STOP, PLAN, SPAWN]))
  {
    hide Continue;
    ChildStarts(env, Step(env, s, STOP));
    ThreeSteps(env, s, STOP, PLAN, SPAWN);
  }

  function Finish(slots: seq<K.Slot>, later: nat): seq<Happening> {
    [Ask(true), List(Some(slots)), Act(later, false)]
  }

  /** The rest of a turn, with a living child. */
  lemma Finishes(env: V.Env, s: State, slots: seq<K.Slot>, later: nat)
    requires s.turn.Looked? && s.sup.phase.Alive?
    ensures var n := s.sup.starts;
            var t := K.Tick(s.turn.start, true, Some(slots), s.turn.now, later, false);
            var deed := DeedNow(s.sup, K.Poll(s.keeper, t).action, Counts(s.turn.start, n, n, n));
            Continue(env, s, Finish(slots, later)) ==
              s.(turn := Asleep, keeper := K.Poll(s.keeper, t).keeper,
                 ticks := s.ticks + [t], deeds := s.deeds + [deed])
  {
    hide K.Poll, Continue;
    ThreeSteps(env, s, Ask(true), List(Some(slots)), Act(later, false));
  }

  lemma Looks(env: V.Env, s: State, now: nat, more: seq<Happening>)
    requires s.turn.Asleep?
    ensures Continue(env, s, [Look(now)] + more) == Continue(env, s.(turn := Looked(s.sup.starts, now)), more)
  {
    hide Continue;
    OneStep(env, s, Look(now), more);
  }

  lemma FirstChild(env: V.Env)
    ensures OneMore(Start(0), After(env, 0, [PLAN, SPAWN]))
  {
    hide After, Step;
    NothingYet(env);
    ChildStarts(env, Start(0));
    AfterMore(env, 0, [], PLAN);
    assert [] + [PLAN] == [PLAN] && [PLAN] + [SPAWN] == [PLAN, SPAWN];
    AfterMore(env, 0, [PLAN], SPAWN);
  }

  /** A restart after the look at the counter, and then a whole turn. */
  function TwoTurns(now: nat, slots: seq<K.Slot>): seq<Happening> {
    [Look(now)] + ([STOP, PLAN, SPAWN] + (Finish(slots, now) + ([Look(now)] + Finish([], now))))
  }

  lemma {:induction false} ContinueThen(env: V.Env, s: State, a: seq<Happening>, b: seq<Happening>)
    ensures Continue(env, s, a + b) == Continue(env, Continue(env, s, a), b)
    decreases |a|
  {
    hide Step;
    if a == [] {
      assert a + b == b;
    } else {
      assert a + b == [a[0]] + (a[1..] + b);
      OneStep(env, s, a[0], a[1..] + b);
      ContinueThen(env, Step(env, s, a[0]), a[1..], b);
    }
  }

  /** What these two turns do, from a child that was started `n`-th: the program after the next one gets both
      calls. */
  lemma TwoTurnsDo(env: V.Env, s: State, now: nat, slots: seq<K.Slot>)
    requires s.turn.Asleep? && s.sup.phase.Alive? && s.sup.starts == |s.sup.spawned|
    requires s.sup.starts ==
               K.Poll(s.keeper, K.Tick(s.sup.starts, true, Some(slots), now, now, false)).keeper.restoredStart
    ensures var n := s.sup.starts;
            var action := K.Poll(s.keeper, K.Tick(n, true, Some(slots), now, now, false)).action;
            var plans := |s.sup.chosen| + 1;
            Continue(env, s, TwoTurns(now, slots)).deeds == s.deeds + [
              Deed(action, Counts(n, n + 1, n + 1, n + 1), Some(n + 1), LlamaCpp, plans),
              Deed(K.Restore(n + 1), Counts(n + 1, n + 1, n + 1, n + 1), Some(n + 1), LlamaCpp, plans)]
  {
    hide Continue, K.Pick, Finish;
    var last := [Look(now)] + Finish([], now);
    var rest := Finish(slots, now) + last;
    Looks(env, s, now, [STOP, PLAN, SPAWN] + rest);
    var s1 := s.(turn := Looked(s.sup.starts, now));
    ContinueThen(env, s1, [STOP, PLAN, SPAWN], rest);
    Restarts(env, s1);
    var s2 := Continue(env, s1, [STOP, PLAN, SPAWN]);
    ContinueThen(env, s2, Finish(slots, now), last);
    Finishes(env, s2, slots, now);
    var s3 := Continue(env, s2, Finish(slots, now));
    Looks(env, s3, now, Finish([], now));
    Finishes(env, s3.(turn := Looked(s3.sup.starts, now)), [], now);
    assert !K.Busy([]);
  }

  /** A restart after the look at the counter: the overtaken turn restores the second program in place of the
      first, and the next turn restores it again. */
  lemma RestoredTwice(env: V.Env)
    ensures var s := After(env, 0, [PLAN, SPAWN] + TwoTurns(0, []));
            && s.deeds == [Deed(K.Restore(1), Counts(1, 2, 2, 2), Some(2), LlamaCpp, 2),
                           Deed(K.Restore(2), Counts(2, 2, 2, 2), Some(2), LlamaCpp, 2)]
            && TimesRestored(s.deeds, 2) == 2
  {
    hide After, Continue, TwoTurns, K.Pick;
    FirstChild(env);
    AfterThen(env, 0, [PLAN, SPAWN], TwoTurns(0, []));
    assert !K.Busy([]);
    TwoTurnsDo(env, After(env, 0, [PLAN, SPAWN]), 0, []);
    var deeds := After(env, 0, [PLAN, SPAWN] + TwoTurns(0, [])).deeds;
    assert deeds[..1] == [deeds[0]] && [deeds[0]][..0] == [];
    assert TimesRestored([], 2) == 0;
    assert TimesRestored(deeds[..1], 2) == 1;
  }

  const LARGE := K.Slot(Some(0), Some(7), Some(false), None, Some(2000), None)

  lemma PicksLarge()
    ensures K.Pick([LARGE]) == Some(LARGE)
  {
    assert !K.Processing([LARGE][0]) && K.PromptTokens([LARGE][0]) >= K.MIN_TOKENS;
  }

  /** A restart after the look of a saving turn: the second program is saved, and restored after that. */
  lemma SavedBeforeItsRestore(env: V.Env)
    ensures var s := After(env, 0, [PLAN, SPAWN] + ([Look(0)] + Finish([], 0)) + TwoTurns(300, [LARGE]));
            s.deeds == [Deed(K.Restore(1), Counts(1, 1, 1, 1), Some(1), LlamaCpp, 1),
                        Deed(K.Save(1, LARGE), Counts(1, 2, 2, 2), Some(2), LlamaCpp, 2),
                        Deed(K.Restore(2), Counts(2, 2, 2, 2), Some(2), LlamaCpp, 2)]
  {
    hide After, Continue, TwoTurns, Finish, K.Pick;
    FirstChild(env);
    PicksLarge();
    var first := [Look(0)] + Finish([], 0);
    AfterThen(env, 0, [PLAN, SPAWN], first);
    AfterThen(env, 0, [PLAN, SPAWN] + first, TwoTurns(300, [LARGE]));
    var s := After(env, 0, [PLAN, SPAWN]);
    Looks(env, s, 0, Finish([], 0));
    Finishes(env, s.(turn := Looked(1, 0)), [], 0);
    assert !K.Busy([]);
    TwoTurnsDo(env, Continue(env, s, first), 300, [LARGE]);
  }
}
