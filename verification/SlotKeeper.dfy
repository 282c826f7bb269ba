/** The polling loop of the prompt cache (src/llm/slots.rs): when it restores and when it saves. */
module SlotKeeper {
  import opened Common
  import D = Directory
  import opened SlotFiles

  /** What the engines report of one slot. Each field can be missing. */
  datatype Slot = Slot(
    id: Option<int>,
    task: Option<int>,
    isProcessing: Option<bool>,
    state: Option<int>,
    promptTokens: Option<int>,
    promptChars: Option<nat>)

  const MIN_TOKENS := 1024
  const SAVE_EVERY := 300

  predicate Processing(s: Slot) {
    match s.isProcessing
    case Some(b) => b
    case None => s.state.Some? && s.state.value != 0
  }

  function PromptTokens(s: Slot): int {
    match s.promptTokens
    case Some(n) => n
    case None => if s.promptChars.Some? then Min(s.promptChars.value / 4, MAX_I64) else 0
  }

  function TaskOf(s: Slot): int {
    if s.task.Some? then s.task.value else -1
  }

  predicate Busy(slots: seq<Slot>) {
    exists i | 0 <= i < |slots| :: Processing(slots[i])
  }

  /** Slot `i` is the first of the latest tasks among the slots with an Assist-sized prompt. */
  predicate IsBest(slots: seq<Slot>, i: nat) {
    && i < |slots| && PromptTokens(slots[i]) >= MIN_TOKENS
    && (forall j | 0 <= j < |slots| && PromptTokens(slots[j]) >= MIN_TOKENS :: TaskOf(slots[j]) <= TaskOf(slots[i]))
    && (forall j | 0 <= j < i && PromptTokens(slots[j]) >= MIN_TOKENS :: TaskOf(slots[j]) < TaskOf(slots[i]))
  }

  /** The position of the slot to save: None while any request runs, and if no slot is large enough. */
  function BestOf(slots: seq<Slot>, n: nat): (best: Option<nat>)
    requires n <= |slots|
    ensures best.Some? ==> IsBest(slots[..n], best.value)
    ensures best.None? <==> forall j | 0 <= j < n :: PromptTokens(slots[j]) < MIN_TOKENS
  {
    if n == 0 then None
    else
      var before := BestOf(slots, n - 1);
      assert slots[..n] == slots[..n - 1] + [slots[n - 1]];
      if PromptTokens(slots[n - 1]) >= MIN_TOKENS
         && (before.None? || TaskOf(slots[n - 1]) > TaskOf(slots[before.value]))
      then Some(n - 1) else before
  }

  function Pick(slots: seq<Slot>): (p: Option<Slot>)
    ensures p.Some? ==> !Busy(slots) && exists i: nat :: IsBest(slots, i) && slots[i] == p.value
    ensures p.None? <==> Busy(slots) || forall j | 0 <= j < |slots| :: PromptTokens(slots[j]) < MIN_TOKENS
  {
    var best := BestOf(slots, |slots|);
    assert slots[..|slots|] == slots;
    if Busy(slots) || best.None? then None else Some(slots[best.value])
  }

  method PickSlot(slots: seq<Slot>) returns (picked: Option<Slot>)
    ensures picked == Pick(slots)
  {
    var best: Option<Slot> := None;
    for i := 0 to |slots|
      invariant forall j | 0 <= j < i :: !Processing(slots[j])
      invariant best == match BestOf(slots, i) case Some(b) => Some(slots[b]) case None => None
    {
      if Processing(slots[i]) {
        return None;
      }
      if PromptTokens(slots[i]) < MIN_TOKENS {
        continue;
      }
      if best.None? || TaskOf(slots[i]) > TaskOf(best.value) {
        best := Some(slots[i]);
      }
    }
    return best;
  }

  /** What one turn of the loop finds: the start counter, the answers of the engine, the clock
      when it looks and when it is done, and whether a save succeeds. */
  datatype Tick = Tick(
    starts: nat,
    healthy: bool,
    slots: Option<seq<Slot>>,
    now: nat,
    later: nat,
    saved: bool)

  datatype Action = Idle | Restore(start: nat) | LeaveBusy(start: nat) | Save(start: nat, slot: Slot)

  datatype Keeper = Keeper(restoredStart: nat, lastTask: Option<int>, nextSave: nat)

  datatype Turn = Turn(keeper: Keeper, action: Action)

  function Poll(k: Keeper, t: Tick): Turn {
    if t.starts != k.restoredStart then
      if !t.healthy || t.slots.None? then Turn(k, Idle)
      else
        Turn(Keeper(t.starts, None, t.later + SAVE_EVERY),
             if Busy(t.slots.value) then LeaveBusy(t.starts) else Restore(t.starts))
    else if t.starts == 0 || t.now < k.nextSave then Turn(k, Idle)
    else
      var k' := k.(nextSave := t.later + SAVE_EVERY);
      if t.slots.None? || Pick(t.slots.value).None? then Turn(k', Idle)
      else
        var slot := Pick(t.slots.value).value;
        if slot.task == k.lastTask || slot.id.None? then Turn(k', Idle)
        else Turn(if t.saved then k'.(lastTask := slot.task) else k', Save(t.starts, slot))
  }

  function First(began: nat): Keeper {
    Keeper(0, None, began + SAVE_EVERY)
  }

  function KeeperAfter(began: nat, ticks: seq<Tick>): Keeper {
    if ticks == [] then First(began)
    else Poll(KeeperAfter(began, ticks[..|ticks| - 1]), ticks[|ticks| - 1]).keeper
  }

  /** What the loop does at turn `i`. */
  function ActionAt(began: nat, ticks: seq<Tick>, i: nat): Action
    requires i < |ticks|
  {
    Poll(KeeperAfter(began, ticks[..i]), ticks[i]).action
  }

  function Actions(began: nat, ticks: seq<Tick>): (a: seq<Action>)
    ensures |a| == |ticks|
    ensures forall i | 0 <= i < |ticks| :: a[i] == ActionAt(began, ticks, i)
  {
    seq(|ticks|, i requires 0 <= i < |ticks| => ActionAt(began, ticks, i))
  }

  lemma KeeperStep(began: nat, ticks: seq<Tick>, n: nat)
    requires n < |ticks|
    ensures KeeperAfter(began, ticks[..n + 1]) == Poll(KeeperAfter(began, ticks[..n]), ticks[n]).keeper
  {
    assert ticks[..n + 1][..n] == ticks[..n];
  }

  /** The variables of the loop. */
  class Loop {
    var restoredStart: nat
    var lastTask: Option<int>
    var nextSave: nat

    function State(): Keeper
      reads this
    {
      Keeper(restoredStart, lastTask, nextSave)
    }

    constructor (began: nat)
      ensures State() == First(began)
    {
      restoredStart := 0;
      lastTask := None;
      nextSave := began + SAVE_EVERY;
    }

    /** One turn of the loop. */
    method Take(t: Tick) returns (action: Action)
      modifies this
      ensures Turn(State(), action) == Poll(old(State()), t)
    {
      hide Pick, Busy;
      var start := t.starts;
      if start != restoredStart {
        if !t.healthy || t.slots.None? {
          return Idle;
        }
        action := if Busy(t.slots.value) then LeaveBusy(start) else Restore(start);
        restoredStart := start;
        lastTask := None;
        nextSave := t.later + SAVE_EVERY;
        return;
      }
      if start == 0 || t.now < nextSave {
        return Idle;
      }
      nextSave := t.later + SAVE_EVERY;
      if t.slots.None? {
        return Idle;
      }
      var picked := PickSlot(t.slots.value);
      if picked.None? || picked.value.task == lastTask || picked.value.id.None? {
        return Idle;
      }
      if t.saved {
        lastTask := picked.value.task;
      }
      return Save(start, picked.value);
    }
  }

  /** The loop until it is cancelled after the last tick. */
  method Run(began: nat, ticks: seq<Tick>) returns (actions: seq<Action>)
    ensures actions == Actions(began, ticks)
  {
    hide Poll;
    var loop := new Loop(began);
    actions := [];
    for i := 0 to |ticks|
      invariant loop.State() == KeeperAfter(began, ticks[..i])
      invariant |actions| == i && forall j | 0 <= j < i :: actions[j] == ActionAt(began, ticks, j)
    {
      KeeperStep(began, ticks, i);
      var action := loop.Take(ticks[i]);
      actions := actions + [action];
    }
  }

  /** The start counter never goes back. */
  ghost predicate CounterGrows(ticks: seq<Tick>) {
    forall i, j | 0 <= i <= j < |ticks| :: ticks[i].starts <= ticks[j].starts
  }

  /** Turn `i` settles the start `s`: the loop restores, or leaves a busy engine alone. */
  ghost predicate Settles(began: nat, ticks: seq<Tick>, i: nat, s: nat)
    requires i < |ticks|
  {
    ActionAt(began, ticks, i) in {Restore(s), LeaveBusy(s)}
  }

  lemma {:induction false} RestoredStartBounds(began: nat, ticks: seq<Tick>, n: nat)
    requires CounterGrows(ticks) && n <= |ticks|
    ensures n > 0 ==> KeeperAfter(began, ticks[..n]).restoredStart <= ticks[n - 1].starts
    ensures n == 0 ==> KeeperAfter(began, ticks[..n]).restoredStart == 0
  {
    if n > 0 {
      hide Pick;
      KeeperStep(began, ticks, n - 1);
      RestoredStartBounds(began, ticks, n - 1);
    }
  }

  lemma {:induction false} RestoredStartGrows(began: nat, ticks: seq<Tick>, i: nat, n: nat)
    requires CounterGrows(ticks) && i <= n <= |ticks|
    ensures KeeperAfter(began, ticks[..i]).restoredStart <= KeeperAfter(began, ticks[..n]).restoredStart
    decreases n - i
  {
    if i < n {
      hide Pick;
      RestoredStartGrows(began, ticks, i, n - 1);
      KeeperStep(began, ticks, n - 1);
      RestoredStartBounds(began, ticks, n - 1);
    }
  }

  lemma {:induction false} SettledBefore(began: nat, ticks: seq<Tick>, n: nat)
    requires n <= |ticks| && KeeperAfter(began, ticks[..n]).restoredStart > 0
    ensures exists i | 0 <= i < n :: Settles(began, ticks, i, KeeperAfter(began, ticks[..n]).restoredStart)
  {
    if n > 0 {
      KeeperStep(began, ticks, n - 1);
      hide Settles, KeeperAfter, Poll;
      var k, next := KeeperAfter(began, ticks[..n - 1]), KeeperAfter(began, ticks[..n]);
      if next.restoredStart == k.restoredStart {
        SettledBefore(began, ticks, n - 1);
        var i :| 0 <= i < n - 1 && Settles(began, ticks, i, k.restoredStart);
        assert Settles(began, ticks, i, next.restoredStart);
      } else {
        NewStartSettles(began, ticks, n - 1);
        assert Settles(began, ticks, n - 1, next.restoredStart);
      }
    }
  }

  lemma NewStartSettles(began: nat, ticks: seq<Tick>, n: nat)
    requires n < |ticks|
    ensures var k, next := KeeperAfter(began, ticks[..n]), KeeperAfter(began, ticks[..n + 1]);
            next.restoredStart != k.restoredStart ==> Settles(began, ticks, n, next.restoredStart)
  {
    hide Pick, KeeperAfter;
    KeeperStep(began, ticks, n);
  }

  /** Every start is settled at most once: at most one restore per start, and a start that was
      first seen busy is never restored later. */
  lemma SettledOnce(began: nat, ticks: seq<Tick>, i: nat, j: nat, s: nat)
    requires CounterGrows(ticks) && i < j < |ticks|
    requires Settles(began, ticks, i, s)
    ensures !Settles(began, ticks, j, s)
  {
    hide Pick, KeeperAfter;
    KeeperStep(began, ticks, i);
    RestoredStartGrows(began, ticks, i + 1, j);
    RestoredStartBounds(began, ticks, j);
  }

  /** A restore follows an answer that was healthy and not busy, for a start that has happened. */
  lemma RestoreOnlyIfIdle(began: nat, ticks: seq<Tick>, i: nat, s: nat)
    requires CounterGrows(ticks) && i < |ticks| && ActionAt(began, ticks, i) == Restore(s)
    ensures 0 < s == ticks[i].starts && ticks[i].healthy
    ensures ticks[i].slots.Some? && !Busy(ticks[i].slots.value)
  {
    hide Pick;
    if i > 0 {
      RestoredStartBounds(began, ticks, i);
    }
  }

  /** A periodic save comes after its start was settled, and no restore of that start follows. */
  lemma {:induction false} SaveAfterRestore(began: nat, ticks: seq<Tick>, j: nat, s: nat, slot: Slot)
    requires CounterGrows(ticks) && j < |ticks| && ActionAt(began, ticks, j) == Save(s, slot)
    ensures exists i | 0 <= i < j :: Settles(began, ticks, i, s)
    ensures forall k | j <= k < |ticks| :: ActionAt(began, ticks, k) != Restore(s)
  {
    hide Pick;
    SettledBefore(began, ticks, j);
    var i :| 0 <= i < j && Settles(began, ticks, i, s);
    forall k | j <= k < |ticks|
      ensures ActionAt(began, ticks, k) != Restore(s)
    {
      SettledOnce(began, ticks, i, k, s);
    }
  }

  /** How many of the first `n` turns restore. */
  function Restores(began: nat, ticks: seq<Tick>, n: nat): nat
    requires n <= |ticks|
  {
    if n == 0 then 0
    else Restores(began, ticks, n - 1) + if ActionAt(began, ticks, n - 1).Restore? then 1 else 0
  }

  /** The number of restores never exceeds the settled start, and that never exceeds the counter. */
  lemma {:induction false} RestoreCount(began: nat, ticks: seq<Tick>, n: nat)
    requires CounterGrows(ticks) && n <= |ticks|
    ensures Restores(began, ticks, n) <= KeeperAfter(began, ticks[..n]).restoredStart
    ensures n > 0 ==> KeeperAfter(began, ticks[..n]).restoredStart <= ticks[n - 1].starts
  {
    if n > 0 {
      hide Pick, KeeperAfter;
      RestoreCount(began, ticks, n - 1);
      KeeperStep(began, ticks, n - 1);
      RestoredStartBounds(began, ticks, n);
      RestoredStartBounds(began, ticks, n - 1);
    }
  }

  // What the loop does, from its turns alone

  /** The slot runs a request: llama.cpp says so, or ik_llama.cpp has a state other than 0. */
  predicate Running(s: Slot) {
    s.isProcessing == Some(true) || (s.isProcessing.None? && s.state.Some? && s.state.value != 0)
  }

  /** The prompt has at least 1024 tokens, or 4096 characters where the engine does not count tokens. */
  predicate Large(s: Slot) {
    (s.promptTokens.Some? && s.promptTokens.value >= 1024)
    || (s.promptTokens.None? && s.promptChars.Some? && s.promptChars.value >= 4096)
  }

  /** The task of `a` is not later than that of `b`; a missing one counts as -1. */
  predicate NotLater(a: Slot, b: Slot) {
    match (a.task, b.task)
    case (Some(x), Some(y)) => x <= y
    case (Some(x), None) => x < 0
    case (None, Some(y)) => -1 <= y
    case (None, None) => true
  }

  /** Slot `i` is the first large one with the latest task. */
  ghost predicate Latest(slots: seq<Slot>, i: nat) {
    && i < |slots| && Large(slots[i])
    && (forall j | 0 <= j < |slots| && Large(slots[j]) :: NotLater(slots[j], slots[i]))
    && (forall j | 0 <= j < i && Large(slots[j]) :: !NotLater(slots[i], slots[j]))
  }

  lemma SlotFacts(s: Slot)
    ensures Processing(s) <==> Running(s)
    ensures PromptTokens(s) >= MIN_TOKENS <==> Large(s)
  {
  }

  lemma PickIsLatest(slots: seq<Slot>)
    ensures Busy(slots) <==> exists i | 0 <= i < |slots| :: Running(slots[i])
    ensures Pick(slots).Some? <==> !Busy(slots) && exists i: nat :: Latest(slots, i)
    ensures forall i: nat | Latest(slots, i) && !Busy(slots) :: Pick(slots) == Some(slots[i])
  {
    hide PromptTokens, Processing, Large, Running, Pick;
    forall i | 0 <= i < |slots|
      ensures Processing(slots[i]) <==> Running(slots[i])
      ensures PromptTokens(slots[i]) >= MIN_TOKENS <==> Large(slots[i])
    {
      SlotFacts(slots[i]);
    }
    forall i: nat
      ensures Latest(slots, i) <==> IsBest(slots, i)
    {
      assert forall a, b | a in slots && b in slots :: NotLater(a, b) <==> TaskOf(a) <= TaskOf(b);
    }
    forall i: nat, j: nat | IsBest(slots, i) && IsBest(slots, j)
      ensures i == j
    {
    }
    PickOrNone(slots);
  }

  lemma PickOrNone(slots: seq<Slot>)
    ensures Pick(slots).Some? ==> !Busy(slots) && exists i: nat :: IsBest(slots, i) && slots[i] == Pick(slots).value
    ensures Pick(slots).None? ==> Busy(slots) || forall i: nat :: !IsBest(slots, i)
  {
  }

  /** The start that turn `i` reads has been dealt with: nothing was started yet, or an earlier turn with this
      counter found the engine healthy and its slots listed. */
  ghost predicate Settled(ticks: seq<Tick>, i: nat)
    requires i < |ticks|
  {
    || ticks[i].starts == 0
    || exists j | 0 <= j < i :: ticks[j].starts == ticks[i].starts && ticks[j].healthy && ticks[j].slots.Some?
  }

  /** Turn `i` deals with a new start. */
  ghost predicate Begins(ticks: seq<Tick>, i: nat)
    requires i < |ticks|
  {
    !Settled(ticks, i) && ticks[i].healthy && ticks[i].slots.Some?
  }

  /** When the next save is due before turn `n`: 300 seconds after the last turn that dealt with a start or
      tried to save. */
  ghost function Deadline(began: nat, ticks: seq<Tick>, n: nat): nat
    requires n <= |ticks|
    decreases n, 0
  {
    if n == 0 then began + 300
    else if Begins(ticks, n - 1) || Tries(began, ticks, n - 1) then ticks[n - 1].later + 300
    else Deadline(began, ticks, n - 1)
  }

  /** Turn `i` tries to save. */
  ghost predicate Tries(began: nat, ticks: seq<Tick>, i: nat)
    requires i < |ticks|
    decreases i, 1
  {
    Settled(ticks, i) && ticks[i].starts > 0 && ticks[i].now >= Deadline(began, ticks, i)
  }

  /** The task of the last successful save before turn `n` for the start `start`. */
  ghost function LastTask(began: nat, ticks: seq<Tick>, n: nat, start: nat): Option<int>
    requires n <= |ticks|
  {
    if n == 0 then None
    else
      var a := ActionAt(began, ticks, n - 1);
      if a.Save? && a.start == start && ticks[n - 1].saved then a.slot.task
      else LastTask(began, ticks, n - 1, start)
  }

  /** What the variables of the loop mean before turn `n`. */
  ghost predicate Means(began: nat, ticks: seq<Tick>, n: nat)
    requires n <= |ticks|
  {
    var k := KeeperAfter(began, ticks[..n]);
    && k.nextSave == Deadline(began, ticks, n)
    && k.lastTask == LastTask(began, ticks, n, k.restoredStart)
    && (forall i | n <= i < |ticks| :: k.restoredStart <= ticks[i].starts)
    && (forall i: nat | i < n && ticks[i].healthy && ticks[i].slots.Some? :: ticks[i].starts <= k.restoredStart)
    && (k.restoredStart > 0 ==>
          exists i: nat | i < n :: ticks[i].starts == k.restoredStart && ticks[i].healthy && ticks[i].slots.Some?)
  }

  /** Whether the start is settled is what the loop compares. */
  lemma SettledIs(began: nat, ticks: seq<Tick>, i: nat)
    requires i < |ticks| && CounterGrows(ticks) && Means(began, ticks, i)
    ensures Settled(ticks, i) <==> ticks[i].starts == KeeperAfter(began, ticks[..i]).restoredStart
  {
    hide KeeperAfter, Deadline, LastTask;
  }

  /** For a start that no turn has dealt with, nothing was saved. */
  lemma {:induction false} NoTaskYet(began: nat, ticks: seq<Tick>, n: nat, start: nat)
    requires CounterGrows(ticks) && n <= |ticks|
    requires KeeperAfter(began, ticks[..n]).restoredStart < start
    ensures LastTask(began, ticks, n, start) == None
  {
    if n > 0 {
      hide Pick, KeeperAfter;
      KeeperStep(began, ticks, n - 1);
      RestoredStartGrows(began, ticks, n - 1, n);
      NoTaskYet(began, ticks, n - 1, start);
    }
  }

  lemma {:induction false} MeansStep(began: nat, ticks: seq<Tick>, n: nat)
    requires n < |ticks| && CounterGrows(ticks) && Means(began, ticks, n)
    ensures Means(began, ticks, n + 1)
  {
    hide Pick, KeeperAfter, Settled;
    KeeperStep(began, ticks, n);
    SettledIs(began, ticks, n);
    var k, t := KeeperAfter(began, ticks[..n]), ticks[n];
    var next := KeeperAfter(began, ticks[..n + 1]);
    if t.starts != k.restoredStart && t.healthy && t.slots.Some? {
      NoTaskYet(began, ticks, n, t.starts);
      assert next.restoredStart == ticks[n].starts;
    } else {
      assert next.restoredStart == k.restoredStart;
    }
    assert next.nextSave == Deadline(began, ticks, n + 1);
    assert next.lastTask == LastTask(began, ticks, n + 1, next.restoredStart);
  }

  lemma {:induction false} LoopMeans(began: nat, ticks: seq<Tick>, n: nat)
    requires n <= |ticks| && CounterGrows(ticks)
    ensures Means(began, ticks, n)
  {
    if n == 0 {
      assert ticks[..0] == [];
    } else {
      LoopMeans(began, ticks, n - 1);
      MeansStep(began, ticks, n - 1);
    }
  }

  /** Exactly when a turn restores, and when it leaves a busy engine alone: in the first turn with a new
      counter that finds the engine healthy and its slots listed. */
  lemma RestoreCondition(began: nat, ticks: seq<Tick>, i: nat)
    requires i < |ticks| && CounterGrows(ticks)
    ensures var running := ticks[i].slots.Some? && exists j | 0 <= j < |ticks[i].slots.value| ::
                                                     Running(ticks[i].slots.value[j]);
            && (ActionAt(began, ticks, i) == Restore(ticks[i].starts) <==> Begins(ticks, i) && !running)
            && (ActionAt(began, ticks, i) == LeaveBusy(ticks[i].starts) <==> Begins(ticks, i) && running)
  {
    hide Pick, KeeperAfter, Settled, Means, Running;
    LoopMeans(began, ticks, i);
    SettledIs(began, ticks, i);
    if ticks[i].slots.Some? {
      PickIsLatest(ticks[i].slots.value);
    }
  }

  /** Exactly when a turn saves a slot: its start is settled, the last settling or attempt is 300 seconds ago,
      no slot runs a request, and the latest large slot has an id and another task than the last saved one. */
  lemma SaveCondition(began: nat, ticks: seq<Tick>, i: nat, slot: Slot)
    requires i < |ticks| && CounterGrows(ticks)
    ensures ActionAt(began, ticks, i) == Save(ticks[i].starts, slot) <==>
              && Tries(began, ticks, i) && ticks[i].slots.Some?
              && var slots := ticks[i].slots.value;
              && (forall j | 0 <= j < |slots| :: !Running(slots[j]))
              && (exists b: nat :: Latest(slots, b) && slots[b] == slot)
              && slot.id.Some? && slot.task != LastTask(began, ticks, i, ticks[i].starts)
  {
    hide KeeperAfter, Settled, Running, Latest, LastTask, Deadline, Pick;
    LoopMeans(began, ticks, i);
    SettledIs(began, ticks, i);
    if ticks[i].slots.Some? {
      PickIsLatest(ticks[i].slots.value);
    }
  }

  /** The answer to a restore request. */
  datatype Answer = Restored | ConnectionLost | Refused

  /** Asks for a restore if the file exists. A refusal (or a timeout) makes the file useless; a lost
      connection says nothing about it. */
  method RestoreFile<T>(dir: D.Directory<T>, file: string, answer: Answer)
    requires dir.Valid()
    modifies dir
    ensures dir.Valid()
    ensures file in old(dir.files) && answer == Refused ==>
              Removing(file, old(dir.files), dir.files) && forall n | n in dir.files :: !InGroup(file, n)
    ensures file !in old(dir.files) || answer != Refused ==>
              dir.files == old(dir.files) && dir.states == old(dir.states)
  {
    if file !in dir.files {
      return;
    }
    if answer == Refused {
      RemoveWithSidecars(dir, file);
    }
  }
}
