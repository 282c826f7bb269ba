/** The restart loop itself, step by step, and its agreement with the model of `Supervision`. */
module SupervisorLoop {
  import opened Common
  import opened Engine
  import opened Specs
  import opened Watchdog
  import opened Supervision

  /** One turn of the loop as the environment plays it: the model file that the plan finds, whether
      the program starts, the answers to the probes, whether the child exits by itself (also in a race
      with the watchdog), and how long it ran. */
  datatype Life = Life(model: Model, starts: bool, probes: seq<Probe>, exits: bool, ran: nat)

  function Answers(probes: seq<Probe>): (es: seq<Event>)
    ensures |es| == |probes| && forall i | 0 <= i < |probes| :: es[i] == Answer(probes[i])
  {
    seq(|probes|, i requires 0 <= i < |probes| => Answer(probes[i]))
  }

  /** A child that its watchdog leaves alone ends only by itself. */
  function EventsOf(l: Life, watch: Watch): seq<Event> {
    if !l.starts then [Plan(l.model), Spawn(false, l.ran)]
    else [Plan(l.model), Spawn(true, l.ran)] + Answers(l.probes)
         + [End(l.exits || watch.verdict == Watching, l.ran)]
  }

  lemma {:induction false} ContinueAppend(env: Env, s: Supervisor, a: seq<Event>, b: seq<Event>)
    ensures Continue(env, s, a + b) == Continue(env, Continue(env, s, a), b)
    decreases |b|
  {
    hide Step;
    if b == [] {
      assert a + b == a;
    } else {
      assert (a + b)[..|a + b| - 1] == a + b[..|b| - 1];
      ContinueAppend(env, s, a, b[..|b| - 1]);
    }
  }

  lemma ContinueOne(env: Env, s: Supervisor, e: Event)
    ensures Continue(env, s, [e]) == Step(env, s, e)
  {
    hide Step;
    assert [e][..0] == [];
  }

  lemma {:induction false} WatchesAnswers(env: Env, s: Supervisor, probes: seq<Probe>)
    requires s.phase.Alive? && s.phase.watch == FRESH
    ensures Continue(env, s, Answers(probes)) ==
            s.(phase := Alive(s.phase.spec, Watched(env.health, s.phase.spec.restartWhenHealthy, probes)))
    decreases |probes|
  {
    hide WatchStep;
    if probes != [] {
      var n := |probes| - 1;
      WatchesAnswers(env, s, probes[..n]);
      assert Answers(probes)[..n] == Answers(probes[..n]);
      WatchedStep(env.health, s.phase.spec.restartWhenHealthy, probes, n);
      assert probes[..n + 1] == probes;
    }
  }

  function OutcomeOf(l: Life, w: Watch): RunOutcome {
    if !l.starts then RunOutcome(SpawnFailed, false, l.ran)
    else RunOutcome(EndedBy(w, l.exits), w.seenHealthy, l.ran)
  }

  /** What one life does to the model. */
  lemma LifeIs(env: Env, s: Supervisor, l: Life, spec: ChildSpec, w: Watch)
    requires s.phase.Stopped? && spec == PlanOf(env.host, s.specs, s.phase.outcome, l.model).spec
    requires w == Watched(env.health, spec.restartWhenHealthy, l.probes)
    ensures var next := Continue(env, s, EventsOf(l, w));
            && next.specs == PlanOf(env.host, s.specs, s.phase.outcome, l.model).state
            && next.phase == Stopped(Some(OutcomeOf(l, w)))
            && next.starts == s.starts + if l.starts then 1 else 0
  {
    hide PlanOf, Watched;
    var plan, spawn := [Plan(l.model)], [Spawn(l.starts, l.ran)];
    assert [Plan(l.model), Spawn(l.starts, l.ran)] == plan + spawn;
    ContinueOne(env, s, Plan(l.model));
    ContinueAppend(env, s, plan, spawn);
    ContinueOne(env, Continue(env, s, plan), Spawn(l.starts, l.ran));
    if l.starts {
      var end := End(l.exits || w.verdict == Watching, l.ran);
      WatchesAnswers(env, Continue(env, s, plan + spawn), l.probes);
      ContinueAppend(env, s, plan + spawn, Answers(l.probes));
      ContinueAppend(env, s, plan + spawn + Answers(l.probes), [end]);
      ContinueOne(env, Continue(env, s, plan + spawn + Answers(l.probes)), end);
    }
  }

  class Loop {
    const env: Env
    const specs: LlmSpecs
    var starts: nat
    var last: Option<RunOutcome>
    /** The events so far and the state of the model after them. */
    ghost var events: seq<Event>

    ghost function Model(): Supervisor
      reads this
    {
      After(env, events)
    }

    ghost predicate Valid()
      reads this, specs, specs.chooser, specs.active
    {
      && specs.host == env.host
      && Model().specs == specs.State()
      && Model().phase == Stopped(last)
      && Model().starts == starts
    }

    constructor (env: Env)
      ensures Valid() && this.env == env && events == []
      ensures fresh(specs) && fresh(specs.chooser) && fresh(specs.active)
    {
      this.env := env;
      specs := new LlmSpecs(env.host);
      starts := 0;
      last := None;
      events := [];
    }

    /** One turn of the loop. */
    method RunChild(l: Life) returns (ghost watch: Watch)
      requires Valid()
      modifies this, specs, specs.chooser, specs.active
      ensures Valid() && events == old(events) + EventsOf(l, watch)
    {
      hide PlanOf, Watched, EventsOf, Continue;
      var d, spec := specs.Plan(last, l.model);
      watch := Watched(env.health, spec.restartWhenHealthy, l.probes);
      LifeIs(env, Model(), l, spec, watch);
      ContinueAppend(env, INITIAL, events, EventsOf(l, watch));
      if l.starts {
        starts := starts + 1;
        var w := WatchChild(env.health, spec.restartWhenHealthy, l.probes);
        var ended := if l.exits || w.verdict == Watching then Exited
                     else if w.verdict == Replace then Replaced
                     else Hung;
        last := Some(RunOutcome(ended, w.seenHealthy, l.ran));
      } else {
        last := Some(RunOutcome(SpawnFailed, false, l.ran));
      }
      events := events + EventsOf(l, watch);
    }

    /** The loop until it is cancelled after the last life. Every state in between is a state of
        the model, so all its guarantees hold. */
    method Supervise(lives: seq<Life>)
      requires Valid()
      modifies this, specs, specs.chooser, specs.active
      ensures Valid() && old(events) <= events
      ensures ReplacedRuns(Model().runs) <= 1
      ensures FailedRuns(Model().runs) <= GoodRuns(Model().runs) + 2
    {
      hide EventsOf;
      for i := 0 to |lives|
        invariant Valid() && old(events) <= events
      {
        var _ := RunChild(lives[i]);
      }
      ReplacedAtMostOnce(env, events);
      FailureHistory(env, events);
    }
  }
}
