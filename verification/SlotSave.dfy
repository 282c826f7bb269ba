/**
 Saves of the prompt cache over time (src/llm/slots.rs, `save`): the engine writes a slot file and its
 sidecars under a temporary name, then the hub moves them into place. A refused restore removes them
 all. A crash can hit any of this and leave files behind for the next save.
 */
module SlotSave {
  import opened Common
  import opened SlotFiles
  import opened SlotMove

  /** One save: what the engine wrote, the listings of the move, and how many of its steps were done
      (0: it never began). Or one removal: the listed sidecars, and how many files were removed, the main
      file first. */
  datatype Attempt<T> =
    | Save(written: map<string, T>, stale: seq<string>, names: seq<string>, steps: nat)
    | Removal(names: seq<string>, steps: nat)

  function AfterAttempt<T>(to: string, d: map<string, T>, a: Attempt<T>): map<string, T> {
    match a
    case Removal(names, steps) =>
      if steps == 0 || steps > 1 + |names| then d else RemoveAll(d - {to}, names[..steps - 1])
    case Save(written, stale, names, steps) =>
      var d0 := d + written;
      if steps == 0 || !AllOf(to + TMP, names) || steps > Steps(to, d0, a) then d0
      else if steps <= |stale| then RemoveAll(d0, stale[..steps])
      else RenameAll(MainMoved(d0, to + TMP, to), to + TMP, to, names[..steps - |stale| - 1])
  }

  predicate AllOf(from: string, names: seq<string>)
    ensures AllOf(from, names) <==> AllSidecars(from, names)
  {
    forall i | 0 <= i < |names| :: IsSidecar(from, names[i])
  }

  /** The number of steps of the complete move. */
  function Steps<T>(to: string, d0: map<string, T>, a: Attempt<T>): nat
    requires a.Save?
  {
    |a.stale| + if to + TMP in d0 then 1 + |a.names| else 0
  }

  /** The states of an attempt are the states of the move. */
  lemma AttemptIsMove<T>(to: string, d: map<string, T>, a: Attempt<T>)
    requires a.Save? && AllSidecars(to + TMP, a.names) && 0 < a.steps <= Steps(to, d + a.written, a)
    ensures var states := MoveStates(d + a.written, to + TMP, to, a.stale, a.names);
            |states| == Steps(to, d + a.written, a) && AfterAttempt(to, d, a) == states[a.steps - 1]
  {
    var d0 := d + a.written;
    if a.steps == |a.stale| + 1 {
      assert a.names[..0] == [];
    }
  }

  function AfterAll<T>(to: string, d: map<string, T>, attempts: seq<Attempt<T>>): map<string, T> {
    if attempts == [] then d
    else AfterAttempt(to, AfterAll(to, d, attempts[..|attempts| - 1]), attempts[|attempts| - 1])
  }

  /** The sidecar suffixes of an engine; none of them begins with `.tmp`. */
  ghost predicate PlainSuffixes(suffixes: set<string>) {
    forall x | x in suffixes :: "." <= x && !(TMP <= x)
  }

  ghost predicate OwnName(suffixes: set<string>, file: string, name: string) {
    name == file || (IsSidecar(file, name) && name[|file|..] in suffixes)
  }

  /** The temporary sidecars in the folder have the suffixes of the engine. */
  ghost predicate Tidy<T>(suffixes: set<string>, to: string, d: map<string, T>) {
    forall n | n in d && IsSidecar(to + TMP, n) :: OwnName(suffixes, to + TMP, n)
  }

  ghost predicate Complete<T>(suffixes: set<string>, to: string, written: map<string, T>) {
    to + TMP in written && forall x | x in suffixes :: to + TMP + x in written
  }

  /** The engine writes only its own names, and the move begins only after it wrote all of them. */
  ghost predicate LegalSave<T>(suffixes: set<string>, to: string, d: map<string, T>, a: Attempt<T>)
    requires a.Save?
  {
    var d0 := d + a.written;
    && (forall n | n in a.written :: OwnName(suffixes, to + TMP, n))
    && (a.steps > 0 ==>
          && Complete(suffixes, to, a.written)
          && AllSidecars(to + TMP, a.names) && a.steps <= Steps(to, d0, a)
          && Lists(a.stale, StaleSet(d0, to + TMP, to))
          && Lists(a.names, SidecarSet(MainMoved(d0, to + TMP, to), to + TMP)))
  }

  /** A removal lists the sidecars that are there. */
  ghost predicate Legal<T>(suffixes: set<string>, to: string, d: map<string, T>, a: Attempt<T>) {
    if a.Save? then LegalSave(suffixes, to, d, a)
    else Lists(a.names, SidecarSet(d - {to}, to)) && a.steps <= 1 + |a.names|
  }

  ghost predicate LegalRun<T>(suffixes: set<string>, to: string, d: map<string, T>, attempts: seq<Attempt<T>>) {
    forall i | 0 <= i < |attempts| :: Legal(suffixes, to, AfterAll(to, d, attempts[..i]), attempts[i])
  }

  /** The main file and each sidecar beside it come from one and the same generation. */
  ghost predicate OneGeneration<T>(to: string, d: map<string, T>, g: map<string, T>) {
    to in d ==>
      && to + TMP in g && d[to] == g[to + TMP]
      && forall n | n in d && IsStale(to + TMP, to, n) :: FromNew(to + TMP, to, g, d, n)
  }

  /** The group is exactly what the engine wrote. */
  ghost predicate Exactly<T>(to: string, d: map<string, T>, g: map<string, T>) {
    && to + TMP in g && to in d && d[to] == g[to + TMP]
    && (forall n | n in d && InGroup(to, n) && n != to :: FromNew(to + TMP, to, g, d, n))
    && (forall s | s in g && IsSidecar(to + TMP, s) :: Target(to + TMP, to, s) in d && d[Target(to + TMP, to, s)] == g[s])
  }

  lemma TidyIsChainFree<T>(suffixes: set<string>, to: string, d: map<string, T>)
    requires PlainSuffixes(suffixes) && Tidy(suffixes, to, d)
    ensures ChainFree(to + TMP, to, SidecarSet(d, to + TMP))
  {
    forall n | n in SidecarSet(d, to + TMP)
      ensures !(to + TMP + TMP <= n)
    {
      assert OwnName(suffixes, to + TMP, n);
      var suffix := n[|to + TMP|..];
      assert n == to + TMP + suffix;
      SamePrefix(to + TMP, TMP, suffix);
    }
    PlainSidecarsMakeNoChain(to, SidecarSet(d, to + TMP));
  }

  lemma TidyAfterWrite<T>(suffixes: set<string>, to: string, d: map<string, T>, written: map<string, T>)
    requires Tidy(suffixes, to, d) && forall n | n in written :: OwnName(suffixes, to + TMP, n)
    ensures Tidy(suffixes, to, d + written)
  {
  }

  lemma TargetOutside(suffixes: set<string>, to: string, n: string)
    requires PlainSuffixes(suffixes) && IsSidecar(to + TMP, n) && OwnName(suffixes, to + TMP, n)
    ensures !IsSidecar(to + TMP, Target(to + TMP, to, n))
  {
    var suffix := n[|to + TMP|..];
    assert to + TMP + "." == to + (TMP + ".");
    SamePrefix(to, TMP + ".", suffix);
    assert TMP + "." <= suffix ==> TMP <= suffix;
  }

  lemma {:induction false} RenamesAreTidy<T>(
      suffixes: set<string>, to: string, d: map<string, T>, names: seq<string>)
    requires PlainSuffixes(suffixes) && Tidy(suffixes, to, d) && AllSidecars(to + TMP, names)
    requires forall n | n in names :: OwnName(suffixes, to + TMP, n)
    ensures Tidy(suffixes, to, RenameAll(d, to + TMP, to, names))
    decreases |names|
  {
    if names != [] {
      hide OwnName;
      var last := names[|names| - 1];
      RenamesAreTidy(suffixes, to, d, names[..|names| - 1]);
      TargetOutside(suffixes, to, last);
    }
  }

  /** Whatever is left behind has the suffixes of the engine. */
  lemma AttemptKeepsTidy<T>(suffixes: set<string>, to: string, d: map<string, T>, a: Attempt<T>)
    requires PlainSuffixes(suffixes) && Tidy(suffixes, to, d) && Legal(suffixes, to, d, a)
    ensures Tidy(suffixes, to, AfterAttempt(to, d, a))
  {
    hide OwnName;
    if a.Save? {
      TidyAfterWrite(suffixes, to, d, a.written);
      var d0 := d + a.written;
      if a.steps > |a.stale| {
        var moved := MainMoved(d0, to + TMP, to);
        TmpNames(to);
        var names := a.names[..a.steps - |a.stale| - 1];
        forall n | n in names
          ensures OwnName(suffixes, to + TMP, n)
        {
          assert n in Elements(a.names);
        }
        RenamesAreTidy(suffixes, to, moved, names);
      }
    }
  }

  lemma WrittenIsAll<T>(suffixes: set<string>, to: string, d: map<string, T>, written: map<string, T>, s: string)
    requires Tidy(suffixes, to, d + written) && Complete(suffixes, to, written)
    requires s in d + written && IsSidecar(to + TMP, s)
    ensures s in written && (d + written)[s] == written[s]
  {
    assert OwnName(suffixes, to + TMP, s);
    assert s == to + TMP + s[|to + TMP|..];
  }

  /** One save keeps the old generation or brings the new one, wherever it stops; a complete one leaves
      exactly what the engine wrote, whatever earlier saves left behind. */
  lemma SaveGeneration<T>(suffixes: set<string>, to: string, d: map<string, T>, a: Attempt<T>, g: map<string, T>)
    requires a.Save? && PlainSuffixes(suffixes) && Tidy(suffixes, to, d) && LegalSave(suffixes, to, d, a)
    requires OneGeneration(to, d, g)
    ensures OneGeneration(to, AfterAttempt(to, d, a), g) || OneGeneration(to, AfterAttempt(to, d, a), a.written)
    ensures a.steps > 0 && a.steps == Steps(to, d + a.written, a) ==> Exactly(to, AfterAttempt(to, d, a), a.written)
  {
    var d0, after := d + a.written, AfterAttempt(to, d, a);
    TmpNames(to);
    if a.steps == 0 {
      WriteKeepsGeneration(suffixes, to, d, a.written, g);
    } else {
      hide Safe, Replaced, AfterAttempt, OneGeneration, Exactly;
      TidyAfterWrite(suffixes, to, d, a.written);
      TidyIsChainFree(suffixes, to, d0);
      MoveIsCrashSafe(d0, to, a.stale, a.names);
      AttemptIsMove(to, d, a);
      SafeGeneration(suffixes, to, d, a.written, after, g);
      if a.steps == Steps(to, d0, a) {
        ReplacedIsExact(suffixes, to, d, a.written, after);
      }
    }
  }

  /** A removal that stops anywhere leaves the old generation or no main file; a complete one leaves
      nothing of the group, also nothing under the temporary name. */
  lemma RemovalGeneration<T>(suffixes: set<string>, to: string, d: map<string, T>, a: Attempt<T>, g: map<string, T>)
    requires a.Removal? && Legal(suffixes, to, d, a) && OneGeneration(to, d, g)
    ensures OneGeneration(to, AfterAttempt(to, d, a), g)
    ensures a.steps > 0 ==> to !in AfterAttempt(to, d, a)
    ensures a.steps == 1 + |a.names| ==> forall n | n in AfterAttempt(to, d, a) :: !InGroup(to, n)
  {
    if a.steps == 1 + |a.names| {
      assert a.names[..|a.names|] == a.names;
    }
  }

  lemma WriteKeepsGeneration<T>(suffixes: set<string>, to: string, d: map<string, T>, written: map<string, T>, g: map<string, T>)
    requires forall n | n in written :: OwnName(suffixes, to + TMP, n)
    requires OneGeneration(to, d, g)
    ensures OneGeneration(to, d + written, g)
  {
    TmpNames(to);
    assert to !in written;
    var after := d + written;
    forall n | to in d && n in after && IsStale(to + TMP, to, n)
      ensures FromNew(to + TMP, to, g, after, n)
    {
      assert n !in written;
      assert FromNew(to + TMP, to, g, d, n);
    }
  }

  lemma SafeGeneration<T>(
      suffixes: set<string>, to: string, d: map<string, T>, written: map<string, T>, after: map<string, T>, g: map<string, T>)
    requires Tidy(suffixes, to, d + written) && Complete(suffixes, to, written)
    requires forall n | n in written :: OwnName(suffixes, to + TMP, n)
    requires OneGeneration(to, d, g) && Safe(to, d + written, after)
    ensures OneGeneration(to, after, g) || OneGeneration(to, after, written)
  {
    var d0 := d + written;
    WriteKeepsGeneration(suffixes, to, d, written, g);
    if OldGeneration(to + TMP, to, d0, after) {
      forall n | to in after && n in after && IsStale(to + TMP, to, n)
        ensures FromNew(to + TMP, to, g, after, n)
      {
        assert FromNew(to + TMP, to, g, d0, n);
      }
    } else {
      forall n | n in after && IsStale(to + TMP, to, n)
        ensures FromNew(to + TMP, to, written, after, n)
      {
        var s :| s in d0 && IsSidecar(to + TMP, s) && n == Target(to + TMP, to, s) && after[n] == d0[s];
        WrittenIsAll(suffixes, to, d, written, s);
      }
    }
  }

  lemma ReplacedIsExact<T>(suffixes: set<string>, to: string, d: map<string, T>, written: map<string, T>, after: map<string, T>)
    requires Tidy(suffixes, to, d + written) && Complete(suffixes, to, written)
    requires Replaced(to + TMP, to, d + written, after)
    ensures Exactly(to, after, written)
  {
    var d0 := d + written;
    forall n | n in after && InGroup(to, n) && n != to
      ensures FromNew(to + TMP, to, written, after, n)
    {
      var s :| s in d0 && IsSidecar(to + TMP, s) && n == Target(to + TMP, to, s) && after[n] == d0[s];
      WrittenIsAll(suffixes, to, d, written, s);
    }
  }

  /** The files from the beginning, or those that one of the saves wrote. */
  ghost predicate IsGeneration<T>(first: map<string, T>, attempts: seq<Attempt<T>>, g: map<string, T>) {
    g == first || exists a | a in attempts :: a.Save? && a.written == g
  }

  lemma GenerationStays<T>(first: map<string, T>, attempts: seq<Attempt<T>>, g: map<string, T>)
    requires attempts != []
    ensures IsGeneration(first, attempts[..|attempts| - 1], g) ==> IsGeneration(first, attempts, g)
    ensures attempts[|attempts| - 1].Save? ==> IsGeneration(first, attempts, attempts[|attempts| - 1].written)
  {
  }

  /** Over every run of saves and removals, each cut at any point, the saved group never mixes two
      generations. */
  lemma {:induction false} SavesNeverMix<T>(
      suffixes: set<string>, to: string, d: map<string, T>, attempts: seq<Attempt<T>>, first: map<string, T>)
      returns (g: map<string, T>)
    requires PlainSuffixes(suffixes) && Tidy(suffixes, to, d) && OneGeneration(to, d, first)
    requires LegalRun(suffixes, to, d, attempts)
    ensures Tidy(suffixes, to, AfterAll(to, d, attempts))
    ensures IsGeneration(first, attempts, g) && OneGeneration(to, AfterAll(to, d, attempts), g)
    decreases |attempts|
  {
    g := first;
    if attempts == [] {
      NoAttempts(to, d);
    } else {
      hide LegalSave, LegalRun, Tidy, OneGeneration, AfterAttempt, AfterAll, PlainSuffixes, Exactly, IsGeneration;
      var init, last := attempts[..|attempts| - 1], attempts[|attempts| - 1];
      RunPrefix(suffixes, to, d, attempts);
      AfterLast(to, d, attempts);
      g := SavesNeverMix(suffixes, to, d, init, first);
      AttemptKeepsTidy(suffixes, to, AfterAll(to, d, init), last);
      GenerationStays(first, attempts, g);
      if last.Save? {
        SaveGeneration(suffixes, to, AfterAll(to, d, init), last, g);
        if !OneGeneration(to, AfterAll(to, d, attempts), g) {
          g := last.written;
        }
      } else {
        RemovalGeneration(suffixes, to, AfterAll(to, d, init), last, g);
      }
    }
  }

  lemma NoAttempts<T>(to: string, d: map<string, T>)
    ensures AfterAll(to, d, []) == d
  {
  }

  lemma AfterLast<T>(to: string, d: map<string, T>, attempts: seq<Attempt<T>>)
    requires attempts != []
    ensures AfterAll(to, d, attempts)
         == AfterAttempt(to, AfterAll(to, d, attempts[..|attempts| - 1]), attempts[|attempts| - 1])
  {
  }

  lemma {:induction false} RunPrefix<T>(suffixes: set<string>, to: string, d: map<string, T>, attempts: seq<Attempt<T>>)
    requires LegalRun(suffixes, to, d, attempts) && attempts != []
    ensures LegalRun(suffixes, to, d, attempts[..|attempts| - 1])
    ensures Legal(suffixes, to, AfterAll(to, d, attempts[..|attempts| - 1]), attempts[|attempts| - 1])
  {
    hide Legal, AfterAll;
    var n := |attempts| - 1;
    forall i | 0 <= i < n
      ensures Legal(suffixes, to, AfterAll(to, d, attempts[..n][..i]), attempts[..n][i])
    {
      assert attempts[..n][..i] == attempts[..i];
    }
  }

  /** If an engine leaves out a sidecar that an interrupted save left behind, the move takes the old one
      along: a complete move is exact if and only if every leftover was written again. */
  lemma LeftoversJoinTheNextSave<T>(to: string, d: map<string, T>, written: map<string, T>, after: map<string, T>)
    requires to + TMP in written && forall n | n in written :: InGroup(to + TMP, n)
    requires Replaced(to + TMP, to, d + written, after)
    ensures Exactly(to, after, written) <==> forall n | n in d && IsSidecar(to + TMP, n) :: n in written
  {
    var d0 := d + written;
    if forall n | n in d && IsSidecar(to + TMP, n) :: n in written {
      forall n | n in after && InGroup(to, n) && n != to
        ensures FromNew(to + TMP, to, written, after, n)
      {
        var s :| s in d0 && IsSidecar(to + TMP, s) && n == Target(to + TMP, to, s) && after[n] == d0[s];
      }
    }
    if Exactly(to, after, written) {
      forall n | n in d && IsSidecar(to + TMP, n)
        ensures n in written
      {
        var t := Target(to + TMP, to, n);
        TargetIsSidecar(to + TMP, to, n);
        assert FromNew(to + TMP, to, written, after, t);
        var s :| s in written && IsSidecar(to + TMP, s) && t == Target(to + TMP, to, s);
        TargetInjective(to + TMP, to, n, s);
      }
    }
  }

  // A leftover sidecar

  /** The first save is interrupted when the engine has written both files; the second one writes no
      sidecar. */
  const CUT := Save(map["s.tmp" := 1, "s.tmp.c" := 2], [], [], 0)
  const NEXT := Save(map["s.tmp" := 3], [], ["s.tmp.c"], 2)

  const BEFORE_MOVE: map<string, int> := map["s.tmp" := 3, "s.tmp.c" := 2]
  const GROUP: map<string, int> := map["s" := 3, "s.c" := 2]

  lemma LeftoverNames()
    ensures "s" + TMP == "s.tmp" && IsSidecar("s.tmp", "s.tmp.c") && Target("s.tmp", "s", "s.tmp.c") == "s.c"
    ensures InGroup("s", "s.c") && !IsSidecar("s.tmp", "s.tmp")
    ensures StaleSet(BEFORE_MOVE, "s.tmp", "s") == {}
  {
    var name := "s.tmp.c";
    assert name[..6] == "s.tmp." && name[5..] == ".c";
    assert "s.c"[..2] == "s.";
    assert |"s.tmp"| < |"s.tmp."|;
    assert InGroup("s.tmp", "s.tmp") && InGroup("s.tmp", name);
  }

  lemma LeftoverMoves()
    ensures AfterAttempt("s", CUT.written, NEXT) == GROUP
    ensures NEXT.steps == Steps("s", CUT.written + NEXT.written, NEXT)
    ensures AfterAttempt("s", map[], CUT) == CUT.written
  {
    LeftoverNames();
    assert map[] + CUT.written == CUT.written;
    assert CUT.written + NEXT.written == BEFORE_MOVE;
    var moved := MainMoved(BEFORE_MOVE, "s.tmp", "s");
    assert moved == map["s" := 3, "s.tmp.c" := 2];
    assert NEXT.names[..1] == NEXT.names && NEXT.names[..0] == [];
    assert RenameAll(moved, "s.tmp", "s", NEXT.names) == GROUP;
  }

  /** After the second save, which is complete, the sidecar of the first one lies beside its main file. */
  lemma LeftoverJoins()
    ensures AfterAll("s", map[], [CUT, NEXT]) == GROUP && !Exactly("s", GROUP, NEXT.written)
  {
    LeftoverNames();
    LeftoverMoves();
    hide AfterAttempt, AfterAll;
    assert [CUT, NEXT][..1] == [CUT] && [CUT][..0] == [];
    NoAttempts<int>("s", map[]);
    AfterLast("s", map[], [CUT]);
    AfterLast("s", map[], [CUT, NEXT]);
    assert "s.c" in GROUP && forall x | x in NEXT.written :: x == "s.tmp";
  }
}
