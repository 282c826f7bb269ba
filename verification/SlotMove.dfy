/** Crash safety of replacing a slot file, and why the files of the two engines never meet. */
module SlotMove {
  import opened Common
  import D = Directory
  import opened SlotFiles

  /** No file outside the group of `to` differs. */
  ghost predicate SameOutside<T>(to: string, d0: map<string, T>, d: map<string, T>) {
    forall n | !InGroup(to, n) :: (n in d <==> n in d0) && (n in d ==> d[n] == d0[n])
  }

  /** The old generation: its main file is complete (or absent, as before), every sidecar beside it
      is its own, and the new generation still waits under `from`. */
  ghost predicate OldGeneration<T>(from: string, to: string, d0: map<string, T>, d: map<string, T>) {
    && (to in d <==> to in d0) && (to in d ==> d[to] == d0[to])
    && (forall n | n in d && IsStale(from, to, n) :: n in d0 && d[n] == d0[n])
    && (forall n | InGroup(from, n) :: (n in d <==> n in d0) && (n in d ==> d[n] == d0[n]))
  }

  /** `name` is a sidecar of `to` that holds what the new generation keeps in the same sidecar. */
  ghost predicate FromNew<T>(from: string, to: string, d0: map<string, T>, d: map<string, T>, name: string)
    requires name in d
  {
    exists s | s in d0 && IsSidecar(from, s) :: name == Target(from, to, s) && d[name] == d0[s]
  }

  /** The new generation: its main file is complete and every sidecar beside it is its own. */
  ghost predicate NewGeneration<T>(from: string, to: string, d0: map<string, T>, d: map<string, T>) {
    && from in d0 && to in d && d[to] == d0[from]
    && forall n | n in d && IsStale(from, to, n) :: FromNew(from, to, d0, d, n)
  }

  /** The group of `to` is exactly the new generation. */
  ghost predicate Replaced<T>(from: string, to: string, d0: map<string, T>, d: map<string, T>) {
    && NewGeneration(from, to, d0, d)
    && (forall n | n in d && InGroup(to, n) && n != to :: FromNew(from, to, d0, d, n))
    && (forall s | s in d0 && IsSidecar(from, s) ::
          Target(from, to, s) in d && d[Target(from, to, s)] == d0[s])
  }

  lemma TmpNames(to: string)
    ensures IsSidecar(to, to + TMP) && !InGroup(to + TMP, to)
    ensures forall n | InGroup(to + TMP, n) :: IsSidecar(to, n)
  {
    forall n | InGroup(to + TMP, n)
      ensures IsSidecar(to, n)
    {
      assert n[..|to + TMP|] == to + TMP;
      assert (to + TMP)[..|to| + 1] == to + ".";
    }
  }

  lemma ClearingIsOld<T>(d0: map<string, T>, to: string, stale: seq<string>, k: nat)
    requires Lists(stale, StaleSet(d0, to + TMP, to)) && k <= |stale|
    ensures OldGeneration(to + TMP, to, d0, RemoveAll(d0, stale[..k]))
    ensures SameOutside(to, d0, RemoveAll(d0, stale[..k]))
  {
    TmpNames(to);
    forall n | n in stale[..k]
      ensures IsStale(to + TMP, to, n)
    {
      assert n in Elements(stale);
    }
  }

  /** The sidecars of `from` at the time of the second listing. */
  lemma NamesOfMoved<T>(d0: map<string, T>, to: string)
    requires to + TMP in d0
    ensures SidecarSet(MainMoved(d0, to + TMP, to), to + TMP) == SidecarSet(d0, to + TMP)
    ensures forall n | n in SidecarSet(d0, to + TMP) :: IsSidecar(to + TMP, n) && MainMoved(d0, to + TMP, to)[n] == d0[n]
  {
    TmpNames(to);
  }

  lemma ChainFreePart(from: string, to: string, part: set<string>, all: set<string>)
    requires (forall n | n in all :: IsSidecar(from, n)) && part <= all && ChainFree(from, to, all)
    ensures ChainFree(from, to, part)
  {
  }

  lemma {:induction false} RenamesAreImage<T>(d: map<string, T>, from: string, to: string, names: seq<string>, k: nat)
    requires AllSidecars(from, names) && Distinct(names) && k <= |names|
    requires Elements(names) <= d.Keys
    requires ChainFree(from, to, Elements(names))
    ensures Elements(names[..k]) <= Elements(names)
    ensures RenameAll(d, from, to, names[..k]) == Image(d, from, to, Elements(names[..k]))
  {
    if k == 0 {
      assert names[..0] == [];
      assert Image(d, from, to, {}) == d;
    } else {
      hide Image, RenameAll, ChainFree, Target;
      RenamesAreImage(d, from, to, names, k - 1);
      var before, last := names[..k - 1], names[k - 1];
      assert names[..k] == before + [last];
      ElementsAppend(before, last);
      assert last in Elements(names) && last !in before;
      RenameStep(d, from, to, names, k - 1);
      assert Elements(names[..k]) <= Elements(names);
      ChainFreePart(from, to, Elements(before) + {last}, Elements(names));
      ImageStep(d, from, to, Elements(before), last);
    }
  }

  /** Each state of the last loop holds the new generation. */
  lemma {:induction false} ImageIsNew<T>(d0: map<string, T>, to: string, names: set<string>)
    requires to + TMP in d0 && names <= SidecarSet(d0, to + TMP)
    requires ChainFree(to + TMP, to, SidecarSet(d0, to + TMP))
    ensures names <= MainMoved(d0, to + TMP, to).Keys
    ensures NewGeneration(to + TMP, to, d0, Image(MainMoved(d0, to + TMP, to), to + TMP, to, names))
    ensures SameOutside(to, d0, Image(MainMoved(d0, to + TMP, to), to + TMP, to, names))
    ensures names == SidecarSet(d0, to + TMP) ==>
              Replaced(to + TMP, to, d0, Image(MainMoved(d0, to + TMP, to), to + TMP, to, names))
  {
    var from := to + TMP;
    TmpNames(to);
    NamesOfMoved(d0, to);
    var moved := MainMoved(d0, from, to);
    var d := Image(moved, from, to, names);
    forall n | n in Targets(from, to, names)
      ensures IsSidecar(to, n) && n in d && FromNew(from, to, d0, d, n)
    {
      var s := Source(moved, from, to, names, n);
      TargetIsSidecar(from, to, s);
    }
    forall s | s in names
      ensures Target(from, to, s) in d && d[Target(from, to, s)] == d0[s]
    {
      var t := Target(from, to, s);
      assert t in Targets(from, to, names);
      TargetInjective(from, to, s, Source(moved, from, to, names, t));
    }
  }

  ghost predicate Safe<T>(to: string, d0: map<string, T>, d: map<string, T>) {
    && (OldGeneration(to + TMP, to, d0, d) || NewGeneration(to + TMP, to, d0, d))
    && SameOutside(to, d0, d)
  }

  lemma RenamingIsSafe<T>(d0: map<string, T>, to: string, names: seq<string>, k: nat)
    requires to + TMP in d0 && k <= |names| && AllSidecars(to + TMP, names)
    requires Lists(names, SidecarSet(d0, to + TMP))
    requires ChainFree(to + TMP, to, SidecarSet(d0, to + TMP))
    ensures Safe(to, d0, RenameAll(MainMoved(d0, to + TMP, to), to + TMP, to, names[..k]))
    ensures k == |names| ==>
              Replaced(to + TMP, to, d0, RenameAll(MainMoved(d0, to + TMP, to), to + TMP, to, names[..k]))
  {
    hide NewGeneration, OldGeneration, SameOutside, Replaced, Image, RenameAll, MainMoved;
    var moved := MainMoved(d0, to + TMP, to);
    NamesOfMoved(d0, to);
    RenamesAreImage(moved, to + TMP, to, names, k);
    ImageIsNew(d0, to, Elements(names[..k]));
    assert names[..|names|] == names;
  }

  /** Crash safety of a move from `to.tmp` to `to`, for every order in which the folder lists its
      files: after every single step the group of `to` is the old or the new generation, never a
      mixture, no other file differs, and at the end it is exactly the new generation. */
  lemma MoveIsCrashSafe<T>(d0: map<string, T>, to: string, stale: seq<string>, names: seq<string>)
    requires AllSidecars(to + TMP, names)
    requires Lists(stale, StaleSet(d0, to + TMP, to))
    requires to + TMP in d0 ==> Lists(names, SidecarSet(MainMoved(d0, to + TMP, to), to + TMP))
    requires ChainFree(to + TMP, to, SidecarSet(d0, to + TMP))
    ensures var states := MoveStates(d0, to + TMP, to, stale, names);
            && (forall k | 0 <= k < |states| :: Safe(to, d0, states[k]))
            && (to + TMP in d0 ==> states != [] && Replaced(to + TMP, to, d0, states[|states| - 1]))
  {
    hide MainMoved, Safe, Replaced, Lists;
    var states := MoveStates(d0, to + TMP, to, stale, names);
    forall k | 0 <= k < |states|
      ensures Safe(to, d0, states[k])
      ensures to + TMP in d0 && k == |states| - 1 ==> Replaced(to + TMP, to, d0, states[k])
    {
      MoveStateIsSafe(d0, to, stale, names, k);
    }
  }

  lemma MoveStateIsSafe<T>(d0: map<string, T>, to: string, stale: seq<string>, names: seq<string>, k: nat)
    requires AllSidecars(to + TMP, names)
    requires Lists(stale, StaleSet(d0, to + TMP, to))
    requires to + TMP in d0 ==> Lists(names, SidecarSet(MainMoved(d0, to + TMP, to), to + TMP))
    requires ChainFree(to + TMP, to, SidecarSet(d0, to + TMP))
    requires k < |MoveStates(d0, to + TMP, to, stale, names)|
    ensures Safe(to, d0, MoveStates(d0, to + TMP, to, stale, names)[k])
    ensures to + TMP in d0 && k == |MoveStates(d0, to + TMP, to, stale, names)| - 1 ==>
              Replaced(to + TMP, to, d0, MoveStates(d0, to + TMP, to, stale, names)[k])
  {
    hide OldGeneration, NewGeneration, SameOutside, Replaced, RenameAll, RemoveAll, MainMoved;
    if k < |stale| {
      ClearingIsOld(d0, to, stale, k + 1);
      hide Lists;
    } else {
      NamesOfMoved(d0, to);
      RenamingIsSafe(d0, to, names, k - |stale|);
      assert names[..0] == [];
      NothingRenamed(MainMoved(d0, to + TMP, to), to + TMP, to);
    }
  }

  lemma NothingRenamed<T>(d: map<string, T>, from: string, to: string)
    ensures RenameAll(d, from, to, []) == d
  {
  }

  /** The final folder for one order of the second listing. */
  ghost function MoveResult<T>(d0: map<string, T>, to: string, names: seq<string>): map<string, T>
    requires to + TMP in d0 && AllSidecars(to + TMP, names)
  {
    RenameAll(MainMoved(d0, to + TMP, to), to + TMP, to, names)
  }

  ghost predicate SomeOrderFails<T>(d0: map<string, T>, to: string)
    requires to + TMP in d0
  {
    exists names | Lists(names, SidecarSet(d0, to + TMP)) && AllSidecars(to + TMP, names) ::
      !Replaced(to + TMP, to, d0, MoveResult(d0, to, names))
  }

  lemma {:induction false} ListingExists(s: set<string>) returns (names: seq<string>)
    ensures Lists(names, s)
    decreases s
  {
    if s == {} {
      names := [];
    } else {
      var n :| n in s;
      names := ListingExists(s - {n});
      assert n !in Elements(names);
      ElementsAppend(names, n);
      names := names + [n];
    }
  }

  /** A name that was renamed away comes back only if its own source follows. */
  lemma {:induction false} StaysGone<T>(d: map<string, T>, from: string, to: string, names: seq<string>, k: nat, n: string)
    requires AllSidecars(from, names) && k <= |names| && AllSidecars(from, names[..k])
    requires n !in RenameAll(d, from, to, names[..k])
    requires forall i | k <= i < |names| :: Target(from, to, names[i]) != n
    ensures n !in RenameAll(d, from, to, names)
    decreases |names| - k
  {
    if k == |names| {
      assert names[..k] == names;
    } else {
      assert names[..k + 1][..k] == names[..k];
      StaysGone(d, from, to, names, k + 1, n);
    }
  }

  lemma OverwritesFirst<T>(d: map<string, T>, from: string, to: string, a: string, b: string)
    requires IsSidecar(from, a) && IsSidecar(from, b) && a != b && a in d && b in d
    requires Target(from, to, a) == b && Target(from, to, b) != b
    ensures b !in RenameAll(d, from, to, [a, b])
  {
    assert [a, b][..1] == [a];
    assert [a][..0] == [];
    assert RenameAll(d, from, to, [a]) == D.Renamed(d, a, b);
  }

  /** A listing that begins with `a` and the sidecar whose name `a` takes. */
  lemma ListedFirst(from: string, to: string, all: set<string>, a: string) returns (names: seq<string>)
    requires from == to + TMP && forall n | n in all :: IsSidecar(from, n)
    requires a in all && Target(from, to, a) in all
    ensures Lists(names, all) && |names| >= 2 && names[0] == a && names[1] == Target(from, to, a)
    ensures names[..2] == [a, Target(from, to, a)] && a != Target(from, to, a)
    ensures Target(from, to, Target(from, to, a)) != Target(from, to, a)
    ensures forall i | 2 <= i < |names| :: Target(from, to, names[i]) != Target(from, to, a)
  {
    var b := Target(from, to, a);
    assert |Target(from, to, b)| < |b| < |a|;
    var rest := ListingExists(all - {a, b});
    names := [a, b] + rest;
    assert forall i | 0 <= i < |rest| :: rest[i] in Elements(rest);
    assert forall n :: n in names <==> n == a || n == b || n in Elements(rest);
    forall i | 2 <= i < |names|
      ensures Target(from, to, names[i]) != b
    {
      assert names[i] == rest[i - 2] && rest[i - 2] in Elements(rest);
      if Target(from, to, names[i]) == b {
        TargetInjective(from, to, a, names[i]);
      }
    }
  }

  /** If the place of one sidecar is the name of another one, an order exists that loses a file. */
  lemma ChainBreaksSomeOrder<T>(d0: map<string, T>, to: string)
    requires to + TMP in d0 && !ChainFree(to + TMP, to, SidecarSet(d0, to + TMP))
    ensures SomeOrderFails(d0, to)
  {
    var from := to + TMP;
    var all := SidecarSet(d0, from);
    var a :| a in all && Target(from, to, a) in all;
    var b := Target(from, to, a);
    var names := ListedFirst(from, to, all, a);
    hide Lists, Target, Elements;
    NamesOfMoved(d0, to);
    var moved := MainMoved(d0, from, to);
    ListedAreSidecars(d0, from, names);
    OverwritesFirst(moved, from, to, a, b);
    StaysGone(moved, from, to, names, 2, b);
    assert a in d0 && IsSidecar(from, a) && b !in MoveResult(d0, to, names);
  }

  /** A folder with such a pair: "s.tmp.tmp.x" goes to "s.tmp.x", which is a sidecar as well. */
  lemma ChainOfTwo()
    ensures SomeOrderFails(map["s" + TMP := 1, "s.tmp.x" := 2, "s.tmp.tmp.x" := 3], "s")
  {
    var d := map["s" + TMP := 1, "s.tmp.x" := 2, "s.tmp.tmp.x" := 3];
    var a, b := "s.tmp.tmp.x", "s.tmp.x";
    assert "s" + TMP == "s.tmp";
    assert a[..6] == "s.tmp." && b[..6] == "s.tmp." && a[5..] == ".tmp.x";
    assert Target("s.tmp", "s", a) == b;
    assert a in SidecarSet(d, "s.tmp") && b in SidecarSet(d, "s.tmp");
    ChainBreaksSomeOrder(d, "s");
  }

  /** The move ends with exactly the new generation for every listing order if and only if no
      sidecar goes to the place of another one. */
  lemma MoveExactIffChainFree<T>(d0: map<string, T>, to: string)
    requires to + TMP in d0
    ensures ChainFree(to + TMP, to, SidecarSet(d0, to + TMP)) <==> !SomeOrderFails(d0, to)
  {
    hide Replaced, MainMoved;
    if ChainFree(to + TMP, to, SidecarSet(d0, to + TMP)) {
      forall names | Lists(names, SidecarSet(d0, to + TMP)) && AllSidecars(to + TMP, names)
        ensures Replaced(to + TMP, to, d0, MoveResult(d0, to, names))
      {
        RenamingIsSafe(d0, to, names, |names|);
        assert names[..|names|] == names;
      }
    } else {
      ChainBreaksSomeOrder(d0, to);
    }
  }

  /** A common beginning can be left out of a comparison of prefixes. */
  lemma SamePrefix(a: string, x: string, y: string)
    ensures a + x <= a + y <==> x <= y
  {
    assert (a + x)[|a|..] == x && (a + y)[|a|..] == y;
    if x <= y {
      assert a + y == a + x + y[|x|..];
    }
    if a + x <= a + y {
      assert y[..|x|] == (a + y)[|a|..|a| + |x|];
    }
  }

  /** Sidecars whose suffix does not start with `.tmp` make no chain; those of both engines
      (`.checkpoints` and `.tokens.json`) are of this kind. */
  lemma PlainSidecarsMakeNoChain(to: string, names: set<string>)
    requires forall n | n in names :: IsSidecar(to + TMP, n) && !(to + TMP + TMP <= n)
    ensures ChainFree(to + TMP, to, names)
  {
    forall n | n in names
      ensures Target(to + TMP, to, n) !in names
    {
      var suffix := n[|to + TMP|..];
      assert n == to + TMP + suffix;
      assert to + TMP + "." == to + (TMP + ".");
      SamePrefix(to + TMP, TMP, suffix);
      SamePrefix(to, TMP + ".", suffix);
      assert TMP + "." <= suffix ==> TMP <= suffix;
    }
  }

  // File names

  predicate IsPlain(c: char) {
    'a' <= c <= 'z' || 'A' <= c <= 'Z' || '0' <= c <= '9' || c in "._-"
  }

  function Sanitized(s: string): (r: string)
    ensures |r| == |s|
    ensures forall i | 0 <= i < |s| :: r[i] == if IsPlain(s[i]) then s[i] else '_'
  {
    seq(|s|, i requires 0 <= i < |s| => if IsPlain(s[i]) then s[i] else '_')
  }

  /** The slot file of one engine for a model and a context size. */
  function SlotFile(model: string, context: string, ik: bool): string {
    Sanitized(model + "-" + context + (if ik then "-ik" else "") + ".slot")
  }

  /** Nothing that a save or a restore of one engine touches belongs to the other engine: the groups
      of the two slot files, which include their temporary files, are disjoint. */
  lemma EngineFilesAreDisjoint(model: string, context: string, name: string)
    ensures !(InGroup(SlotFile(model, context, false), name) && InGroup(SlotFile(model, context, true), name))
    ensures forall ik :: InGroup(SlotFile(model, context, ik) + TMP, name) ==> InGroup(SlotFile(model, context, ik), name)
  {
    var n := |model + "-" + context|;
    var a, b := SlotFile(model, context, false), SlotFile(model, context, true);
    assert a[n] == '.' && b[n] == '-';
    assert InGroup(a, name) ==> name[n] == '.';
    assert InGroup(b, name) ==> name[n] == '-';
    TmpNames(a);
    TmpNames(b);
  }
}
