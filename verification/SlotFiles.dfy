/**
 The files of a saved prompt cache (src/llm/slots.rs, src/config.rs): a slot file with its
 sidecars, replaced and removed file by file.
 */
module SlotFiles {
  import opened Common
  import D = Directory

  const TMP := ".tmp"

  predicate IsSidecar(file: string, name: string) {
    file + "." <= name
  }

  /** The file and its sidecars. */
  predicate InGroup(file: string, name: string) {
    name == file || IsSidecar(file, name)
  }

  /** A sidecar that a move from `from` to `to` clears away: it belongs to `to`, but not to `from`. */
  predicate IsStale(from: string, to: string, name: string) {
    IsSidecar(to, name) && !InGroup(from, name)
  }

  function SidecarSet<T>(d: map<string, T>, file: string): set<string> {
    set n | n in d.Keys && IsSidecar(file, n)
  }

  function StaleSet<T>(d: map<string, T>, from: string, to: string): set<string> {
    set n | n in d.Keys && IsStale(from, to, n)
  }

  function Elements(names: seq<string>): set<string> {
    set n | n in names
  }

  ghost predicate Distinct(names: seq<string>) {
    forall i, j | 0 <= i < j < |names| :: names[i] != names[j]
  }

  /** `names` lists the files of `s`, in any order. */
  ghost predicate Lists(names: seq<string>, s: set<string>) {
    Distinct(names) && Elements(names) == s
  }

  method Sidecars<T>(dir: D.Directory<T>, file: string) returns (names: seq<string>)
    ensures Lists(names, SidecarSet(dir.files, file))
  {
    names := [];
    var rest := SidecarSet(dir.files, file);
    while rest != {}
      invariant Distinct(names) && Elements(names) + rest == SidecarSet(dir.files, file)
      invariant forall n | n in names :: n !in rest
      decreases |rest|
    {
      var n :| n in rest;
      names := names + [n];
      rest := rest - {n};
    }
  }

  ghost predicate AllSidecars(from: string, names: seq<string>) {
    forall n | n in names :: IsSidecar(from, n)
  }

  lemma ListedAreSidecars<T>(d: map<string, T>, from: string, names: seq<string>)
    requires Lists(names, SidecarSet(d, from))
    ensures AllSidecars(from, names)
  {
    forall n | n in names
      ensures IsSidecar(from, n)
    {
      assert n in Elements(names);
    }
  }

  /** Where a sidecar of `from` goes. */
  function Target(from: string, to: string, name: string): string
    requires IsSidecar(from, name)
  {
    to + name[|from|..]
  }

  lemma TargetIsSidecar(from: string, to: string, name: string)
    requires IsSidecar(from, name)
    ensures IsSidecar(to, Target(from, to, name))
    ensures from + Target(from, to, name)[|to|..] == name
  {
    assert name[..|from| + 1] == from + ".";
    assert name == name[..|from|] + name[|from|..];
    assert name[|from|] == '.';
    var t := Target(from, to, name);
    assert t[..|to| + 1] == to + ".";
  }

  lemma TargetInjective(from: string, to: string, a: string, b: string)
    requires IsSidecar(from, a) && IsSidecar(from, b)
    requires Target(from, to, a) == Target(from, to, b)
    ensures a == b
  {
    TargetIsSidecar(from, to, a);
    TargetIsSidecar(from, to, b);
  }

  function Targets(from: string, to: string, names: set<string>): set<string>
    requires forall n | n in names :: IsSidecar(from, n)
  {
    set n | n in names :: Target(from, to, n)
  }

  /** The folder with the sidecars `names` of `from` renamed to sidecars of `to`. */
  function Image<T>(d: map<string, T>, from: string, to: string, names: set<string>): map<string, T>
    requires names <= d.Keys && forall n | n in names :: IsSidecar(from, n)
  {
    (d - names) + map n | n in Targets(from, to, names) :: d[Source(d, from, to, names, n)]
  }

  function Source<T>(d: map<string, T>, from: string, to: string, names: set<string>, target: string): (n: string)
    requires names <= d.Keys && forall n | n in names :: IsSidecar(from, n)
    requires target in Targets(from, to, names)
    ensures n in names && target == Target(from, to, n)
  {
    var n :| n in names && target == Target(from, to, n);
    assert n == from + target[|to|..] by {
      TargetIsSidecar(from, to, n);
    }
    from + target[|to|..]
  }

  /** The folder after the listed sidecars were renamed in this order. */
  function RenameAll<T>(d: map<string, T>, from: string, to: string, names: seq<string>): map<string, T>
    requires AllSidecars(from, names)
    decreases |names|
  {
    if names == [] then d
    else
      var before, last := RenameAll(d, from, to, names[..|names| - 1]), names[|names| - 1];
      if last in before then D.Renamed(before, last, Target(from, to, last)) else before
  }

  lemma {:induction false} StillThere<T>(d: map<string, T>, from: string, to: string, names: seq<string>, n: string)
    requires AllSidecars(from, names)
    requires n in d && n !in names
    ensures n in RenameAll(d, from, to, names)
    decreases |names|
  {
    if names != [] {
      StillThere(d, from, to, names[..|names| - 1], n);
    }
  }

  /** No sidecar of `from` goes to the place of another sidecar of `from`. */
  ghost predicate ChainFree(from: string, to: string, names: set<string>)
    requires forall n | n in names :: IsSidecar(from, n)
  {
    forall n | n in names :: Target(from, to, n) !in names
  }

  lemma ImageStepAt<T>(d: map<string, T>, from: string, to: string, names: set<string>, n: string, m: string)
    requires names <= d.Keys && forall x | x in names :: IsSidecar(from, x)
    requires n in d && n !in names && IsSidecar(from, n) && n !in Targets(from, to, names)
    requires n in Image(d, from, to, names) && Image(d, from, to, names)[n] == d[n]
    requires m in Targets(from, to, names + {n}) && m != n
    ensures var after, renamed := Image(d, from, to, names + {n}), D.Renamed(Image(d, from, to, names), n, Target(from, to, n));
            m in after && m in renamed && after[m] == renamed[m]
  {
    var s := Source(d, from, to, names + {n}, m);
    if s != n {
      assert m in Targets(from, to, names);
      var s' := Source(d, from, to, names, m);
      TargetInjective(from, to, s, s');
      if m == Target(from, to, n) {
        TargetInjective(from, to, s, n);
      }
    }
  }

  lemma {:induction false} ImageStep<T>(d: map<string, T>, from: string, to: string, names: set<string>, n: string)
    requires names <= d.Keys && forall m | m in names :: IsSidecar(from, m)
    requires n in d && n !in names && IsSidecar(from, n)
    requires ChainFree(from, to, names + {n})
    ensures n in Image(d, from, to, names) && Image(d, from, to, names)[n] == d[n]
    ensures D.Renamed(Image(d, from, to, names), n, Target(from, to, n)) == Image(d, from, to, names + {n})
  {
    var before, after := Image(d, from, to, names), Image(d, from, to, names + {n});
    var t := Target(from, to, n);
    assert n !in Targets(from, to, names);
    assert Targets(from, to, names + {n}) == Targets(from, to, names) + {t};
    forall m | m in Targets(from, to, names + {n})
      ensures m in after && m in D.Renamed(before, n, t) && after[m] == D.Renamed(before, n, t)[m]
    {
      ImageStepAt(d, from, to, names, n, m);
    }
    assert D.Renamed(before, n, t).Keys == after.Keys;
  }

  function RemoveAll<T>(d: map<string, T>, names: seq<string>): map<string, T> {
    d - Elements(names)
  }

  /** The states while the listed files are removed one by one. */
  ghost function RemoveStates<T>(d: map<string, T>, names: seq<string>): (s: seq<map<string, T>>)
    ensures |s| == |names|
    ensures forall k | 0 <= k < |names| :: s[k] == RemoveAll(d, names[..k + 1])
  {
    seq(|names|, k requires 0 <= k < |names| => RemoveAll(d, names[..k + 1]))
  }

  /** The states while the listed sidecars are renamed one by one. */
  ghost function RenameStates<T>(d: map<string, T>, from: string, to: string, names: seq<string>)
      : (s: seq<map<string, T>>)
    requires AllSidecars(from, names)
    ensures |s| == |names|
    ensures forall k | 0 <= k < |names| :: s[k] == RenameAll(d, from, to, names[..k + 1])
  {
    seq(|names|, k requires 0 <= k < |names| => RenameAll(d, from, to, names[..k + 1]))
  }

  /** The folder after the stale sidecars are gone and the main file has moved. */
  function MainMoved<T>(d: map<string, T>, from: string, to: string): map<string, T>
    requires from in d
  {
    D.Renamed(d - StaleSet(d, from, to), from, to)
  }

  /** All states of a move: the stale sidecars go away one by one, the main file is renamed, then
      its sidecars are renamed one by one. A missing main file stops the move. */
  ghost function MoveStates<T>(d: map<string, T>, from: string, to: string, stale: seq<string>, names: seq<string>)
      : seq<map<string, T>>
    requires AllSidecars(from, names)
  {
    if from !in d then RemoveStates(d, stale)
    else
      RemoveStates(d, stale) + [MainMoved(d, from, to)] + RenameStates(MainMoved(d, from, to), from, to, names)
  }

  lemma ElementsAppend(names: seq<string>, n: string)
    ensures Elements(names + [n]) == Elements(names) + {n}
  {
    assert forall m :: m in names + [n] <==> m in names || m == n;
  }

  lemma RemoveStep<T>(d: map<string, T>, names: seq<string>, n: string)
    ensures RemoveAll(d, names) - {n} == RemoveAll(d, names + [n])
    ensures RemoveStates(d, names) + [RemoveAll(d, names + [n])] == RemoveStates(d, names + [n])
  {
    ElementsAppend(names, n);
    forall k | 0 <= k <= |names|
      ensures (RemoveStates(d, names) + [RemoveAll(d, names + [n])])[k] == RemoveStates(d, names + [n])[k]
    {
      assert k < |names| ==> (names + [n])[..k + 1] == names[..k + 1];
      assert (names + [n])[..|names| + 1] == names + [n];
    }
  }

  /** The first loop of a move. */
  method ClearStale<T>(dir: D.Directory<T>, from: string, to: string) returns (ghost stale: seq<string>)
    requires dir.Valid()
    modifies dir
    ensures dir.Valid() && Lists(stale, StaleSet(old(dir.files), from, to))
    ensures dir.files == RemoveAll(old(dir.files), stale)
    ensures dir.states == old(dir.states) + RemoveStates(old(dir.files), stale)
  {
    ghost var d := dir.files;
    stale := [];
    var existing := Sidecars(dir, to);
    ListedAreSidecars(d, to, existing);
    for i := 0 to |existing|
      invariant dir.Valid() && dir.files == RemoveAll(d, stale)
      invariant dir.states == old(dir.states) + RemoveStates(d, stale)
      invariant Distinct(stale)
      invariant forall n :: n in stale <==> n in existing[..i] && IsStale(from, to, n)
    {
      var name := existing[i];
      if name != from && !IsSidecar(from, name) {
        assert name !in existing[..i];
        dir.Remove(name);
        RemoveStep(d, stale, name);
        stale := stale + [name];
      }
    }
    assert forall n :: n in stale <==> n in Elements(existing) && IsStale(from, to, n);
    assert Elements(stale) == StaleSet(d, from, to);
  }

  lemma RenameStep<T>(d: map<string, T>, from: string, to: string, names: seq<string>, i: nat)
    requires AllSidecars(from, names) && Distinct(names) && i < |names|
    requires forall n | n in names :: n in d
    ensures AllSidecars(from, names[..i]) && AllSidecars(from, names[..i + 1])
    ensures names[i] in RenameAll(d, from, to, names[..i])
    ensures D.Renamed(RenameAll(d, from, to, names[..i]), names[i], Target(from, to, names[i]))
         == RenameAll(d, from, to, names[..i + 1])
    ensures RenameStates(d, from, to, names[..i]) + [RenameAll(d, from, to, names[..i + 1])]
         == RenameStates(d, from, to, names[..i + 1])
  {
    var before, after := names[..i], names[..i + 1];
    StillThere(d, from, to, before, names[i]);
    assert after[..i] == before;
    forall k | 0 <= k <= i
      ensures (RenameStates(d, from, to, before) + [RenameAll(d, from, to, after)])[k]
           == RenameStates(d, from, to, after)[k]
    {
      assert k < i ==> after[..k + 1] == before[..k + 1];
      assert after[..i + 1] == after;
    }
  }

  /** The last loop of a move. */
  method MoveSidecars<T>(dir: D.Directory<T>, from: string, to: string) returns (ok: bool, ghost names: seq<string>)
    requires dir.Valid()
    modifies dir
    ensures dir.Valid() && ok
    ensures Lists(names, SidecarSet(old(dir.files), from)) && AllSidecars(from, names)
    ensures dir.states == old(dir.states) + RenameStates(old(dir.files), from, to, names)
  {
    ghost var d := dir.files;
    var listed := Sidecars(dir, from);
    ListedAreSidecars(d, from, listed);
    names := listed;
    ok := true;
    forall n | n in listed
      ensures n in d
    {
      assert n in Elements(listed);
    }
    for i := 0 to |listed|
      invariant dir.Valid() && AllSidecars(from, listed[..i])
      invariant dir.files == RenameAll(d, from, to, listed[..i])
      invariant dir.states == old(dir.states) + RenameStates(d, from, to, listed[..i])
    {
      RenameStep(d, from, to, listed, i);
      ok := dir.Rename(listed[i], Target(from, to, listed[i]));
      if !ok {
        return;
      }
    }
    assert listed[..|listed|] == listed;
  }

  method MoveWithSidecars<T>(dir: D.Directory<T>, from: string, to: string)
    returns (ok: bool, ghost stale: seq<string>, ghost names: seq<string>)
    requires dir.Valid()
    modifies dir
    ensures dir.Valid() && ok == (from in old(dir.files))
    ensures Lists(stale, StaleSet(old(dir.files), from, to)) && AllSidecars(from, names)
    ensures ok ==> Lists(names, SidecarSet(MainMoved(old(dir.files), from, to), from))
    ensures dir.states == old(dir.states) + MoveStates(old(dir.files), from, to, stale, names)
  {
    names := [];
    stale := ClearStale(dir, from, to);
    ok := dir.Rename(from, to);
    if !ok {
      return;
    }
    ok, names := MoveSidecars(dir, from, to);
  }

  /** `d` is `before` without some files of the group of `file`, the main file among them. */
  ghost predicate Removing<T>(file: string, before: map<string, T>, d: map<string, T>) {
    && file !in d
    && (forall n | n in d :: n in before && d[n] == before[n])
    && (forall n | n in before && !InGroup(file, n) :: n in d)
  }

  /** The main file goes first, so no crash leaves it with only a part of its sidecars. */
  method RemoveWithSidecars<T>(dir: D.Directory<T>, file: string)
    requires dir.Valid()
    modifies dir
    ensures dir.Valid() && Removing(file, old(dir.files), dir.files)
    ensures forall n | n in dir.files :: !InGroup(file, n)
    ensures |old(dir.states)| < |dir.states|
    ensures forall k | |old(dir.states)| <= k < |dir.states| :: Removing(file, old(dir.files), dir.states[k])
  {
    dir.Remove(file);
    ghost var d := dir.files;
    var names := Sidecars(dir, file);
    ListedAreSidecars(d, file, names);
    forall n | n in d && IsSidecar(file, n)
      ensures n in names[0..]
    {
      assert n in SidecarSet(d, file) && n in Elements(names);
      assert names[0..] == names;
    }
    for i := 0 to |names|
      invariant dir.Valid() && |old(dir.states)| < |dir.states|
      invariant Removing(file, old(dir.files), dir.files)
      invariant forall n | n in dir.files && IsSidecar(file, n) :: n in names[i..]
      invariant forall k | |old(dir.states)| <= k < |dir.states| :: Removing(file, old(dir.files), dir.states[k])
    {
      dir.Remove(names[i]);
    }
  }
}
