/** Exactly which policies keep the dump honest in every run.  That safe nesting is
enough is the coverage theorem; here every policy that is not safely nested is
given a run, without any failure or loss, that hides a directory. */
module SafelyNested {
  import opened Wrappers
  import opened FileSystem
  import opened Policy
  import opened Marking
  import opened Routing
  import opened Coverage
  import opened CoverageRuns

  // ---- A chain of directories ----------------------------------------------

  /** The directories on the way to `d`, and nothing else. */
  ghost function Chain(d: Path): Fs {
    var dirs := set k | 0 < k <= |d| :: d[..k];
    Fs(map p | p in dirs :: Directory, {})
  }

  lemma ChainHas(d: Path, p: Path)
    ensures p in Chain(d).kinds <==> p != [] && p <= d
    ensures Chain(d).IsDir(p) <==> p != [] && p <= d
  {
    if p != [] && p <= d {
      assert p == d[..|p|];
    }
  }

  lemma ChainIsWellFormed(d: Path)
    ensures Chain(d).WellFormed()
  {
    forall p | p in Chain(d).kinds ensures p != [] && (|p| > 1 ==> Chain(d).IsDir(Parent(p))) {
      ChainHas(d, p);
      if |p| > 1 {
        PrefixTransitive(Parent(p), p, d);
        ChainHas(d, Parent(p));
      }
    }
  }

  lemma ChainEnters(d: Path, excluded: Path -> bool, p: Path)
    requires |p| > 1 && p <= d
    ensures Chain(d).Enters(excluded, p) <==> !excluded(p)
  {
    ChainHas(d, p);
    PrefixTransitive(Parent(p), p, d);
    ChainHas(d, Parent(p));
  }

  /** On the chain, a walk gets to whatever its watch keeps. */
  lemma ChainReaches(d: Path, w: Watch, from: Path, p: Path)
    requires from != [] && from <= p <= d
    ensures Chain(d).Reaches(w.excluded, from, p) <==> Keeps(w, |from| + 1, p)
  {
    forall k | |from| < k <= |p| ensures Chain(d).Enters(w.excluded, p[..k]) <==> !w.excluded(p[..k]) {
      PrefixTransitive(p[..k], p, d);
      ChainEnters(d, w.excluded, p[..k]);
    }
    if Keeps(w, |from| + 1, p) {
      assert forall k :: |from| < k <= |p| ==> !w.excluded(p[..k]);
    }
  }

  lemma ReachedOnChain(d: Path, excluded: Path -> bool, from: Path, p: Path)
    requires Chain(d).Reaches(excluded, from, p) && p != from
    ensures p != [] && p <= d
  {
    ReachedIsEntered(Chain(d), excluded, from, p);
    ChainHas(d, p);
  }

  // ---- Watch descriptors ---------------------------------------------------

  lemma {:induction false} Above(used: set<nat>) returns (n: nat)
    ensures forall u :: u in used ==> u < n
    decreases |used|
  {
    if used == {} {
      n := 0;
    } else {
      var u :| u in used;
      var m := Above(used - {u});
      n := if u < m then m else u + 1;
      assert used == (used - {u}) + {u};
    }
  }

  lemma WatchOne(wdMap: map<nat, Path>, p: Path) returns (after: map<nat, Path>)
    ensures WatchesAdded(wdMap, after, {p})
  {
    if p in wdMap.Values {
      after := wdMap;
    } else {
      var wd := Above(wdMap.Keys);
      after := wdMap[wd := p];
      assert after[wd] == p && forall d :: d in wdMap ==> after[d] == wdMap[d];
    }
  }

  lemma NoneAdded(wdMap: map<nat, Path>)
    ensures WatchesAdded(wdMap, wdMap, {})
  {
  }

  lemma OneMoreAdded(wdMap: map<nat, Path>, some: map<nat, Path>, rest: set<Path>, p: Path, added: set<Path>)
    returns (after: map<nat, Path>)
    requires WatchesAdded(wdMap, some, rest) && added == rest + {p}
    ensures WatchesAdded(wdMap, after, added)
  {
    after := WatchOne(some, p);
    assert wdMap.Values + added == (wdMap.Values + rest) + {p};
  }

  lemma {:induction false} WatchAll(wdMap: map<nat, Path>, added: set<Path>) returns (after: map<nat, Path>)
    ensures WatchesAdded(wdMap, after, added)
    decreases |added|
  {
    if added == {} {
      after := wdMap;
      NoneAdded(wdMap);
    } else {
      var p :| p in added;
      var rest := added - {p};
      var some := WatchAll(wdMap, rest);
      after := OneMoreAdded(wdMap, some, rest, p, added);
    }
  }

  // ---- Runs along a chain --------------------------------------------------

  /** A settled state on the chain to `d`, which is watched; the recursive watches that
  start there are recorded, and what they keep is watched if it is recorded. */
  ghost predicate OnChain(s: State, policy: Policy, d: Path) {
    && s.policy == policy && s.fs == Chain(d) && d != []
    && s.queue == [] && !s.dropped && s.view.alive && !s.view.reload
    && d in s.view.wdMap.Values
    && (forall p :: p in s.view.marks ==> p != [] && p <= d)
    && RootsOnChain(s, d)
    && Followed(s)
  }

  ghost predicate RootsOnChain(s: State, d: Path) {
    forall j :: 0 <= j < |s.policy| && s.policy[j].Recursive() && s.policy[j].root != [] && s.policy[j].root <= d
                ==> s.policy[j].root in s.view.marks
  }

  ghost predicate Followed(s: State) {
    forall i, x :: 0 <= i < |s.policy| && x in s.view.marks && ScansTo(s.policy[i], x) ==> x in s.view.wdMap.Values
  }

  ghost predicate Under(states: seq<State>, policy: Policy) {
    forall n :: 0 <= n < |states| ==> states[n].policy == policy
  }

  /** Runs with one policy and without failed reloads. */
  ghost predicate PlainRun(states: seq<State>, steps: seq<Step>, policy: Policy) {
    && IsRun(states, steps)
    && Under(states, policy)
    && (forall j :: 0 <= j < |steps| ==> !steps[j].FailedReload?)
  }

  lemma LongerPlainRun(states: seq<State>, steps: seq<Step>, policy: Policy, s: State, step: Step, s': State)
    returns (states': seq<State>, steps': seq<Step>)
    requires PlainRun(states, steps, policy) && states[|steps|] == s
    requires Next(s, step, s') && !step.FailedReload? && s'.policy == policy
    ensures PlainRun(states', steps', policy) && states'[|steps'|] == s'
  {
    states', steps' := LongerRun(states, steps, s, step, s');
  }

  const OK: Path -> bool := path => true

  /** A scan of the chain by a recursive watch that keeps all of it. */
  lemma ScanChain(policy: Policy, i: nat, d: Path) returns (s: State)
    requires i < |policy| && d != [] && ScansTo(policy[i], d)
    ensures Init(s, true, Moment(Chain(d), OK, OK)) && OnChain(s, policy, d)
  {
    var marks := AllMarks(Chain(d), policy, OK);
    var none: map<nat, Path> := map[];
    var wdMap := WatchAll(none, Succeeded(TreeDirs(Chain(d), policy), OK));
    s := State(Chain(d), policy, View(marks, {} + Succeeded(marks.Keys, OK), true, wdMap, false), [], false);
    ChainIsWellFormed(d);
    ScanWatches(policy, i, d, d);
    assert none.Values == {} && wdMap.Values == none.Values + Succeeded(TreeDirs(Chain(d), policy), OK);
    ScanIsOnChain(policy, d, s);
  }

  lemma ScanWatches(policy: Policy, i: nat, d: Path, x: Path)
    requires i < |policy| && ScansTo(policy[i], x) && x <= d
    ensures x in TreeDirs(Chain(d), policy)
  {
    PrefixTransitive(policy[i].root, x, d);
    ChainHas(d, policy[i].root);
    ChainReaches(d, policy[i], policy[i].root, x);
    TreeDirsHas(Chain(d), policy, i, x);
  }

  lemma ScanIsOnChain(policy: Policy, d: Path, s: State)
    requires s.policy == policy && s.view.marks == AllMarks(Chain(d), policy, OK)
    requires s.view.wdMap.Values == Succeeded(TreeDirs(Chain(d), policy), OK)
    ensures forall p :: p in s.view.marks ==> p != [] && p <= d
    ensures RootsOnChain(s, d) && Followed(s)
  {
    forall p | p in s.view.marks ensures p != [] && p <= d {
      var j := MarkedByWatch(Chain(d), policy, OK, p);
      WatchMarksReal(Chain(d), policy[j], OK, p);
      ChainHas(d, p);
    }
    forall j | 0 <= j < |policy| && policy[j].Recursive() && policy[j].root != [] && policy[j].root <= d
      ensures policy[j].root in s.view.marks
    {
      ChainHas(d, policy[j].root);
      assert Chain(d).Reaches(policy[j].excluded, policy[j].root, policy[j].root);
      AllMarksHas(Chain(d), policy, OK, j, policy[j].root);
    }
    forall i, x | 0 <= i < |policy| && x in s.view.marks && ScansTo(policy[i], x) ensures x in s.view.wdMap.Values {
      ScanWatches(policy, i, d, x);
    }
  }

  /** The directories that are taken when the chain grows to `d` at its first `n` components. */
  ghost function TakenDirs(policy: Policy, c: nat, d: Path, n: nat): set<Path>
    requires c < |policy| && n <= |d|
  {
    if policy[c].excluded(d[..n]) then {} else Chain(d).Reachable(policy[c].excluded, d[..n])
  }

  lemma ChainGrows(d: Path, n: nat)
    requires 1 < n <= |d|
    ensures Grows(Chain(d[..n - 1]), Chain(d), d[..n])
  {
    var short := d[..n - 1];
    ChainIsWellFormed(d);
    ChainHas(d, d[..n]);
    ChainHas(short, d[..n]);
    ChainHas(short, short);
    assert Parent(d[..n]) == short;
    forall q | q in Chain(short).kinds ensures q in Chain(d).kinds {
      ChainHas(short, q);
      PrefixTransitive(q, short, d);
      ChainHas(d, q);
    }
    forall q | q in Chain(d).kinds && q !in Chain(short).kinds ensures d[..n] <= q {
      ChainHas(d, q);
      ChainHas(short, q);
      LongerPrefix(d, q, n);
    }
  }

  lemma ShorterPrefix(d: Path, q: Path, n: nat)
    requires q <= d && |q| <= n <= |d|
    ensures q <= d[..n]
  {
    assert q == d[..|q|] == d[..n][..|q|];
  }

  lemma LongerPrefix(d: Path, q: Path, n: nat)
    requires 0 < n <= |d| && q <= d && !(q <= d[..n - 1])
    ensures d[..n] <= q
  {
    var m: nat := n - 1;
    if n <= |q| {
      ShorterPrefix(d, d[..n], |q|);
      assert q == d[..|q|];
    } else {
      ShorterPrefix(d, q, m);
    }
  }

  /** The chain grows, and the event is queued. */
  lemma GrownIsQueued(s: State, d: Path, n: nat) returns (grown: State, ev: InotifyEvent)
    requires 1 < n <= |d| && s.fs == Chain(d[..n - 1]) && s.queue == [] && d[..n - 1] in s.view.wdMap.Values
    ensures Announces(s.view.wdMap, ev, d[..n]) && ev.isDir
    ensures grown == s.(fs := Chain(d), queue := [ev]) && Next(s, Create(d[..n], false), grown)
  {
    var newDir := d[..n];
    assert Parent(newDir) == d[..n - 1] && newDir == Parent(newDir) + [Last(newDir)];
    var wd :| wd in s.view.wdMap && s.view.wdMap[wd] == Parent(newDir);
    ev := NewEntry(wd, Some(Last(newDir)), true);
    grown := s.(fs := Chain(d), queue := [ev]);
    ChainGrows(d, n);
    ChainHas(d, newDir);
    assert s.queue + [ev] == [ev];
  }

  /** The event is handled, with all calls succeeding. */
  lemma GrownIsTaken(grown: State, ev: InotifyEvent, policy: Policy, d: Path, n: nat, c: nat) returns (s': State)
    requires 1 < n <= |d| && grown.policy == policy && grown.fs == Chain(d) && grown.queue == [ev]
    requires grown.view.alive && Announces(grown.view.wdMap, ev, d[..n]) && ev.isDir
    requires FirstCovering(policy, d[..n]) == Some(c)
    ensures Next(grown, Handle(Moment(Chain(d), OK, OK)), s')
    ensures s' == grown.(view := s'.view, queue := []) && s'.view.alive && s'.view.reload == grown.view.reload
    ensures s'.view.marks.Keys == grown.view.marks.Keys + TakenDirs(policy, c, d, n)
    ensures s'.view.wdMap.Values == grown.view.wdMap.Values + TakenDirs(policy, c, d, n)
  {
    var v, dirs := grown.view, TakenDirs(policy, c, d, n);
    var wdMap := WatchAll(v.wdMap, Succeeded(dirs, OK));
    assert Succeeded(dirs, OK) == dirs;
    var v' := View(v.marks + DirEntries(dirs, policy[c], OK), v.fan + Succeeded(dirs, OK), true, wdMap, v.reload);
    s' := grown.(view := v', queue := []);
    assert grown.queue[1..] == [];
    TakesIt(policy, Moment(Chain(d), OK, OK), ev, v, v', d[..n], c, dirs);
  }

  lemma GrowOnce(s: State, policy: Policy, d: Path, n: nat, c: nat) returns (grown: State, s': State)
    requires 1 < n <= |d| && OnChain(s, policy, d[..n - 1]) && FirstCovering(policy, d[..n]) == Some(c)
    ensures grown.policy == policy && Next(s, Create(d[..n], false), grown)
    ensures Next(grown, Handle(Moment(Chain(d), OK, OK)), s')
    ensures s'.policy == policy && s'.fs == Chain(d) && s'.queue == [] && !s'.dropped
    ensures s'.view.alive && !s'.view.reload
    ensures s'.view.marks.Keys == s.view.marks.Keys + TakenDirs(policy, c, d, n)
    ensures s'.view.wdMap.Values == s.view.wdMap.Values + TakenDirs(policy, c, d, n)
  {
    var ev: InotifyEvent;
    grown, ev := GrownIsQueued(s, d, n);
    s' := GrownIsTaken(grown, ev, policy, d, n, c);
  }

  lemma TakesIt(policy: Policy, m: Moment, ev: InotifyEvent, v: View, v': View, newDir: Path, c: nat, dirs: set<Path>)
    requires Announces(v.wdMap, ev, newDir) && ev.isDir && FirstCovering(policy, newDir) == Some(c)
    requires dirs == if policy[c].excluded(newDir) then {} else m.fs.Reachable(policy[c].excluded, newDir)
    requires Covered(m, policy[c], dirs, v, v')
    ensures HandlesEvent(policy, m, ev, v, v')
  {
  }

  /** What is taken: the chain from its first `n` components on, as far as the watch keeps it. */
  lemma TakenOnChain(policy: Policy, c: nat, d: Path, n: nat, k: nat)
    requires c < |policy| && 0 < n <= k <= |d|
    ensures Keeps(policy[c], n, d[..k]) ==> d[..k] in TakenDirs(policy, c, d, n)
    ensures policy[c].excluded(d[..k]) ==> d[..k] !in TakenDirs(policy, c, d, n)
  {
    var newDir, p := d[..n], d[..k];
    assert p[..n] == newDir && p[..k] == p;
    ChainReaches(d, policy[c], newDir, p);
  }

  lemma TakenBelow(policy: Policy, c: nat, d: Path, n: nat, p: Path)
    requires c < |policy| && 0 < n <= |d| && p in TakenDirs(policy, c, d, n)
    ensures p != [] && p <= d && d[..n] <= p
  {
    if p != d[..n] {
      ReachedOnChain(d, policy[c].excluded, d[..n], p);
    }
  }

  /** A recursive root on the grown chain was there before or is among what is taken. */
  lemma RootIsOldOrTaken(s: State, policy: Policy, c: nat, d: Path, n: nat, j: nat)
    requires s.policy == policy && c < |policy| && j < |policy| && 0 < n <= |d|
    requires RootsOnChain(s, d[..n - 1]) && policy[j].Recursive() && policy[j].root != [] && policy[j].root <= d
    requires Keeps(policy[c], n, policy[j].root)
    ensures policy[j].root in s.view.marks || policy[j].root in TakenDirs(policy, c, d, n)
  {
    var root := policy[j].root;
    assert root == d[..|root|];
    if |root| < n {
      assert d[..n - 1][..|root|] == root;
    } else {
      TakenOnChain(policy, c, d, n, |root|);
    }
  }

  lemma KeepsPrefix(w: Watch, n: nat, p: Path, q: Path)
    requires q <= p && Keeps(w, n, p)
    ensures Keeps(w, n, q)
  {
    forall k | n <= k <= |q| ensures !w.excluded(q[..k]) {
      assert q[..k] == p[..k];
    }
  }

  /** If the watch that takes the new part keeps all of it, the chain is followed to its end. */
  lemma TakenIsOnChain(s: State, s': State, policy: Policy, d: Path, n: nat, c: nat)
    requires 1 < n <= |d| && OnChain(s, policy, d[..n - 1]) && c < |policy| && Keeps(policy[c], n, d)
    requires s'.policy == policy && s'.fs == Chain(d) && s'.queue == [] && !s'.dropped
    requires s'.view.alive && !s'.view.reload
    requires s'.view.marks.Keys == s.view.marks.Keys + TakenDirs(policy, c, d, n)
    requires s'.view.wdMap.Values == s.view.wdMap.Values + TakenDirs(policy, c, d, n)
    ensures OnChain(s', policy, d)
  {
    assert d[..|d|] == d;
    TakenOnChain(policy, c, d, n, |d|);
    forall p | p in s'.view.marks ensures p != [] && p <= d {
      if p in TakenDirs(policy, c, d, n) {
        TakenBelow(policy, c, d, n, p);
      } else {
        PrefixTransitive(p, d[..n - 1], d);
      }
    }
    forall j | 0 <= j < |policy| && policy[j].Recursive() && policy[j].root != [] && policy[j].root <= d
      ensures policy[j].root in s'.view.marks
    {
      KeepsPrefix(policy[c], n, d, policy[j].root);
      RootIsOldOrTaken(s, policy, c, d, n, j);
    }
  }

  /** What a policy can lead to, some run watches. */
  lemma {:induction false} WatchedByRun(policy: Policy, d: Path) returns (states: seq<State>, steps: seq<Step>)
    requires Watchable(policy, d) && d != []
    ensures PlainRun(states, steps, policy) && OnChain(states[|steps|], policy, d)
    decreases |d|
  {
    if i :| 0 <= i < |policy| && ScansTo(policy[i], d) {
      var s := ScanChain(policy, i, d);
      StartRun(s, true, Moment(Chain(d), OK, OK));
      states, steps := [s], [];
    } else {
      var n: nat :| TakenTo(policy, n, d) && Watchable(policy, d[..n - 1]);
      var c := FirstCovering(policy, d[..n]).value;
      states, steps := WatchedByRun(policy, d[..n - 1]);
      states, steps := GrownRun(states, steps, policy, d, n, c);
    }
  }

  lemma GrownRun(states: seq<State>, steps: seq<Step>, policy: Policy, d: Path, n: nat, c: nat)
    returns (states': seq<State>, steps': seq<Step>)
    requires PlainRun(states, steps, policy) && 1 < n <= |d| && OnChain(states[|steps|], policy, d[..n - 1])
    requires FirstCovering(policy, d[..n]) == Some(c) && Keeps(policy[c], n, d)
    ensures PlainRun(states', steps', policy) && OnChain(states'[|steps'|], policy, d)
  {
    var s := states[|steps|];
    var grown, s' := GrowOnce(s, policy, d, n, c);
    states', steps' := LongerPlainRun(states, steps, policy, s, Create(d[..n], false), grown);
    states', steps' := LongerPlainRun(states', steps', policy, grown, Handle(Moment(Chain(d), OK, OK)), s');
    TakenIsOnChain(s, s', policy, d, n, c);
  }

  // ---- A run that hides a directory ----------------------------------------

  /** When the watch that takes the new part stops at `q`, which another one governs,
  nothing tells. */
  lemma StopIsSilent(s: State, s': State, policy: Policy, i: nat, n: nat, q: Path)
    requires i < |policy| && Routed(policy, i, n, q) && OnChain(s, policy, q[..n - 1])
    requires policy[FirstCovering(policy, q[..n]).value].excluded(q)
    requires s'.policy == policy && s'.fs == Chain(q)
    requires s'.view.marks.Keys
             == s.view.marks.Keys + TakenDirs(policy, FirstCovering(policy, q[..n]).value, q, n)
    requires s'.view.wdMap.Values
             == s.view.wdMap.Values + TakenDirs(policy, FirstCovering(policy, q[..n]).value, q, n)
    ensures RootsRecorded(s') && !HonestDump(s')
  {
    var c := FirstCovering(policy, q[..n]).value;
    StopRecordsRoots(s, s', policy, c, n, q);
    StopIsUnrecorded(s, policy, c, n, q);
    ChainHas(q, policy[i].root);
    ChainReaches(q, policy[i], policy[i].root, q);
    assert Governs(s', i, q);
    forall k | |policy[i].root| <= k < |q| && q[..k] in s'.view.marks ensures q[..k] in s'.view.wdMap.Values {
      WatchedOnTheWay(s, policy, c, i, n, q, k);
    }
    assert !Reported(s', policy[i].root, q);
  }

  lemma StopIsUnrecorded(s: State, policy: Policy, c: nat, n: nat, q: Path)
    requires 1 < n <= |q| && c < |policy| && policy[c].excluded(q) && OnChain(s, policy, q[..n - 1])
    ensures q !in s.view.marks && q !in TakenDirs(policy, c, q, n)
  {
    assert q[..|q|] == q;
    TakenOnChain(policy, c, q, n, |q|);
  }

  lemma StopRecordsRoots(s: State, s': State, policy: Policy, c: nat, n: nat, q: Path)
    requires 1 < n <= |q| && c < |policy| && OnChain(s, policy, q[..n - 1])
    requires Keeps(policy[c], n, Parent(q)) && !RecursiveRoot(policy, q)
    requires s'.policy == policy && s'.fs == Chain(q)
    requires s'.view.marks.Keys == s.view.marks.Keys + TakenDirs(policy, c, q, n)
    ensures RootsRecorded(s')
  {
    forall j | 0 <= j < |policy| && policy[j].Recursive() && s'.fs.IsDir(policy[j].root)
      ensures policy[j].root in s'.view.marks
    {
      ChainHas(q, policy[j].root);
      ProperPrefix(policy[j].root, q);
      KeepsPrefix(policy[c], n, Parent(q), policy[j].root);
      RootIsOldOrTaken(s, policy, c, q, n, j);
    }
  }

  lemma ProperPrefix(a: Path, b: Path)
    requires a <= b && a != b
    ensures a <= Parent(b)
  {
    if |a| < |b| {
      ShorterPrefix(b, a, |b| - 1);
    } else {
      SameLengthPrefix(a, b);
    }
  }

  lemma SameLengthPrefix(a: Path, b: Path)
    requires a <= b && |a| >= |b|
    ensures a == b
  {
    assert a == b[..|a|];
  }

  lemma WatchedOnTheWay(s: State, policy: Policy, c: nat, i: nat, n: nat, q: Path, k: nat)
    requires 1 < n <= |q| && c < |policy| && i < |policy| && OnChain(s, policy, q[..n - 1])
    requires ScansTo(policy[i], q) && Keeps(policy[c], n, Parent(q)) && |policy[i].root| <= k < |q|
    ensures q[..k] in s.view.marks ==> q[..k] in s.view.wdMap.Values
  {
    KeepsPrefix(policy[i], |policy[i].root| + 1, q, q[..k]);
    assert policy[i].root <= q[..k];
    assert ScansTo(policy[i], q[..k]);
  }

  lemma UnsafeIsSilent(policy: Policy, i: nat, n: nat, q: Path) returns (states: seq<State>, steps: seq<Step>)
    requires i < |policy| && Routed(policy, i, n, q) && policy[FirstCovering(policy, q[..n]).value].excluded(q)
    ensures PlainRun(states, steps, policy) && Settled(states, steps)
    ensures RootsRecorded(states[|steps|]) && !HonestDump(states[|steps|])
  {
    var c := FirstCovering(policy, q[..n]).value;
    states, steps := WatchedByRun(policy, q[..n - 1]);
    var s := states[|steps|];
    var grown, s' := GrowOnce(s, policy, q, n, c);
    states, steps := LongerPlainRun(states, steps, policy, s, Create(q[..n], false), grown);
    states, steps := LongerPlainRun(states, steps, policy, grown, Handle(Moment(Chain(q), OK, OK)), s');
    StopIsSilent(s, s', policy, i, n, q);
  }

  // ---- The exact condition -------------------------------------------------

  /** Under this one policy, every settled end of a run that makes up for its losses has
  an honest dump exactly if the roots are recorded. */
  ghost predicate HonestRuns(policy: Policy) {
    forall states, steps ::
      IsRun(states, steps) && Under(states, policy) && LossesRepaired(states, steps) && Settled(states, steps)
      ==> (HonestDump(states[|steps|]) <==> RootsRecorded(states[|steps|]))
  }

  /** Main theorem: the dump is honest in every run of a policy if and only if the
  policy is safely nested. */
  lemma HonestIffSafelyNested(policy: Policy)
    ensures HonestRuns(policy) <==> SafeNesting(policy)
  {
    if SafeNesting(policy) {
      forall states, steps
        | IsRun(states, steps) && Under(states, policy) && LossesRepaired(states, steps) && Settled(states, steps)
        ensures HonestDump(states[|steps|]) <==> RootsRecorded(states[|steps|])
      {
        NoSilentCoverageGap(states, steps);
      }
    } else {
      var i: nat, n: nat, q: Path :|
        i < |policy| && Routed(policy, i, n, q) && policy[FirstCovering(policy, q[..n]).value].excluded(q);
      var states, steps := UnsafeIsSilent(policy, i, n, q);
      assert IsRun(states, steps) && LossesRepaired(states, steps);
    }
  }
}
