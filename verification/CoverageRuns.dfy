/** What the dump says at the end of a run, and three ways it can be silent. */
module CoverageRuns {
  import opened Wrappers
  import opened FileSystem
  import opened Policy
  import R = Rules
  import opened Marking
  import opened Routing
  import opened Coverage

  /** `p` shows up in the dump itself, or under a row that admits that new
  subdirectories below it are not marked. */
  ghost predicate Reported(s: State, root: Path, p: Path) {
    var dump := BuildDump(s.view.marks, s.view.wdMap.Values);
    || p in dump
    || exists k :: |root| <= k < |p| && p[..k] in dump && dump[p[..k]].liveMarked == Some(false)
  }

  ghost predicate AllReported(s: State) {
    forall i, p :: 0 <= i < |s.policy| && Governs(s, i, p) ==> Reported(s, s.policy[i].root, p)
  }

  /** No governed directory is missing silently, and no row claims a mark that is not there. */
  ghost predicate HonestDump(s: State) {
    var dump := BuildDump(s.view.marks, s.view.wdMap.Values);
    && AllReported(s)
    && (forall p :: p in dump && dump[p].fanotify ==> p in s.view.fan)
  }

  /** Every recursive watch whose root is a directory now has it in the record.  What
  that means for the scans of a run is said by `RecordedMeansScanned`. */
  ghost predicate RootsRecorded(s: State) {
    forall i :: 0 <= i < |s.policy| && s.policy[i].Recursive() && s.fs.IsDir(s.policy[i].root) ==>
      s.policy[i].root in s.view.marks
  }

  /** With nothing pending, what is accounted for is reported. */
  lemma TrackedIsReported(s: State, i: nat, p: Path)
    requires i < |s.policy| && Tracks(s, i, p) && s.queue == []
    requires Accounted(s, s.policy[i].root, p) && MarksReal(s)
    ensures Reported(s, s.policy[i].root, p)
  {
    var w := s.policy[i];
    if p !in s.view.marks {
      var dump := BuildDump(s.view.marks, s.view.wdMap.Values);
      var k :| |w.root| <= k < |p| && p[..k] in s.view.marks && p[..k] !in s.view.wdMap.Values;
      var child := p[..k + 1];
      assert s.fs.Enters(w.excluded, child) && Parent(child) == p[..k];
      assert dump[p[..k]].liveMarked == Some(false);
    }
  }

  lemma NoRootMissing(s: State, p: Path)
    requires RootsRecorded(s)
    ensures !RootMissing(s, p)
  {
  }

  /** In a settled state that owes no re-mark the dump is honest exactly if every
  root of a recursive watch that is a directory now is recorded. */
  lemma SettledIsHonestIff(s: State)
    requires Inv(s) && !s.dropped && s.queue == []
    ensures HonestDump(s) <==> RootsRecorded(s)
  {
    if RootsRecorded(s) {
      forall i, p | 0 <= i < |s.policy| && Governs(s, i, p) ensures Reported(s, s.policy[i].root, p) {
        assert Tracks(s, i, p);
        NoRootMissing(s, p);
        TrackedIsReported(s, i, p);
      }
    }
    if HonestDump(s) {
      forall i | 0 <= i < |s.policy| && s.policy[i].Recursive() && s.fs.IsDir(s.policy[i].root)
        ensures s.policy[i].root in s.view.marks
      {
        assert Governs(s, i, s.policy[i].root);
      }
    }
  }

  lemma StartRun(s: State, initOk: bool, m: Moment)
    requires Init(s, initOk, m)
    ensures IsRun([s], [])
  {
    assert Init([s][0], initOk, m);
  }

  lemma LongerRun(states: seq<State>, steps: seq<Step>, s: State, step: Step, s': State)
    returns (states': seq<State>, steps': seq<Step>)
    requires IsRun(states, steps) && states[|steps|] == s && Next(s, step, s')
    ensures states' == states + [s'] && steps' == steps + [step] && IsRun(states', steps')
  {
    states', steps' := states + [s'], steps + [step];
    SameStart(states, states');
    forall i | 0 <= i < |steps'| ensures Next(states'[i], steps'[i], states'[i + 1]) {
      StepOfLonger(states, steps, s, step, s', i);
    }
  }

  lemma SameStart(states: seq<State>, states': seq<State>)
    requires states != [] && states' != [] && states'[0] == states[0]
    requires exists initOk, m :: Init(states[0], initOk, m)
    ensures exists initOk, m :: Init(states'[0], initOk, m)
  {
    var initOk, m :| Init(states[0], initOk, m);
    assert Init(states'[0], initOk, m);
  }

  lemma StepOfLonger(states: seq<State>, steps: seq<Step>, s: State, step: Step, s': State, i: nat)
    requires IsRun(states, steps) && states[|steps|] == s && Next(s, step, s') && i <= |steps|
    ensures Next((states + [s'])[i], (steps + [step])[i], (states + [s'])[i + 1])
  {
    if i < |steps| {
      SameNext(states[i], steps[i], states[i + 1], (states + [s'])[i], (steps + [step])[i], (states + [s'])[i + 1]);
    } else {
      SameNext(s, step, s', (states + [s'])[i], (steps + [step])[i], (states + [s'])[i + 1]);
    }
  }

  lemma SameNext(a: State, step: Step, b: State, a': State, step': Step, b': State)
    requires a' == a && step' == step && b' == b
    ensures Next(a, step, b) ==> Next(a', step', b')
  {
  }

  /** Nested watches agree on what they leave out, in every policy of the run. */
  ghost predicate SafePolicies(states: seq<State>) {
    forall n :: 0 <= n < |states| ==> SafeNesting(states[n].policy)
  }

  lemma {:induction false} RunKeeps(states: seq<State>, steps: seq<Step>, n: nat)
    requires IsRun(states, steps) && SafePolicies(states) && n < |states|
    ensures Inv(states[n])
  {
    if n == 0 {
      var initOk, m :| Init(states[0], initOk, m);
      FullMarkKeeps(states[0].policy, initOk, m, {}, states[0]);
    } else {
      RunKeeps(states, steps, n - 1);
      NextKeeps(states[n - 1], steps[n - 1], states[n]);
    }
  }

  ghost predicate ReloadsFrom(steps: seq<Step>, n: nat) {
    exists j :: n <= j < |steps| && steps[j].Reload?
  }

  /** A reload that fails consumes the request for a full re-mark; a later reload
  that succeeds makes up for it. */
  ghost predicate LossesRepaired(states: seq<State>, steps: seq<Step>)
    requires |states| == |steps| + 1
  {
    forall i :: 0 <= i < |steps| && steps[i].FailedReload? && states[i].dropped ==> ReloadsFrom(steps, i + 1)
  }

  ghost predicate Settled(states: seq<State>, steps: seq<Step>)
    requires |states| == |steps| + 1
  {
    states[|steps|].queue == [] && !states[|steps|].view.reload
  }

  lemma OwedAfter(s: State, step: Step, s': State)
    requires Next(s, step, s') && ReMarkOwed(s)
    ensures ReMarkOwed(s') || (step.FailedReload? && s.dropped)
  {
    if s.dropped && step.Handle? {
      assert s.queue == [s.queue[0]] + s'.queue;
      assert Overflow == s.queue[0] || Overflow in s'.queue || s.view.reload;
    }
    if step.Create? && Overflow in s.queue {
      var j :| 0 <= j < |s.queue| && s.queue[j] == Overflow;
      assert s'.queue[j] == Overflow;
    }
  }

  lemma ReloadedOrReloads(states: seq<State>, steps: seq<Step>, n: nat)
    requires IsRun(states, steps) && n < |steps| && ReloadsFrom(steps, n)
    ensures ReMarkOwed(states[n + 1]) || ReloadsFrom(steps, n + 1)
  {
    assert Next(states[n], steps[n], states[n + 1]);
  }

  /** A lost event has its notice queued or a reload requested, or a reload that
  succeeds is still to come. */
  lemma {:induction false} OwedIsRemembered(states: seq<State>, steps: seq<Step>, n: nat)
    requires IsRun(states, steps) && LossesRepaired(states, steps) && n < |states|
    ensures ReMarkOwed(states[n]) || ReloadsFrom(steps, n)
  {
    if n > 0 {
      OwedIsRemembered(states, steps, n - 1);
      if ReMarkOwed(states[n - 1]) {
        OwedAfter(states[n - 1], steps[n - 1], states[n]);
      } else {
        ReloadedOrReloads(states, steps, n - 1);
      }
    }
  }

  /** Without a reload that succeeds, a loss is never made up for. */
  lemma {:induction false} LossStays(states: seq<State>, steps: seq<Step>, i: nat, n: nat)
    requires IsRun(states, steps) && i <= n < |states| && states[i].dropped && !ReloadsFrom(steps, i)
    ensures states[n].dropped
    decreases n - i
  {
    if i < n {
      assert Next(states[i], steps[i], states[i + 1]);
      LossStays(states, steps, i + 1, n);
    }
  }

  /** A settled end owes no re-mark exactly if every failed reload that consumed one
  was followed by a reload that succeeded. */
  lemma NothingOwedIff(states: seq<State>, steps: seq<Step>)
    requires IsRun(states, steps) && Settled(states, steps)
    ensures !states[|steps|].dropped <==> LossesRepaired(states, steps)
  {
    if LossesRepaired(states, steps) {
      OwedIsRemembered(states, steps, |steps|);
    } else {
      var i :| 0 <= i < |steps| && steps[i].FailedReload? && states[i].dropped && !ReloadsFrom(steps, i + 1);
      assert Next(states[i], steps[i], states[i + 1]);
      LossStays(states, steps, i + 1, |steps|);
    }
  }

  /** Main theorem: however marks and watches fail, events get lost and reloads fail,
  if nested watches agree, and a reload that succeeds follows each failed one that
  consumed a re-mark, then once the queue is drained and no reload is requested,
  the dump is honest exactly if every root that is a directory now is recorded. */
  lemma NoSilentCoverageGap(states: seq<State>, steps: seq<Step>)
    requires IsRun(states, steps) && SafePolicies(states)
    requires LossesRepaired(states, steps) && Settled(states, steps)
    ensures HonestDump(states[|steps|]) <==> RootsRecorded(states[|steps|])
  {
    RunKeeps(states, steps, |steps|);
    NothingOwedIff(states, steps);
    SettledIsHonestIff(states[|steps|]);
  }

  /** The last attempt to reload succeeded, or there was none: what the log shows. */
  ghost predicate LastReloadSucceeded(steps: seq<Step>) {
    forall i :: 0 <= i < |steps| && steps[i].FailedReload? ==> ReloadsFrom(steps, i + 1)
  }

  lemma HonestAfterLastReload(states: seq<State>, steps: seq<Step>)
    requires IsRun(states, steps) && SafePolicies(states)
    requires LastReloadSucceeded(steps) && Settled(states, steps)
    ensures HonestDump(states[|steps|]) <==> RootsRecorded(states[|steps|])
  {
    NoSilentCoverageGap(states, steps);
  }

  // ---- What it means that a root is recorded --------------------------------

  /** The state after the last full scan before state `n`. */
  function LastScan(steps: seq<Step>, n: nat): (k: nat)
    requires n <= |steps|
    ensures k <= n && (k == 0 || steps[k - 1].Reload?)
    ensures forall j :: k <= j < n ==> !steps[j].Reload?
  {
    if n == 0 || steps[n - 1].Reload? then n else LastScan(steps, n - 1)
  }

  predicate Resolves(fs: Fs, p: Path) {
    p in fs.kinds && !fs.kinds[p].Special?
  }

  /** No other watch starts strictly above this one. */
  ghost predicate Outermost(policy: Policy, i: nat)
    requires i < |policy|
  {
    forall j :: 0 <= j < |policy| ==> !(policy[j].root < policy[i].root)
  }

  lemma ScanRecordsRoots(fs: Fs, policy: Policy, markOk: Path -> bool, i: nat)
    requires i < |policy| && Outermost(policy, i)
    ensures policy[i].root in AllMarks(fs, policy, markOk) <==> Resolves(fs, policy[i].root)
  {
    var root := policy[i].root;
    if Resolves(fs, root) {
      assert fs.Reaches(policy[i].excluded, root, root);
      AllMarksHas(fs, policy, markOk, i, root);
    }
    if root in AllMarks(fs, policy, markOk) {
      var j := MarkedByWatch(fs, policy, markOk, root);
      assert policy[j].root == root;
    }
  }

  lemma OutermostIsNotTaken(s: State, step: Step, s': State, i: nat)
    requires WatchesSound(s) && Next(s, step, s') && !step.Reload?
    requires i < |s.policy| && Outermost(s.policy, i)
    ensures s'.policy == s.policy
    ensures s.policy[i].root in s'.view.marks <==> s.policy[i].root in s.view.marks
  {
    if step.Handle? && Announced(s.policy, s.view.wdMap, s.queue[0]).Some? {
      var newDir := Announced(s.policy, s.view.wdMap, s.queue[0]).value;
      var dir := s.view.wdMap[s.queue[0].wd];
      assert dir in s.view.wdMap.Values && dir < newDir;
      var j := WatchableIsInside(s.policy, dir);
      if newDir <= s.policy[i].root {
        PrefixTransitive(dir, newDir, s.policy[i].root);
        PrefixTransitive(s.policy[j].root, dir, s.policy[i].root);
      }
    }
  }

  lemma ScanState(states: seq<State>, steps: seq<Step>, n: nat) returns (m: Moment)
    requires IsRun(states, steps) && n < |states| && LastScan(steps, n) == n
    ensures states[n].fs == m.fs && states[n].view.marks == AllMarks(m.fs, states[n].policy, m.markOk)
  {
    if n == 0 {
      var initOk, m0 :| Init(states[0], initOk, m0);
      m := m0;
    } else {
      assert Next(states[n - 1], steps[n - 1], states[n]);
      m := steps[n - 1].m;
    }
  }

  lemma RecordedAtScan(states: seq<State>, steps: seq<Step>, n: nat, i: nat)
    requires IsRun(states, steps) && n < |states| && LastScan(steps, n) == n
    requires i < |states[n].policy| && Outermost(states[n].policy, i)
    ensures states[n].policy[i].root in states[n].view.marks <==> Resolves(states[n].fs, states[n].policy[i].root)
  {
    var m := ScanState(states, steps, n);
    ScanRecordsRoots(m.fs, states[n].policy, m.markOk, i);
  }

  lemma RecordedLater(states: seq<State>, steps: seq<Step>, n: nat, i: nat)
    requires IsRun(states, steps) && SafePolicies(states) && n < |steps| && !steps[n].Reload?
    requires i < |states[n + 1].policy| && Outermost(states[n + 1].policy, i)
    ensures states[n].policy == states[n + 1].policy
    ensures states[n].policy[i].root in states[n + 1].view.marks <==> states[n].policy[i].root in states[n].view.marks
  {
    RunKeeps(states, steps, n);
    SamePolicy(states[n], steps[n], states[n + 1]);
    OutermostIsNotTaken(states[n], steps[n], states[n + 1], i);
  }

  ghost predicate NoReload(steps: seq<Step>, k: nat, n: nat) {
    forall j :: k <= j < n && j < |steps| ==> !steps[j].Reload?
  }

  lemma {:induction false} RecordedSince(states: seq<State>, steps: seq<Step>, k: nat, n: nat, policy: Policy, i: nat)
    requires IsRun(states, steps) && SafePolicies(states) && k <= n < |states|
    requires NoReload(steps, k, n)
    requires states[n].policy == policy && i < |policy| && Outermost(policy, i)
    ensures states[k].policy == policy
    ensures policy[i].root in states[n].view.marks <==> policy[i].root in states[k].view.marks
    decreases n
  {
    if k < n {
      RecordedLater(states, steps, n - 1, i);
      RecordedSince(states, steps, k, n - 1, policy, i);
    }
  }

  /** Over every run: the root of an outermost watch is recorded iff it was a directory
  or a regular file when the last full scan looked. */
  lemma RecordedMeansScanned(states: seq<State>, steps: seq<Step>, n: nat, i: nat)
    requires IsRun(states, steps) && SafePolicies(states) && n < |states|
    requires i < |states[n].policy| && Outermost(states[n].policy, i)
    ensures var root := states[n].policy[i].root;
            root in states[n].view.marks <==> Resolves(states[LastScan(steps, n)].fs, root)
  {
    var k := LastScan(steps, n);
    RecordedSince(states, steps, k, n, states[n].policy, i);
    RecordedAtScan(states, steps, k, i);
  }

  lemma SamePolicy(s: State, step: Step, s': State)
    requires Next(s, step, s') && !step.Reload?
    ensures s'.policy == s.policy
  {
  }

  lemma {:induction false} KindsStay(states: seq<State>, steps: seq<Step>, a: nat, b: nat, p: Path)
    requires IsRun(states, steps) && a <= b < |states| && p in states[a].fs.kinds
    ensures p in states[b].fs.kinds && states[b].fs.kinds[p] == states[a].fs.kinds[p]
    decreases b
  {
    if a < b {
      KindsStay(states, steps, a, b - 1, p);
      assert Next(states[b - 1], steps[b - 1], states[b]);
    }
  }

  /** With roots that are not nested, `RootsRecorded` says what its name says: each root
  of a recursive watch that is a directory now was one when the last full scan looked. */
  lemma RootsRecordedIff(states: seq<State>, steps: seq<Step>, n: nat)
    requires IsRun(states, steps) && SafePolicies(states) && n < |states| && NonNested(states[n].policy)
    ensures RootsRecorded(states[n]) <==>
            forall i :: 0 <= i < |states[n].policy| && states[n].policy[i].Recursive()
                        && states[n].fs.IsDir(states[n].policy[i].root)
                        ==> states[LastScan(steps, n)].fs.IsDir(states[n].policy[i].root)
  {
    var s := states[n];
    forall i | 0 <= i < |s.policy| && s.fs.IsDir(s.policy[i].root)
      ensures s.policy[i].root in s.view.marks <==> states[LastScan(steps, n)].fs.IsDir(s.policy[i].root)
    {
      RecordedMeansScanned(states, steps, n, i);
      if s.policy[i].root in states[LastScan(steps, n)].fs.kinds {
        KindsStay(states, steps, LastScan(steps, n), n, s.policy[i].root);
      }
    }
  }

  // ---- Silence, 1: a failed reload after an overflow -----------------------

  const TOP: Path := ["/"]
  const ROOT: Path := ["/", "w"]
  const ADDED: Path := ["/", "w", "a"]
  const WHOLE_TREE: Watch := Watch(ROOT, exe => false, PromptAction, R.FileObject, false, path => false, [])
  const EMPTY_TREE: Fs := Fs(map[TOP := Directory, ROOT := Directory], {})
  const GROWN_TREE: Fs := Fs(map[TOP := Directory, ROOT := Directory, ADDED := Directory], {})
  const ALL_OK: Moment := Moment(EMPTY_TREE, path => true, path => true)

  lemma OnePolicyIsSafe(states: seq<State>)
    requires OnePolicy(states)
    ensures SafePolicies(states)
  {
    NonNestedIsSafe([WHOLE_TREE]);
  }

  lemma TreesAreReal()
    ensures EMPTY_TREE.WellFormed() && GROWN_TREE.WellFormed() && Grows(EMPTY_TREE, GROWN_TREE, ADDED)
    ensures GROWN_TREE.Reaches(WHOLE_TREE.excluded, ROOT, ADDED)
  {
    assert Parent(ROOT) == TOP && Parent(ADDED) == ROOT;
    assert ADDED[..3] == ADDED && GROWN_TREE.Enters(WHOLE_TREE.excluded, ADDED);
  }

  lemma ScanOfEmptyTree()
    ensures TreeDirs(EMPTY_TREE, [WHOLE_TREE]) == {ROOT}
    ensures ROOT in AllMarks(EMPTY_TREE, [WHOLE_TREE], ALL_OK.markOk)
    ensures ADDED !in AllMarks(EMPTY_TREE, [WHOLE_TREE], ALL_OK.markOk)
  {
    OnlyRoot(EMPTY_TREE, WHOLE_TREE);
    assert [WHOLE_TREE][..0] == [];
    assert TreeDirs(EMPTY_TREE, [WHOLE_TREE]) == TreeDirs(EMPTY_TREE, []) + ScanSet(EMPTY_TREE, WHOLE_TREE);
    AllMarksAt(EMPTY_TREE, [WHOLE_TREE], ALL_OK.markOk, 0, ROOT);
    AllMarksAt(EMPTY_TREE, [WHOLE_TREE], ALL_OK.markOk, 0, ADDED);
  }

  /** The states of the run: scanned, one event lost, reload requested, reload failed. */
  ghost function Scanned(reload: bool): View {
    var marks := AllMarks(EMPTY_TREE, [WHOLE_TREE], ALL_OK.markOk);
    View(marks, {} + Succeeded(marks.Keys, ALL_OK.markOk), true, map[0 := ROOT], reload)
  }

  const HANDLE_GROWN: Step := Handle(ALL_OK.(fs := GROWN_TREE))

  lemma StartsScanned()
    ensures Init(State(EMPTY_TREE, [WHOLE_TREE], Scanned(false), [], false), true, ALL_OK)
  {
    TreesAreReal();
    ScanOfEmptyTree();
    assert Scanned(false).wdMap[0] == ROOT;
    assert Succeeded({ROOT}, ALL_OK.watchOk) == {ROOT};
  }

  lemma LosesTheEvent()
    ensures Next(State(EMPTY_TREE, [WHOLE_TREE], Scanned(false), [], false), Create(ADDED, true),
                 LOST.(view := Scanned(false)))
  {
    TreesAreReal();
    assert Scanned(false).wdMap[0] == ROOT == Parent(ADDED);
  }

  lemma AsksForReload()
    ensures Next(LOST.(view := Scanned(false)), HANDLE_GROWN,
                 State(GROWN_TREE, [WHOLE_TREE], Scanned(true), [], true))
  {
    assert [Overflow][1..] == [];
  }

  lemma ScanWatchesRoot()
    ensures ROOT in Scanned(false).wdMap.Values
  {
    assert Scanned(false).wdMap[0] == ROOT;
  }

  ghost predicate OnePolicy(states: seq<State>) {
    forall n :: 0 <= n < |states| ==> states[n].policy == [WHOLE_TREE]
  }

  lemma LongerHere(states: seq<State>, steps: seq<Step>, s: State, step: Step, s': State)
    returns (states': seq<State>, steps': seq<Step>)
    requires IsRun(states, steps) && OnePolicy(states) && states[|steps|] == s
    requires Next(s, step, s') && s'.policy == [WHOLE_TREE]
    ensures IsRun(states', steps') && OnePolicy(states') && states'[|steps'|] == s'
  {
    states', steps' := LongerRun(states, steps, s, step, s');
  }

  lemma FreshRun() returns (states: seq<State>, steps: seq<Step>)
    ensures IsRun(states, steps) && OnePolicy(states)
    ensures states[|steps|] == State(EMPTY_TREE, [WHOLE_TREE], Scanned(false), [], false)
  {
    var scanned := State(EMPTY_TREE, [WHOLE_TREE], Scanned(false), [], false);
    StartsScanned();
    StartRun(scanned, true, ALL_OK);
    states, steps := [scanned], [];
  }

  const LOST := State(GROWN_TREE, [WHOLE_TREE], View(map[], {}, true, map[], false), [Overflow], true)

  lemma RunToLoss() returns (states: seq<State>, steps: seq<Step>)
    ensures IsRun(states, steps) && OnePolicy(states)
    ensures states[|steps|] == LOST.(view := Scanned(false))
  {
    states, steps := FreshRun();
    var s, s' := State(EMPTY_TREE, [WHOLE_TREE], Scanned(false), [], false), LOST.(view := Scanned(false));
    LosesTheEvent();
    states, steps := LongerHere(states, steps, s, Create(ADDED, true), s');
  }

  lemma RunToRequest() returns (states: seq<State>, steps: seq<Step>)
    ensures IsRun(states, steps) && OnePolicy(states)
    ensures states[|steps|] == State(GROWN_TREE, [WHOLE_TREE], Scanned(true), [], true)
  {
    states, steps := RunToLoss();
    var s' := State(GROWN_TREE, [WHOLE_TREE], Scanned(true), [], true);
    AsksForReload();
    states, steps := LongerHere(states, steps, LOST.(view := Scanned(false)), HANDLE_GROWN, s');
  }

  /** The premise about reloads is needed: the overflow handler only raises the
  reload flag, and a reload that finds a bad configuration clears it. */
  lemma FailedReloadHidesGap() returns (states: seq<State>, steps: seq<Step>)
    ensures IsRun(states, steps) && SafePolicies(states) && Settled(states, steps)
    ensures !HonestDump(states[|steps|]) && RootsRecorded(states[|steps|])
  {
    states, steps := RunToRequest();
    var s := states[|steps|];
    var silent := State(GROWN_TREE, [WHOLE_TREE], Scanned(false), [], true);
    ForgetsReload(s, silent);
    states, steps := LongerHere(states, steps, s, FailedReload, silent);
    OnePolicyIsSafe(states);
    SilentAtTheEnd(silent);
  }

  lemma ForgetsReload(s: State, s': State)
    requires s.view.reload && s' == s.(view := s.view.(reload := false))
    ensures Next(s, FailedReload, s')
  {
  }

  /** A governed entry of a watched root that is not recorded does not show. */
  lemma ChildIsSilent(s: State, i: nat, p: Path)
    requires i < |s.policy| && Governs(s, i, p)
    requires p != [] && Parent(p) == s.policy[i].root
    requires p !in s.view.marks && s.policy[i].root in s.view.wdMap.Values
    ensures !HonestDump(s)
  {
    var root := s.policy[i].root;
    forall k | |root| <= k < |p| ensures p[..k] == root {
    }
    assert !Reported(s, root, p);
  }

  lemma SilentAtTheEnd(s: State)
    requires s.fs == GROWN_TREE && s.policy == [WHOLE_TREE]
    requires s.view.marks == AllMarks(EMPTY_TREE, [WHOLE_TREE], ALL_OK.markOk)
    requires s.view.wdMap == Scanned(false).wdMap || ROOT in s.view.wdMap.Values
    ensures !HonestDump(s) && RootsRecorded(s)
  {
    TreesAreReal();
    ScanOfEmptyTree();
    ScanWatchesRoot();
    assert Governs(s, 0, ADDED);
    assert Parent(ADDED) == ROOT;
    ChildIsSilent(s, 0, ADDED);
  }

  lemma OnlyRoot(fs: Fs, w: Watch)
    requires w.Recursive() && forall p :: p in fs.kinds && w.root <= p ==> p == w.root
    ensures ScanSet(fs, w) == {w.root}
  {
    forall p | fs.Reaches(w.excluded, w.root, p) ensures p == w.root {
      if p != w.root {
        ReachedIsEntered(fs, w.excluded, w.root, p);
      }
    }
  }

  // ---- Silence, 2: a root that comes into existence ------------------------

  const BARE_TREE: Fs := Fs(map[TOP := Directory], {})

  const NO_ROOT_YET: State := State(BARE_TREE, [WHOLE_TREE], View(map[], {}, true, map[], false), [], false)

  lemma NothingToScan()
    ensures Init(NO_ROOT_YET, true, ALL_OK.(fs := BARE_TREE))
  {
    assert [WHOLE_TREE][..0] == [];
    assert AllMarks(BARE_TREE, [], ALL_OK.markOk) == map[];
    assert WatchMarks(BARE_TREE, WHOLE_TREE, ALL_OK.markOk) == map[];
    assert AllMarks(BARE_TREE, [WHOLE_TREE], ALL_OK.markOk) == map[] + map[];
    assert Succeeded({}, ALL_OK.markOk) == {} && Succeeded({}, ALL_OK.watchOk) == {};
    assert TreeDirs(BARE_TREE, [WHOLE_TREE]) == {};
  }

  lemma RootAppears()
    ensures Next(NO_ROOT_YET, Create(ROOT, false), NO_ROOT_YET.(fs := EMPTY_TREE))
  {
    assert Parent(ROOT) == TOP;
  }

  /** The premise about roots is needed: a root that appears after the scan is
  neither marked nor watched, nothing is reported, and nothing is pending. */
  lemma LateRootIsSilent() returns (states: seq<State>, steps: seq<Step>)
    ensures IsRun(states, steps) && SafePolicies(states)
    ensures LossesRepaired(states, steps) && Settled(states, steps)
    ensures states[|steps|].view.marks == map[]
    ensures states[|steps|].policy == [WHOLE_TREE] && Governs(states[|steps|], 0, ROOT)
    ensures !HonestDump(states[|steps|])
  {
    NothingToScan();
    RootAppears();
    states := [NO_ROOT_YET, NO_ROOT_YET.(fs := EMPTY_TREE)];
    steps := [Create(ROOT, false)];
    OnePolicyIsSafe(states);
    assert Governs(states[1], 0, ROOT) && !Reported(states[1], ROOT, ROOT);
  }

  // ---- Silence, 3: the two scans of a reload -------------------------------

  /** `mark_all` scans `fs0`, the new `TreeWatch` scans the file system of `s`.  Even
  if every watch is placed, all governed directories are reported iff every one
  was already reachable from a root directory in the first scan. */
  lemma TwoScansRace(fs0: Fs, s: State, markOk: Path -> bool)
    requires NonNested(s.policy)
    requires forall p :: p in fs0.kinds ==> p in s.fs.kinds && s.fs.kinds[p] == fs0.kinds[p]
    requires s.view.marks == AllMarks(fs0, s.policy, markOk)
    requires s.view.wdMap.Values == TreeDirs(s.fs, s.policy)
    ensures AllReported(s) <==>
            forall i, p :: 0 <= i < |s.policy| && Governs(s, i, p) ==>
              fs0.IsDir(s.policy[i].root) && fs0.Reaches(s.policy[i].excluded, s.policy[i].root, p)
  {
    forall i, p | 0 <= i < |s.policy| && Governs(s, i, p)
      ensures Reported(s, s.policy[i].root, p)
              <==> fs0.IsDir(s.policy[i].root) && fs0.Reaches(s.policy[i].excluded, s.policy[i].root, p)
    {
      AllMarksAt(fs0, s.policy, markOk, i, p);
      ReportedMeansRecorded(s, i, p);
    }
  }

  lemma ReportedMeansRecorded(s: State, i: nat, p: Path)
    requires i < |s.policy| && Governs(s, i, p) && s.view.wdMap.Values == TreeDirs(s.fs, s.policy)
    ensures Reported(s, s.policy[i].root, p) <==> p in s.view.marks
  {
    var w := s.policy[i];
    forall k | |w.root| <= k < |p| ensures p[..k] in s.view.wdMap.Values {
      ReachesPrefix(s.fs, w.excluded, w.root, p, k);
      TreeDirsHas(s.fs, s.policy, i, p[..k]);
    }
  }

  lemma GrownTreeIsWatched()
    ensures TreeDirs(GROWN_TREE, [WHOLE_TREE]) == {ROOT, ADDED}
  {
    TreesAreReal();
    forall p | GROWN_TREE.Reaches(WHOLE_TREE.excluded, ROOT, p) ensures p in {ROOT, ADDED} {
      if p != ROOT {
        ReachedIsEntered(GROWN_TREE, WHOLE_TREE.excluded, ROOT, p);
      }
    }
    assert ScanSet(GROWN_TREE, WHOLE_TREE) == {ROOT, ADDED};
    assert [WHOLE_TREE][..0] == [];
    assert TreeDirs(GROWN_TREE, [WHOLE_TREE]) == TreeDirs(GROWN_TREE, []) + ScanSet(GROWN_TREE, WHOLE_TREE);
  }

  /** The race at work: one directory appears between the two scans. */
  lemma RaceHidesDirectory() returns (s: State)
    ensures s.fs == GROWN_TREE && s.policy == [WHOLE_TREE] && s.queue == [] && !s.view.reload
    ensures s.view.marks == AllMarks(EMPTY_TREE, s.policy, ALL_OK.markOk)
    ensures s.view.wdMap.Values == Succeeded(TreeDirs(GROWN_TREE, s.policy), ALL_OK.watchOk)
    ensures !NoSilentGap(s) && !HonestDump(s)
  {
    var wdMap: map<nat, Path> := map[0 := ROOT, 1 := ADDED];
    s := State(GROWN_TREE, [WHOLE_TREE], Scanned(false).(wdMap := wdMap), [], false);
    assert wdMap[0] == ROOT && wdMap[1] == ADDED;
    GrownTreeIsWatched();
    SilentAtTheEnd(s);
    NotEvenAccounted(s);
  }

  lemma NotEvenAccounted(s: State)
    requires s.fs == GROWN_TREE && s.policy == [WHOLE_TREE] && s.queue == []
    requires s.view.marks == AllMarks(EMPTY_TREE, [WHOLE_TREE], ALL_OK.markOk) && ROOT in s.view.wdMap.Values
    ensures !NoSilentGap(s)
  {
    TreesAreReal();
    ScanOfEmptyTree();
    assert Tracks(s, 0, ADDED);
    forall k | |ROOT| <= k < |ADDED| ensures ADDED[..k] == ROOT {
    }
    assert !Accounted(s, ROOT, ADDED);
    SilentAtTheEnd(s);
    NoRootMissing(s, ADDED);
  }
}
