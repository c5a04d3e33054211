/** Nested watches at odds: a new directory is routed to the first watch that covers
it, even if that watch excludes it and a later one does not. */
module NestedRoots {
  import opened Wrappers
  import opened FileSystem
  import opened Policy
  import R = Rules
  import opened Marking
  import opened Routing
  import opened Coverage
  import opened CoverageRuns

  const INNER_ROOT: Path := ["/", "w", "a"]
  const NEW_DIR: Path := ["/", "w", "a", "b"]

  /** The outer watch leaves the inner tree alone; the inner one guards all of it. */
  const OUTER: Watch :=
    Watch(ROOT, exe => false, PromptAction, R.FileObject, false, path => INNER_ROOT <= path, [])
  const INNER: Watch :=
    Watch(INNER_ROOT, exe => false, PromptAction, R.FileObject, false, path => false, [])
  const NESTED: Policy := [OUTER, INNER]

  const BEFORE: Fs := Fs(map[TOP := Directory, ROOT := Directory, INNER_ROOT := Directory], {})
  const AFTER: Fs :=
    Fs(map[TOP := Directory, ROOT := Directory, INNER_ROOT := Directory, NEW_DIR := Directory], {})

  const OK_BEFORE: Moment := Moment(BEFORE, path => true, path => true)
  const OK_AFTER: Moment := Moment(AFTER, path => true, path => true)

  const WATCHED: map<nat, Path> := map[0 := ROOT, 1 := INNER_ROOT]

  ghost function Scan(): View {
    var marks := AllMarks(BEFORE, NESTED, OK_BEFORE.markOk);
    View(marks, {} + Succeeded(marks.Keys, OK_BEFORE.markOk), true, WATCHED, false)
  }

  lemma TheTreesAreReal()
    ensures BEFORE.WellFormed() && Grows(BEFORE, AFTER, NEW_DIR)
    ensures AFTER.Reaches(INNER.excluded, INNER_ROOT, NEW_DIR)
  {
    assert Parent(ROOT) == TOP && Parent(INNER_ROOT) == ROOT && Parent(NEW_DIR) == INNER_ROOT;
    assert NEW_DIR[..4] == NEW_DIR && AFTER.Enters(INNER.excluded, NEW_DIR);
  }

  lemma BothRootsAreWatched()
    ensures TreeDirs(BEFORE, NESTED) == {ROOT, INNER_ROOT}
  {
    forall p | BEFORE.Reaches(OUTER.excluded, ROOT, p) ensures p == ROOT {
      if p != ROOT {
        ReachedIsEntered(BEFORE, OUTER.excluded, ROOT, p);
      }
    }
    assert ScanSet(BEFORE, OUTER) == {ROOT};
    OnlyRoot(BEFORE, INNER);
    assert NESTED[..1] == [OUTER] && NESTED[..1][..0] == [];
    assert TreeDirs(BEFORE, [OUTER]) == TreeDirs(BEFORE, []) + {ROOT};
    assert TreeDirs(BEFORE, NESTED) == TreeDirs(BEFORE, [OUTER]) + {INNER_ROOT};
  }

  lemma TheInnerRootIsRecorded()
    ensures INNER_ROOT in AllMarks(BEFORE, NESTED, OK_BEFORE.markOk)
    ensures NEW_DIR !in AllMarks(BEFORE, NESTED, OK_BEFORE.markOk)
  {
    assert INNER_ROOT in WatchMarks(BEFORE, INNER, OK_BEFORE.markOk);
    if NEW_DIR in AllMarks(BEFORE, NESTED, OK_BEFORE.markOk) {
      var i := MarkedByWatch(BEFORE, NESTED, OK_BEFORE.markOk, NEW_DIR);
      WatchMarksReal(BEFORE, NESTED[i], OK_BEFORE.markOk, NEW_DIR);
    }
  }

  lemma WatchedValues()
    ensures WATCHED.Values == {ROOT, INNER_ROOT} && Injective(WATCHED)
  {
    assert WATCHED[0] == ROOT && WATCHED[1] == INNER_ROOT;
  }

  lemma ScanIsFullMark()
    ensures FullMark(NESTED, true, OK_BEFORE, {}, State(BEFORE, NESTED, Scan(), [], false))
  {
    BothRootsAreWatched();
    WatchedValues();
    assert Succeeded({ROOT, INNER_ROOT}, OK_BEFORE.watchOk) == {ROOT, INNER_ROOT};
  }

  lemma TheEventIsQueued(queue: seq<InotifyEvent>)
    requires queue == [NewEntry(1, Some("b"), true)]
    ensures Next(State(BEFORE, NESTED, Scan(), [], false), Create(NEW_DIR, false),
                 State(AFTER, NESTED, Scan(), queue, false))
  {
    TheTreesAreReal();
    WatchedValues();
    assert WATCHED[1] == Parent(NEW_DIR) && Last(NEW_DIR) == "b";
    assert [] + [NewEntry(1, Some("b"), true)] == queue;
  }

  lemma TheOuterWatchTakesIt(queue: seq<InotifyEvent>)
    requires queue == [NewEntry(1, Some("b"), true)]
    ensures Next(State(AFTER, NESTED, Scan(), queue, false), Handle(OK_AFTER), State(AFTER, NESTED, Scan(), [], false))
  {
    assert WATCHED[1] + ["b"] == NEW_DIR;
    assert NESTED[0].Covers(NEW_DIR) && FirstCovering(NESTED, NEW_DIR) == Some(0);
    assert DirEntries({}, OUTER, OK_AFTER.markOk) == map[];
    assert Succeeded({}, OK_AFTER.markOk) == {};
    NothingAdded(Scan());
  }

  lemma NothingAdded(v: View)
    ensures Covered(OK_AFTER, OUTER, {}, v, v)
  {
    assert v.marks + DirEntries({}, OUTER, OK_AFTER.markOk) == v.marks;
    assert Succeeded({}, OK_AFTER.markOk) == {} && Succeeded({}, OK_AFTER.watchOk) == {};
  }

  /** With nested roots: nothing fails, nothing is lost, the queue is drained, and
  yet a directory that the inner watch governs is silently missing. */
  lemma NestedRootsHideGap() returns (s0: State, s1: State, s2: State)
    ensures FullMark(NESTED, true, OK_BEFORE, {}, s0) && s0.fs.WellFormed()
    ensures Next(s0, Create(NEW_DIR, false), s1) && Next(s1, Handle(OK_AFTER), s2)
    ensures s2.queue == [] && !s2.view.reload && !s2.dropped
    ensures !NonNested(NESTED) && !HonestDump(s2)
  {
    var queue := [NewEntry(1, Some("b"), true)];
    s0 := State(BEFORE, NESTED, Scan(), [], false);
    s1 := State(AFTER, NESTED, Scan(), queue, false);
    s2 := State(AFTER, NESTED, Scan(), [], false);
    TheTreesAreReal();
    ScanIsFullMark();
    TheEventIsQueued(queue);
    TheOuterWatchTakesIt(queue);
    assert NESTED[0].root <= NESTED[1].root;
    TheNewDirIsMissing(s2);
  }

  lemma TheInnerWatchGoverns(s: State)
    requires s.fs == AFTER && s.policy == NESTED && INNER_ROOT in s.view.marks
    ensures Governs(s, 1, NEW_DIR)
  {
    TheTreesAreReal();
    assert NESTED[1] == INNER;
  }

  lemma TheNewDirIsMissing(s: State)
    requires s.fs == AFTER && s.policy == NESTED
    requires s.view.marks == AllMarks(BEFORE, NESTED, OK_BEFORE.markOk) && s.view.wdMap == WATCHED
    ensures !HonestDump(s)
  {
    TheInnerRootIsRecorded();
    TheInnerWatchGoverns(s);
    WatchedValues();
    assert Parent(NEW_DIR) == INNER_ROOT == NESTED[1].root;
    ChildIsSilent(s, 1, NEW_DIR);
  }

  /** The inner watch governs the new directory, and the outer one stops at it. */
  lemma NestedIsUnsafe()
    ensures !SafeNesting(NESTED)
  {
    assert NESTED[0] == OUTER && NESTED[1] == INNER;
    assert NEW_DIR[..3] == INNER_ROOT && NEW_DIR[..4] == NEW_DIR && Parent(NEW_DIR) == INNER_ROOT;
    assert FirstCovering(NESTED, NEW_DIR) == Some(0);
    assert ScansTo(NESTED[1], INNER_ROOT);
    assert !RecursiveRoot(NESTED, NEW_DIR);
    assert Routed(NESTED, 1, 4, NEW_DIR);
  }

  const N: Path := ["/", "w", "n"]
  const N_A: Path := ["/", "w", "n", "a"]
  const N_A_B: Path := ["/", "w", "n", "a", "b"]

  /** An inner watch that excludes a directory above its own root, and an outer one that
  excludes one below it. */
  const DEEP: Watch := Watch(N_A, exe => false, PromptAction, R.FileObject, false, path => path == N, [])
  const WIDE: Watch := Watch(ROOT, exe => false, PromptAction, R.FileObject, false, path => path == N_A_B, [])

  /** It is not enough that neither watch excludes, below the other's root and below a
  new directory, what the other keeps there: here the tree moves in above both. */
  lemma MovedInAboveIsUnsafe()
    ensures !SafeNesting([DEEP, WIDE])
  {
    var policy := [DEEP, WIDE];
    assert policy[0] == DEEP && policy[1] == WIDE;
    assert N_A_B[..2] == ROOT && N_A_B[..3] == N && N_A_B[..4] == N_A && N_A_B[..5] == N_A_B;
    assert Parent(N_A_B) == N_A && N_A[..3] == N && N_A[..4] == N_A;
    assert FirstCovering(policy, N) == Some(1);
    assert ScansTo(policy[1], ROOT) && Watchable(policy, ROOT);
    assert !RecursiveRoot(policy, N_A_B);
    assert Routed(policy, 0, 3, N_A_B);
  }

  // ---- Which watch an entry names ------------------------------------------

  /** Watch `i` scans `p`, and no later watch does. */
  ghost predicate LastScans(fs: Fs, policy: Policy, markOk: Path -> bool, i: nat, p: Path) {
    && i < |policy| && p in WatchMarks(fs, policy[i], markOk)
    && forall j :: i < j < |policy| ==> p !in WatchMarks(fs, policy[j], markOk)
  }

  /** A full scan takes the entry of the last watch that scans a path. */
  lemma {:induction false} LastScannerWins(fs: Fs, policy: Policy, markOk: Path -> bool, i: nat, p: Path)
    requires LastScans(fs, policy, markOk, i, p)
    ensures p in AllMarks(fs, policy, markOk) && AllMarks(fs, policy, markOk)[p] == WatchMarks(fs, policy[i], markOk)[p]
    decreases |policy|
  {
    if i < |policy| - 1 {
      LastScannerWins(fs, policy[..|policy| - 1], markOk, i, p);
    }
  }

  /** The entry that live marking gives a new directory is the one of a full scan iff
  the first watch that covers the announced one and the last watch that scans this
  one agree on root and recursion. */
  lemma TakenEntryIff(s: State, s': State, m: Moment, newDir: Path, i: nat, p: Path)
    requires Next(s, Handle(m), s') && Announced(s.policy, s.view.wdMap, s.queue[0]) == Some(newDir)
    requires var c := s.policy[FirstCovering(s.policy, newDir).value];
             !c.excluded(newDir) && s.fs.Reaches(c.excluded, newDir, p)
    requires LastScans(s.fs, s.policy, m.markOk, i, p) && s.fs.IsDir(p)
    ensures var c := s.policy[FirstCovering(s.policy, newDir).value];
            && p in s'.view.marks && p in AllMarks(s.fs, s.policy, m.markOk)
            && (s'.view.marks[p] == AllMarks(s.fs, s.policy, m.markOk)[p]
                <==> c.root == s.policy[i].root && c.Recursive() == s.policy[i].Recursive())
  {
    LastScannerWins(s.fs, s.policy, m.markOk, i, p);
    WatchMarksReal(s.fs, s.policy[i], m.markOk, p);
  }

  /** Two watches that agree on everything, and yet the live entry names the outer one
  and that of the next full scan the inner one. */
  lemma NestedEntriesDiffer()
    ensures FirstCovering([WHOLE_TREE, INNER], NEW_DIR) == Some(0)
    ensures LastScans(AFTER, [WHOLE_TREE, INNER], OK_AFTER.markOk, 1, NEW_DIR)
    ensures WHOLE_TREE.root != INNER.root
  {
    TheTreesAreReal();
    assert [WHOLE_TREE, INNER][0].Covers(NEW_DIR);
    assert ScanSet(AFTER, INNER) == AFTER.Reachable(INNER.excluded, INNER_ROOT);
  }
}
