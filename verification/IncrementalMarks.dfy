/** When the kernel refuses and loses nothing, live marking computes exactly what
a fresh full scan would. */
module IncrementalMarks {
  import opened Wrappers
  import opened FileSystem
  import opened Policy
  import opened Marking
  import opened Routing
  import opened Coverage

  const ALWAYS: Path -> bool := path => true

  ghost predicate AllOk(m: Moment) {
    forall p :: m.markOk(p) && m.watchOk(p)
  }

  /** Every directory that a recursive watch tracks can be listed. */
  ghost predicate Listable(s: State) {
    forall i, p :: 0 <= i < |s.policy| && s.policy[i].Recursive()
                   && s.fs.Reaches(s.policy[i].excluded, s.policy[i].root, p)
                   ==> p !in s.fs.unreadable
  }

  /** No event is lost, every mark and watch succeeds, every tracked directory can be
  listed, and watch roots are not nested. */
  ghost predicate Smooth(step: Step, s': State) {
    && Listable(s') && NonNested(s'.policy)
    && match step
       case Create(_, lost) => !lost
       case Handle(m) => AllOk(m)
       case Reload(_, initOk, m) => initOk && AllOk(m)
       case _ => true
  }

  /** Up to the n-th state the run is smooth. */
  ghost predicate SmoothTo(states: seq<State>, steps: seq<Step>, n: nat)
    requires n < |states| == |steps| + 1
  {
    if n == 0 then
      Listable(states[0]) && NonNested(states[0].policy) && exists m :: Init(states[0], true, m) && AllOk(m)
    else
      SmoothTo(states, steps, n - 1) && Next(states[n - 1], steps[n - 1], states[n]) && Smooth(steps[n - 1], states[n])
  }

  ghost predicate SmoothRun(states: seq<State>, steps: seq<Step>) {
    |states| == |steps| + 1 && SmoothTo(states, steps, |steps|)
  }

  /** The entry of every recorded path is the one a full scan would give it. */
  ghost predicate OwnEntry(s: State, p: Path)
    requires p in s.view.marks
  {
    exists i :: 0 <= i < |s.policy|
                && p in WatchMarks(s.fs, s.policy[i], ALWAYS)
                && s.view.marks[p] == WatchMarks(s.fs, s.policy[i], ALWAYS)[p]
  }

  ghost predicate Live(v: View, p: Path) {
    p in v.marks && v.marks[p].kind.DirObj? && v.marks[p].recursive
  }

  ghost predicate Exact(s: State) {
    && s.view.alive && Listable(s) && NonNested(s.policy) && !s.dropped
    && Overflow !in s.queue
    && (forall p :: p in s.view.marks ==> OwnEntry(s, p))
    && (forall p :: p in s.view.wdMap.Values <==> Live(s.view, p))
  }

  /** The watch a recorded path belongs to. */
  lemma Owner(s: State, p: Path) returns (i: nat)
    requires p in s.view.marks && OwnEntry(s, p)
    ensures i < |s.policy| && s.policy[i].root <= p
    ensures p in WatchMarks(s.fs, s.policy[i], ALWAYS)
    ensures s.view.marks[p] == WatchMarks(s.fs, s.policy[i], ALWAYS)[p]
  {
    i :| 0 <= i < |s.policy|
         && p in WatchMarks(s.fs, s.policy[i], ALWAYS)
         && s.view.marks[p] == WatchMarks(s.fs, s.policy[i], ALWAYS)[p];
  }

  /** What the entry of a live directory says about its watch. */
  lemma LiveEntry(fs: Fs, w: Watch, p: Path)
    requires p in WatchMarks(fs, w, ALWAYS)
    ensures var e := WatchMarks(fs, w, ALWAYS)[p];
            e.kind.DirObj? && e.recursive <==> w.Recursive() && fs.IsDir(w.root)
    ensures w.Recursive() && fs.IsDir(w.root) ==> fs.Reaches(w.excluded, w.root, p)
  {
  }

  // -- the full scan

  lemma {:induction false} SameOracle(fs: Fs, policy: Policy, markOk: Path -> bool)
    requires forall p :: markOk(p)
    ensures AllMarks(fs, policy, markOk) == AllMarks(fs, policy, ALWAYS)
    decreases |policy|
  {
    if policy != [] {
      var w := policy[|policy| - 1];
      SameOracle(fs, policy[..|policy| - 1], markOk);
      assert DirEntries(ScanSet(fs, w), w, markOk) == DirEntries(ScanSet(fs, w), w, ALWAYS);
      assert WatchMarks(fs, w, markOk) == WatchMarks(fs, w, ALWAYS);
    }
  }

  lemma FullMarkIsExact(policy: Policy, m: Moment, fan: set<Path>, s': State)
    requires NonNested(policy) && AllOk(m) && Listable(s')
    requires FullMark(policy, true, m, fan, s')
    ensures Exact(s')
  {
    SameOracle(m.fs, policy, m.markOk);
    forall p | p in s'.view.marks ensures OwnEntry(s', p) {
      var i := MarkedByWatch(m.fs, policy, ALWAYS, p);
    }
    forall p ensures p in s'.view.wdMap.Values <==> Live(s'.view, p) {
      FullMarkWatches(policy, m, fan, s', p);
    }
  }

  lemma FullMarkWatches(policy: Policy, m: Moment, fan: set<Path>, s': State, p: Path)
    requires NonNested(policy) && AllOk(m)
    requires FullMark(policy, true, m, fan, s')
    ensures p in s'.view.wdMap.Values <==> Live(s'.view, p)
  {
    if p in TreeDirs(m.fs, policy) {
      var i := TreeDirFrom(m.fs, policy, p);
      AllMarksAt(m.fs, policy, m.markOk, i, p);
    }
    if Live(s'.view, p) {
      var i := MarkedByWatch(m.fs, policy, m.markOk, p);
      TreeDirsHas(m.fs, policy, i, p);
    }
  }

  // -- creation

  lemma WatchMarksGrow(fs: Fs, fs': Fs, q: Path, w: Watch, p: Path)
    requires Grows(fs, fs', q)
    requires p in WatchMarks(fs, w, ALWAYS)
    ensures p in WatchMarks(fs', w, ALWAYS) && WatchMarks(fs', w, ALWAYS)[p] == WatchMarks(fs, w, ALWAYS)[p]
  {
    if fs.Reaches(w.excluded, w.root, p) {
      forall k | |w.root| < k <= |p| ensures fs'.Enters(w.excluded, p[..k]) {
        assert fs.Enters(w.excluded, p[..k]);
      }
    }
  }

  lemma CreateStaysExact(s: State, s': State, q: Path)
    requires Exact(s) && Next(s, Create(q, false), s') && Listable(s')
    ensures Exact(s')
  {
    forall p | p in s'.view.marks ensures OwnEntry(s', p) {
      var i := Owner(s, p);
      WatchMarksGrow(s.fs, s'.fs, q, s.policy[i], p);
    }
    assert forall j :: 0 <= j < |s.queue| ==> s.queue[j] in s.queue && s'.queue[j] == s.queue[j];
  }

  // -- handling an event

  /** The directory an event announces lies in the tree of the watch that covers it. */
  lemma NewDirIsInTree(s: State, dir: Path, newDir: Path, i: nat)
    requires NonNested(s.policy) && Listable(s)
    requires Live(s.view, dir) && OwnEntry(s, dir)
    requires newDir != [] && Parent(newDir) == dir && s.fs.IsDir(dir) && s.fs.IsDir(newDir)
    requires FirstCovering(s.policy, newDir) == Some(i)
    ensures var w := s.policy[i];
            && w.Recursive() && s.fs.IsDir(w.root)
            && (!w.excluded(newDir) ==> s.fs.Reaches(w.excluded, w.root, newDir))
  {
    var j := Owner(s, dir);
    var w := s.policy[j];
    LiveEntry(s.fs, w, dir);
    PrefixTransitive(w.root, dir, newDir);
    OnlyCovering(s.policy, newDir, j);
    if !w.excluded(newDir) {
      ReachesStep(s.fs, w.excluded, w.root, newDir);
    }
  }

  lemma AnnouncedIsInTree(s: State, newDir: Path, i: nat)
    requires Inv(s) && Exact(s) && s.queue != []
    requires Announced(s.policy, s.view.wdMap, s.queue[0]) == Some(newDir)
    requires FirstCovering(s.policy, newDir) == Some(i)
    ensures var w := s.policy[i];
            && w.Recursive() && s.fs.IsDir(w.root)
            && (!w.excluded(newDir) ==> s.fs.Reaches(w.excluded, w.root, newDir))
  {
    var dir := s.view.wdMap[s.queue[0].wd];
    assert dir in s.view.wdMap.Values && Live(s.view, dir);
    assert dir != [] && newDir != [] && Parent(newDir) == dir;
    NewDirIsInTree(s, dir, newDir, i);
  }

  lemma StillNoOverflow(queue: seq<InotifyEvent>)
    requires queue != [] && Overflow !in queue
    ensures Overflow !in queue[1..]
  {
  }

  lemma HandleStaysExact(s: State, s': State, m: Moment)
    requires Inv(s) && Exact(s) && Next(s, Handle(m), s') && AllOk(m)
    ensures Exact(s')
  {
    StillNoOverflow(s.queue);
    match Announced(s.policy, s.view.wdMap, s.queue[0]) {
      case None =>
        SameEntries(s, s');
      case Some(newDir) =>
        var i := FirstCovering(s.policy, newDir).value;
        AnnouncedIsInTree(s, newDir, i);
        NewEntriesAreLive(s, s', m, newDir, i);
    }
  }

  lemma SameEntries(s: State, s': State)
    requires s'.fs == s.fs && s'.policy == s.policy && s'.view == s.view.(reload := s'.view.reload)
    ensures forall p :: p in s.view.marks && OwnEntry(s, p) ==> OwnEntry(s', p)
    ensures forall p :: Live(s.view, p) <==> Live(s'.view, p)
  {
    forall p | p in s.view.marks && OwnEntry(s, p) ensures OwnEntry(s', p) {
      var i := Owner(s, p);
    }
  }

  lemma NewEntriesAreLive(s: State, s': State, m: Moment, newDir: Path, i: nat)
    requires Exact(s) && s'.fs == s.fs && s'.policy == s.policy && AllOk(m)
    requires i < |s.policy| && s.policy[i].Recursive() && s.fs.IsDir(s.policy[i].root)
    requires !s.policy[i].excluded(newDir) ==> s.fs.Reaches(s.policy[i].excluded, s.policy[i].root, newDir)
    requires Covered(m, s.policy[i],
                     if s.policy[i].excluded(newDir) then {} else s.fs.Reachable(s.policy[i].excluded, newDir),
                     s.view, s'.view)
    ensures forall p :: p in s'.view.marks ==> OwnEntry(s', p)
    ensures forall p :: p in s'.view.wdMap.Values <==> Live(s'.view, p)
  {
    var w := s.policy[i];
    var dirs := if w.excluded(newDir) then {} else s.fs.Reachable(w.excluded, newDir);
    forall p | p in dirs ensures s.fs.Reaches(w.excluded, w.root, p) {
      PrefixTransitive(w.root, newDir, p);
      ReachesSplit(s.fs, w.excluded, w.root, newDir, p);
    }
    MarkedStayOwn(s, s', m, i, dirs);
    assert Succeeded(dirs, m.watchOk) == dirs;
    LiveAndWatched(s.view, s'.view, w, dirs, m.markOk);
  }

  lemma LiveAndWatched(v: View, v': View, w: Watch, dirs: set<Path>, markOk: Path -> bool)
    requires w.Recursive() && forall p :: p in v.wdMap.Values <==> Live(v, p)
    requires v'.marks == v.marks + DirEntries(dirs, w, markOk) && v'.wdMap.Values == v.wdMap.Values + dirs
    ensures forall p :: p in v'.wdMap.Values <==> Live(v', p)
  {
  }

  lemma MarkedStayOwn(s: State, s': State, m: Moment, i: nat, dirs: set<Path>)
    requires s'.fs == s.fs && s'.policy == s.policy && AllOk(m)
    requires forall p :: p in s.view.marks ==> OwnEntry(s, p)
    requires i < |s.policy| && s.policy[i].Recursive() && s.fs.IsDir(s.policy[i].root)
    requires forall p :: p in dirs ==> s.fs.Reaches(s.policy[i].excluded, s.policy[i].root, p)
    requires s'.view.marks == s.view.marks + DirEntries(dirs, s.policy[i], m.markOk)
    ensures forall p :: p in s'.view.marks ==> OwnEntry(s', p)
  {
    forall p | p in s'.view.marks ensures OwnEntry(s', p) {
      if p in dirs {
        assert p in WatchMarks(s'.fs, s.policy[i], ALWAYS);
      } else {
        var j := Owner(s, p);
      }
    }
  }

  // -- runs

  lemma NextStaysExact(s: State, step: Step, s': State)
    requires Inv(s) && Exact(s) && Next(s, step, s') && Smooth(step, s')
    ensures Exact(s')
  {
    match step {
      case Create(p, lost) => CreateStaysExact(s, s', p);
      case Handle(m) => HandleStaysExact(s, s', m);
      case Reload(policy, initOk, m) => FullMarkIsExact(policy, m, s.view.fan, s');
      case _ =>
        SameEntries(s, s');
    }
  }

  lemma SmoothStep(s: State, step: Step, s': State)
    requires Inv(s) && Exact(s) && Next(s, step, s') && Smooth(step, s')
    ensures Inv(s') && Exact(s')
  {
    NonNestedIsSafe(s'.policy);
    NextKeeps(s, step, s');
    NextStaysExact(s, step, s');
  }

  lemma SmoothStart(s: State, m: Moment)
    requires Init(s, true, m) && AllOk(m) && Listable(s) && NonNested(s.policy)
    ensures Inv(s) && Exact(s)
  {
    NonNestedIsSafe(s.policy);
    FullMarkKeeps(s.policy, true, m, {}, s);
    FullMarkIsExact(s.policy, m, {}, s);
  }

  lemma {:induction false} SmoothIsExact(states: seq<State>, steps: seq<Step>, n: nat)
    requires n < |states| == |steps| + 1 && SmoothTo(states, steps, n)
    ensures Inv(states[n]) && Exact(states[n])
  {
    if n == 0 {
      var m :| Init(states[0], true, m) && AllOk(m);
      SmoothStart(states[0], m);
    } else {
      SmoothIsExact(states, steps, n - 1);
      SmoothStep(states[n - 1], steps[n - 1], states[n]);
    }
  }

  lemma SmoothOneBefore(states: seq<State>, steps: seq<Step>, m: nat, before: nat)
    requires m < |states| == |steps| + 1 && before + 1 == m
    ensures SmoothTo(states, steps, m) ==> SmoothTo(states, steps, before)
  {
  }

  lemma {:induction false} SmoothBefore(states: seq<State>, steps: seq<Step>, n: nat, m: nat)
    requires n <= m < |states| == |steps| + 1 && SmoothTo(states, steps, m)
    ensures SmoothTo(states, steps, n)
    decreases m
  {
    if n < m {
      var before: nat := m - 1;
      SmoothOneBefore(states, steps, m, before);
      SmoothBefore(states, steps, n, before);
    }
  }

  lemma SmoothRunIsExact(states: seq<State>, steps: seq<Step>, n: nat)
    requires SmoothRun(states, steps) && n < |states|
    ensures Inv(states[n]) && Exact(states[n])
  {
    SmoothBefore(states, steps, n, |steps|);
    SmoothIsExact(states, steps, n);
  }

  /** Every root that a scan would resolve now was resolved by the last full scan. */
  ghost predicate RootsResolved(s: State) {
    forall i :: 0 <= i < |s.policy| && s.policy[i].root in s.fs.kinds && !s.fs.kinds[s.policy[i].root].Special?
                ==> s.policy[i].root in s.view.marks
  }

  lemma ScannedIsRecorded(s: State, i: nat, p: Path)
    requires NonNested(s.policy) && s.queue == []
    requires forall q :: q in s.view.marks ==> OwnEntry(s, q)
    requires forall q :: Live(s.view, q) ==> q in s.view.wdMap.Values
    requires i < |s.policy| && Tracks(s, i, p) && s.fs.IsDir(s.policy[i].root)
    requires Accounted(s, s.policy[i].root, p)
    ensures p in s.view.marks
  {
    var w := s.policy[i];
    if UnwatchedAbove(s.view, w.root, p) {
      var k :| |w.root| <= k < |p| && p[..k] in s.view.marks && p[..k] !in s.view.wdMap.Values;
      var j := Owner(s, p[..k]);
      PrefixesComparable(w.root, s.policy[j].root, p[..k]);
      LiveEntry(s.fs, s.policy[j], p[..k]);
    }
  }

  lemma NoneMissing(s: State, p: Path)
    requires RootsResolved(s)
    ensures !RootMissing(s, p)
  {
  }

  lemma AllScannedIsRecorded(s: State, p: Path)
    requires Inv(s) && Exact(s) && s.queue == [] && RootsResolved(s)
    requires p in AllMarks(s.fs, s.policy, ALWAYS)
    ensures p in s.view.marks
  {
    var i := MarkedByWatch(s.fs, s.policy, ALWAYS, p);
    if s.fs.IsDir(s.policy[i].root) && s.policy[i].Recursive() {
      assert Tracks(s, i, p);
      NoneMissing(s, p);
      ScannedIsRecorded(s, i, p);
    }
  }

  lemma RecordedIsScanned(s: State, p: Path)
    requires NonNested(s.policy) && p in s.view.marks && OwnEntry(s, p)
    ensures p in AllMarks(s.fs, s.policy, ALWAYS) && s.view.marks[p] == AllMarks(s.fs, s.policy, ALWAYS)[p]
  {
    var i := Owner(s, p);
    AllMarksAt(s.fs, s.policy, ALWAYS, i, p);
  }

  lemma EntryIsFull(s: State, full: Marks, p: Path)
    requires Inv(s) && Exact(s) && s.queue == [] && RootsResolved(s) && full == AllMarks(s.fs, s.policy, ALWAYS)
    ensures p in full <==> p in s.view.marks
    ensures p in full ==> full[p] == s.view.marks[p]
  {
    if p in full {
      AllScannedIsRecorded(s, p);
    }
    if p in s.view.marks {
      RecordedIsScanned(s, p);
    }
  }

  lemma SameMarks(a: Marks, b: Marks)
    requires forall p :: (p in a <==> p in b) && (p in a ==> a[p] == b[p])
    ensures a == b
  {
  }

  lemma ResolvedIsFull(s: State)
    requires Inv(s) && Exact(s) && s.queue == [] && RootsResolved(s)
    ensures s.view.marks == AllMarks(s.fs, s.policy, ALWAYS)
  {
    var full := AllMarks(s.fs, s.policy, ALWAYS);
    forall p ensures (p in full <==> p in s.view.marks) && (p in full ==> full[p] == s.view.marks[p]) {
      EntryIsFull(s, full, p);
    }
    SameMarks(full, s.view.marks);
  }

  lemma FullIsResolved(s: State, i: nat)
    requires NonNested(s.policy) && s.view.marks == AllMarks(s.fs, s.policy, ALWAYS)
    requires i < |s.policy| && s.policy[i].root in s.fs.kinds && !s.fs.kinds[s.policy[i].root].Special?
    ensures s.policy[i].root in s.view.marks
  {
    AllMarksAt(s.fs, s.policy, ALWAYS, i, s.policy[i].root);
    assert s.fs.Reaches(s.policy[i].excluded, s.policy[i].root, s.policy[i].root);
  }

  /** Main theorem: after any smooth run that has drained its queue, the record
  equals, entry by entry, that of a fresh `mark_all` if and only if no watch root
  has come into existence since the last one; and exactly the directories
  recorded under recursive watches are watched. */
  lemma IncrementalEqualsFull(states: seq<State>, steps: seq<Step>)
    requires SmoothRun(states, steps) && states[|steps|].queue == []
    ensures var s := states[|steps|];
            && (s.view.marks == AllMarks(s.fs, s.policy, ALWAYS) <==> RootsResolved(s))
            && (forall p :: p in s.view.wdMap.Values <==> Live(s.view, p))
  {
    SmoothRunIsExact(states, steps, |steps|);
    var s := states[|steps|];
    if RootsResolved(s) {
      ResolvedIsFull(s);
    }
    if s.view.marks == AllMarks(s.fs, s.policy, ALWAYS) {
      forall i | 0 <= i < |s.policy| && s.policy[i].root in s.fs.kinds && !s.fs.kinds[s.policy[i].root].Special?
        ensures s.policy[i].root in s.view.marks
      {
        FullIsResolved(s, i);
      }
    }
  }

  /** The dump row of `p` admits no gap: `p` is really marked, belongs to a watch
  whose root lies at or above it, and a directory is live iff its watch recurses. */
  ghost predicate RowAdmitsNoGap(s: State, p: Path)
    requires p in s.view.marks
  {
    var row := BuildDump(s.view.marks, s.view.wdMap.Values)[p];
    && row.fanotify && p in s.view.fan && row.watch <= p
    && row.liveMarked == (if row.kind.DirObj? then Some(row.recursive) else None)
  }

  lemma RowOfExactState(s: State, p: Path)
    requires Inv(s) && Exact(s) && p in s.view.marks
    ensures RowAdmitsNoGap(s, p)
  {
    var i := Owner(s, p);
    assert Live(s.view, p) <==> p in s.view.wdMap.Values;
  }

  /** At every point of a smooth run, no row of the dump admits a gap. */
  lemma SmoothDumpShowsNoGap(states: seq<State>, steps: seq<Step>, n: nat)
    requires SmoothRun(states, steps) && n < |states|
    ensures forall p :: p in states[n].view.marks ==> RowAdmitsNoGap(states[n], p)
  {
    SmoothRunIsExact(states, steps, n);
    forall p | p in states[n].view.marks ensures RowAdmitsNoGap(states[n], p) {
      RowOfExactState(states[n], p);
    }
  }
}
