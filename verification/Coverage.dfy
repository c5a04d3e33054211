/** Mark coverage over whole runs: a growing file system, lossy kernel queues,
failing marks and watches, live marking, and reloads. */
module Coverage {
  import opened Wrappers
  import opened FileSystem
  import opened Policy
  import opened Marking
  import opened Routing

  /** `dropped` is a history variable: since the last full re-mark the kernel has
  thrown an event away, so a full re-mark is owed. */
  datatype State = State(fs: Fs, policy: Policy, view: View, queue: seq<InotifyEvent>, dropped: bool)

  datatype Step =
    | Create(path: Path, lost: bool)
    | Handle(m: Moment)
    | Raise
    | Reload(policy: Policy, initOk: bool, m: Moment)
    | FailedReload

  /** `fs'` is `fs` with `p`, possibly a populated directory, created or moved in. */
  ghost predicate Grows(fs: Fs, fs': Fs, p: Path) {
    && fs'.WellFormed()
    && |p| > 1 && p !in fs.kinds && p in fs'.kinds && fs.IsDir(Parent(p))
    && (forall q :: q in fs.kinds ==> q in fs'.kinds && fs'.kinds[q] == fs.kinds[q])
    && (forall q :: q in fs.kinds ==> (q in fs.unreadable <==> q in fs'.unreadable))
    && (forall q :: q in fs'.kinds && q !in fs.kinds ==> p <= q)
  }

  /** The kernel queues an event only for a directory that is watched right then,
  and may lose it, leaving a notice in the queue.  When it does so is left open;
  in fact it does when the queue has reached its bound. */
  ghost predicate Notified(s: State, s': State, p: Path, lost: bool)
    requires p != []
  {
    if Parent(p) !in s.view.wdMap.Values then s'.queue == s.queue && s'.dropped == s.dropped
    else if lost then
      && (s'.queue == s.queue + [Overflow] || (s'.queue == s.queue && Overflow in s.queue))
      && s'.dropped
    else
      && s'.dropped == s.dropped
      && exists wd :: wd in s.view.wdMap && s.view.wdMap[wd] == Parent(p)
                      && s'.queue == s.queue + [NewEntry(wd, Some(Last(p)), s'.fs.IsDir(p))]
  }

  /** `mark_all` followed by a new `TreeWatch`, on one state of the file system. */
  ghost predicate FullMark(policy: Policy, initOk: bool, m: Moment, fan: set<Path>, s': State) {
    && s'.fs == m.fs && s'.policy == policy
    && s'.view.marks == AllMarks(m.fs, policy, m.markOk)
    && s'.view.fan == fan + Succeeded(s'.view.marks.Keys, m.markOk)
    && s'.view.alive == initOk
    && Injective(s'.view.wdMap)
    && s'.view.wdMap.Values == (if initOk then Succeeded(TreeDirs(m.fs, policy), m.watchOk) else {})
    && s'.queue == [] && !s'.dropped
  }

  /** The re-mark at start-up and after a reload. */
  method ReMark(fan: Fanotify, marks: MarkSet, reload: Flag, policy: Policy, initOk: bool, m: Moment)
    returns (tree: TreeWatch)
    modifies fan, marks
    ensures fresh(tree)
    ensures FullMark(policy, initOk, m, old(fan.marked), State(m.fs, policy, tree.Now(fan, marks, reload), [], false))
  {
    MarkAll(fan, m.fs, policy, marks, m.markOk);
    tree := new TreeWatch(initOk);
    tree.Build(m.fs, policy, m.watchOk);
  }

  ghost predicate Init(s: State, initOk: bool, m: Moment) {
    s.fs.WellFormed() && FullMark(s.policy, initOk, m, {}, s)
  }

  ghost predicate Next(s: State, step: Step, s': State) {
    match step
    case Create(p, lost) =>
      Grows(s.fs, s'.fs, p) && s'.policy == s.policy && s'.view == s.view && Notified(s, s', p, lost)
    case Handle(m) =>
      && s.queue != [] && m.fs == s.fs
      && HandlesEvent(s.policy, m, s.queue[0], s.view, s'.view)
      && s' == s.(view := s'.view, queue := s.queue[1..])
    case Raise => s' == s.(view := s.view.(reload := true))
    case Reload(policy, initOk, m) =>
      && s.view.reload && m.fs == s.fs
      && FullMark(policy, initOk, m, s.view.fan, s') && !s'.view.reload
    case FailedReload =>
      s.view.reload && s' == s.(view := s.view.(reload := false))
  }

  ghost predicate IsRun(states: seq<State>, steps: seq<Step>) {
    && |states| == |steps| + 1
    && (exists initOk, m :: Init(states[0], initOk, m))
    && forall i :: 0 <= i < |steps| ==> Next(states[i], steps[i], states[i + 1])
  }

  // ---- No silent gap -------------------------------------------------------

  /** A queued event announces the entry `p`. */
  ghost predicate Announces(wdMap: map<nat, Path>, ev: InotifyEvent, p: Path) {
    ev.NewEntry? && ev.name.Some? && ev.wd in wdMap && p == wdMap[ev.wd] + [ev.name.value]
  }

  /** A queued event announces a directory on the way from `root` to `p`. */
  ghost predicate PendingOn(wdMap: map<nat, Path>, ev: InotifyEvent, root: Path, p: Path) {
    && ev.NewEntry? && ev.isDir && ev.name.Some? && ev.wd in wdMap
    && root < wdMap[ev.wd] + [ev.name.value] <= p
  }

  /** `p` is recorded, or lies under a recorded directory that is not watched, or
  an event that will lead to it is pending. */
  ghost predicate Accounted(s: State, root: Path, p: Path) {
    || p in s.view.marks
    || UnwatchedAbove(s.view, root, p)
    || exists i :: 0 <= i < |s.queue| && PendingOn(s.view.wdMap, s.queue[i], root, p)
  }

  ghost predicate UnwatchedAbove(v: View, root: Path, p: Path) {
    exists k :: |root| <= k < |p| && p[..k] in v.marks && p[..k] !in v.wdMap.Values
  }

  /** A recursive watch that starts at or above `p` has not been found by a scan, nor
  has its root been taken by another watch. */
  ghost predicate RootMissing(s: State, p: Path) {
    exists k :: 0 <= k <= |p| && RecursiveRoot(s.policy, p[..k]) && s.fs.IsDir(p[..k]) && p[..k] !in s.view.marks
  }

  /** Every directory that a recursive watch with a recorded root tracks is accounted
  for, unless the root of another one is missing on the way. */
  ghost predicate NoSilentGap(s: State) {
    forall i, p :: 0 <= i < |s.policy| && Tracks(s, i, p) ==> Explained(s, i, p)
  }

  ghost predicate Explained(s: State, i: nat, p: Path)
    requires i < |s.policy|
  {
    Accounted(s, s.policy[i].root, p) || RootMissing(s, p)
  }

  /** `p` is a directory that the recursive watch `i` is meant to guard now. */
  ghost predicate Governs(s: State, i: nat, p: Path)
    requires i < |s.policy|
  {
    var w := s.policy[i];
    w.Recursive() && s.fs.IsDir(w.root) && s.fs.Reaches(w.excluded, w.root, p)
  }

  /** `p` is reachable from the root of the recursive watch `i`, whose root is recorded. */
  ghost predicate Tracks(s: State, i: nat, p: Path)
    requires i < |s.policy|
  {
    var w := s.policy[i];
    w.Recursive() && w.root in s.view.marks && s.fs.Reaches(w.excluded, w.root, p)
  }

  ghost predicate EventsReal(s: State) {
    forall i :: 0 <= i < |s.queue| && s.queue[i].NewEntry? ==>
      var ev := s.queue[i];
      && ev.wd in s.view.wdMap && ev.name.Some?
      && var p := s.view.wdMap[ev.wd] + [ev.name.value];
         p in s.fs.kinds && (ev.isDir <==> s.fs.IsDir(p))
  }

  /** Recorded paths exist, with their kind, and a mark reported as placed is placed. */
  ghost predicate MarksReal(s: State) {
    forall p :: p in s.view.marks ==>
      && p in s.fs.kinds
      && (s.view.marks[p].kind.FileObj? ==> !s.fs.IsDir(p))
      && (s.view.marks[p].ok ==> p in s.view.fan)
  }

  /** Watched directories are recorded, and the policy can lead there. */
  ghost predicate WatchesSound(s: State) {
    forall p :: p in s.view.wdMap.Values ==> p in s.view.marks && Watchable(s.policy, p)
  }

  /** Nothing at or below an announced entry is recorded yet. */
  ghost predicate PendingUnmarked(s: State) {
    forall j, q, p :: 0 <= j < |s.queue| && Announces(s.view.wdMap, s.queue[j], q) && p in s.view.marks ==> !(q <= p)
  }

  /** No announced entry lies at or below another one. */
  ghost predicate PendingApart(s: State) {
    forall j, k, q, r :: 0 <= j < |s.queue| && 0 <= k < |s.queue| && j != k
                         && Announces(s.view.wdMap, s.queue[j], q) && Announces(s.view.wdMap, s.queue[k], r)
                         ==> !(q <= r)
  }

  ghost predicate Inv(s: State) {
    && s.fs.WellFormed() && SafeNesting(s.policy)
    && EventsReal(s) && MarksReal(s) && WatchesSound(s) && PendingUnmarked(s) && PendingApart(s)
    && (s.dropped || NoSilentGap(s))
  }

  /** A lost event is not forgotten: the notice is queued or a reload is requested. */
  ghost predicate ReMarkOwed(s: State) {
    s.dropped ==> Overflow in s.queue || s.view.reload
  }

  // -- a full re-mark

  /** Under roots that are not nested, a path's entry is that of its own watch. */
  lemma {:induction false} AllMarksAt(fs: Fs, policy: Policy, markOk: Path -> bool, i: nat, p: Path)
    requires NonNested(policy) && i < |policy| && policy[i].root <= p
    ensures p in AllMarks(fs, policy, markOk) <==> p in WatchMarks(fs, policy[i], markOk)
    ensures p in AllMarks(fs, policy, markOk) ==>
              AllMarks(fs, policy, markOk)[p] == WatchMarks(fs, policy[i], markOk)[p]
    decreases |policy|
  {
    var n := |policy| - 1;
    if i == n {
      NotMarkedBefore(fs, policy, markOk, p);
    } else {
      AllMarksAt(fs, policy[..n], markOk, i, p);
      NotMarkedBy(fs, policy[i].root, policy[n], markOk, p);
    }
  }

  lemma NotMarkedBy(fs: Fs, root: Path, w: Watch, markOk: Path -> bool, p: Path)
    requires root <= p && !(root <= w.root) && !(w.root <= root)
    ensures p !in WatchMarks(fs, w, markOk)
  {
    if w.root <= p {
      PrefixesComparable(root, w.root, p);
    }
  }

  lemma NotMarkedBefore(fs: Fs, policy: Policy, markOk: Path -> bool, p: Path)
    requires NonNested(policy) && policy != [] && policy[|policy| - 1].root <= p
    ensures p !in AllMarks(fs, policy[..|policy| - 1], markOk)
  {
    var n := |policy| - 1;
    if p in AllMarks(fs, policy[..n], markOk) {
      var j := MarkedByWatch(fs, policy[..n], markOk, p);
      NotMarkedBy(fs, policy[n].root, policy[j], markOk, p);
    }
  }

  lemma {:induction false} MarkedByWatch(fs: Fs, policy: Policy, markOk: Path -> bool, p: Path) returns (i: nat)
    requires p in AllMarks(fs, policy, markOk)
    ensures i < |policy| && policy[i].root <= p && p in WatchMarks(fs, policy[i], markOk)
    ensures AllMarks(fs, policy, markOk)[p] == WatchMarks(fs, policy[i], markOk)[p]
    decreases |policy|
  {
    var n := |policy| - 1;
    if p in WatchMarks(fs, policy[n], markOk) {
      i := n;
    } else {
      i := MarkedByWatch(fs, policy[..n], markOk, p);
    }
  }

  lemma WatchMarksReal(fs: Fs, w: Watch, markOk: Path -> bool, p: Path)
    requires p in WatchMarks(fs, w, markOk)
    ensures p in fs.kinds && (WatchMarks(fs, w, markOk)[p].kind.FileObj? <==> !fs.IsDir(p))
    ensures WatchMarks(fs, w, markOk)[p].ok <==> markOk(p)
  {
    if fs.IsDir(w.root) && p != w.root {
      assert p[..|p|] == p;
    }
  }

  lemma FullMarkIsReal(policy: Policy, initOk: bool, m: Moment, fan: set<Path>, s': State)
    requires FullMark(policy, initOk, m, fan, s')
    ensures MarksReal(s')
  {
    forall p | p in s'.view.marks
      ensures p in s'.fs.kinds && (s'.view.marks[p].kind.FileObj? ==> !s'.fs.IsDir(p))
              && (s'.view.marks[p].ok ==> p in s'.view.fan)
    {
      var i := MarkedByWatch(m.fs, policy, m.markOk, p);
      WatchMarksReal(m.fs, policy[i], m.markOk, p);
    }
  }

  /** What one watch's scan records, the whole scan records. */
  lemma {:induction false} AllMarksHas(fs: Fs, policy: Policy, markOk: Path -> bool, i: nat, p: Path)
    requires i < |policy| && p in WatchMarks(fs, policy[i], markOk)
    ensures p in AllMarks(fs, policy, markOk)
    decreases |policy|
  {
    if i < |policy| - 1 {
      AllMarksHas(fs, policy[..|policy| - 1], markOk, i, p);
    }
  }

  /** A full scan records all that the resolved recursive watches govern. */
  lemma FullMarkRecords(policy: Policy, initOk: bool, m: Moment, fan: set<Path>, s': State, i: nat, p: Path)
    requires FullMark(policy, initOk, m, fan, s')
    requires i < |s'.policy| && Tracks(s', i, p)
    ensures p in s'.view.marks
  {
    var w := policy[i];
    if p != w.root {
      RootIsDir(m.fs, w, p);
      AllMarksHas(m.fs, policy, m.markOk, i, p);
    }
  }

  lemma RootIsDir(fs: Fs, w: Watch, p: Path)
    requires fs.Reaches(w.excluded, w.root, p) && p != w.root
    ensures fs.IsDir(w.root)
  {
    var first := p[..|w.root| + 1];
    assert fs.Enters(w.excluded, first);
    assert Parent(first) == w.root;
  }

  lemma {:induction false} TreeDirFrom(fs: Fs, policy: Policy, p: Path) returns (i: nat)
    requires p in TreeDirs(fs, policy)
    ensures i < |policy| && policy[i].Recursive() && fs.IsDir(policy[i].root) && p in ScanSet(fs, policy[i])
    decreases |policy|
  {
    var n := |policy| - 1;
    if p in TreeDirs(fs, policy[..n]) {
      i := TreeDirFrom(fs, policy[..n], p);
    } else {
      i := n;
    }
  }

  lemma {:induction false} TreeDirsHas(fs: Fs, policy: Policy, i: nat, p: Path)
    requires i < |policy| && policy[i].Recursive() && fs.IsDir(policy[i].root) && p in ScanSet(fs, policy[i])
    ensures p in TreeDirs(fs, policy)
    decreases |policy|
  {
    if i < |policy| - 1 {
      TreeDirsHas(fs, policy[..|policy| - 1], i, p);
    }
  }

  lemma ScannedIsWatchable(m: Moment, policy: Policy, p: Path)
    requires m.fs.WellFormed() && p in TreeDirs(m.fs, policy)
    ensures p in AllMarks(m.fs, policy, m.markOk) && Watchable(policy, p)
  {
    var i := TreeDirFrom(m.fs, policy, p);
    AllMarksHas(m.fs, policy, m.markOk, i, p);
    ReachedIsScanned(m.fs, policy[i], p, |p|);
    assert p[..|p|] == p && ScansTo(policy[i], p);
  }

  lemma FullMarkKeeps(policy: Policy, initOk: bool, m: Moment, fan: set<Path>, s': State)
    requires m.fs.WellFormed() && SafeNesting(policy) && FullMark(policy, initOk, m, fan, s')
    ensures Inv(s')
  {
    FullMarkIsReal(policy, initOk, m, fan, s');
    forall p | p in s'.view.wdMap.Values ensures p in s'.view.marks && Watchable(policy, p) {
      ScannedIsWatchable(m, policy, p);
    }
    forall i, p | 0 <= i < |s'.policy| && Tracks(s', i, p) ensures Explained(s', i, p) {
      FullMarkRecords(policy, initOk, m, fan, s', i, p);
    }
  }

  // -- creation

  /** What does not lie at or below the new entry is reachable as before. */
  lemma ReachesBefore(fs: Fs, fs': Fs, q: Path, excluded: Path -> bool, root: Path, p: Path)
    requires Grows(fs, fs', q) && !(q <= p) && fs'.Reaches(excluded, root, p)
    ensures fs.Reaches(excluded, root, p)
  {
    forall k | |root| < k <= |p| ensures fs.Enters(excluded, p[..k]) {
      var x := p[..k];
      assert fs'.Enters(excluded, x);
      NotAbove(q, p, k);
      NotAbove(q, x, k - 1);
    }
  }

  lemma NotAbove(q: Path, p: Path, k: nat)
    requires !(q <= p) && k <= |p|
    ensures !(q <= p[..k])
  {
  }

  lemma CreateKeepsAccount(s: State, s': State, q: Path, lost: bool, i: nat, p: Path)
    requires s.fs.WellFormed() && MarksReal(s) && NoSilentGap(s) && Next(s, Create(q, lost), s') && !s'.dropped
    requires i < |s.policy| && Tracks(s', i, p)
    ensures Explained(s', i, p)
  {
    var w := s.policy[i];
    assert s.queue <= s'.queue && forall j :: 0 <= j < |s.queue| ==> s'.queue[j] == s.queue[j];
    if !(q <= p) {
      ReachesBefore(s.fs, s'.fs, q, w.excluded, w.root, p);
      assert Tracks(s, i, p);
      MissingStays(s, s', p, p);
    } else {
      PrefixesComparable(w.root, q, p);
      NewIsBelow(s, q, w.root);
      var d := Parent(q);
      assert p[..|q|] == q && p[..|d|] == d;
      ReachesPrefix(s'.fs, w.excluded, w.root, p, |d|);
      ReachesBefore(s.fs, s'.fs, q, w.excluded, w.root, d);
      assert Tracks(s, i, d);
      assert s'.fs.Enters(w.excluded, p[..|q|]);
      MissingStays(s, s', d, p);
      if Accounted(s, w.root, d) {
        ParentAccounted(s, s', q, lost, w.root, p);
      }
    }
  }

  /** What is not there yet is not above a recorded path. */
  lemma NewIsBelow(s: State, q: Path, p: Path)
    requires s.fs.WellFormed() && MarksReal(s) && p in s.view.marks && q != [] && q !in s.fs.kinds
    ensures !(q <= p)
  {
    if q <= p {
      PrefixExists(s.fs, p, q);
    }
  }

  lemma MissingStays(s: State, s': State, d: Path, p: Path)
    requires s'.policy == s.policy && d <= p
    requires forall k :: 0 <= k <= |d| && s.fs.IsDir(d[..k]) ==> s'.fs.IsDir(d[..k])
    requires forall k :: 0 <= k <= |d| && d[..k] in s'.view.marks ==> d[..k] in s.view.marks
    ensures RootMissing(s, d) ==> RootMissing(s', p)
  {
    if k :| 0 <= k <= |d| && RecursiveRoot(s.policy, d[..k]) && s.fs.IsDir(d[..k]) && d[..k] !in s.view.marks {
      assert p[..k] == d[..k];
    }
  }

  lemma ParentAccounted(s: State, s': State, q: Path, lost: bool, root: Path, p: Path)
    requires Next(s, Create(q, lost), s') && !s'.dropped
    requires root < q <= p && s'.fs.IsDir(q) && Accounted(s, root, Parent(q))
    ensures Accounted(s', root, p)
  {
    var d := Parent(q);
    assert p[..|d|] == d;
    assert forall j :: 0 <= j < |s.queue| ==> s'.queue[j] == s.queue[j];
    if UnwatchedAbove(s.view, root, d) {
      var k :| |root| <= k < |d| && d[..k] in s.view.marks && d[..k] !in s.view.wdMap.Values;
      assert p[..k] == d[..k];
    } else if d in s.view.marks {
      if d in s.view.wdMap.Values {
        assert d + [Last(q)] == q;
        assert PendingOn(s'.view.wdMap, s'.queue[|s.queue|], root, p);
      } else {
        assert UnwatchedAbove(s'.view, root, p);
      }
    } else {
      var j :| 0 <= j < |s.queue| && PendingOn(s.view.wdMap, s.queue[j], root, d);
      assert PendingOn(s'.view.wdMap, s'.queue[j], root, p);
    }
  }

  lemma CreateKeepsEvents(s: State, s': State, q: Path, lost: bool)
    requires EventsReal(s) && Next(s, Create(q, lost), s')
    ensures EventsReal(s')
  {
    forall j | 0 <= j < |s'.queue| && s'.queue[j].NewEntry?
      ensures s'.queue[j].wd in s'.view.wdMap && s'.queue[j].name.Some?
      ensures var p := s'.view.wdMap[s'.queue[j].wd] + [s'.queue[j].name.value];
              p in s'.fs.kinds && (s'.queue[j].isDir <==> s'.fs.IsDir(p))
    {
      if j < |s.queue| {
        assert s'.queue[j] == s.queue[j];
      } else {
        assert Parent(q) + [Last(q)] == q;
      }
    }
  }

  /** The one event that creating `q` can add announces `q`. */
  lemma NewEvent(s: State, s': State, q: Path, lost: bool, j: nat, r: Path)
    requires Next(s, Create(q, lost), s') && j < |s'.queue| && Announces(s'.view.wdMap, s'.queue[j], r)
    ensures if j < |s.queue| then Announces(s.view.wdMap, s.queue[j], r)
            else j == |s.queue| && r == q && Parent(q) in s.view.wdMap.Values
  {
    if j < |s.queue| {
      assert s'.queue[j] == s.queue[j];
    } else {
      assert Parent(q) + [Last(q)] == q;
    }
  }

  lemma AnnouncedExists(s: State, j: nat, r: Path)
    requires EventsReal(s) && j < |s.queue| && Announces(s.view.wdMap, s.queue[j], r)
    ensures r in s.fs.kinds
  {
  }

  lemma PrefixOfParent(r: Path, q: Path)
    requires q != [] && r <= q
    ensures r == q || r <= Parent(q)
  {
    assert |r| == |q| ==> r == q[..|r|];
  }

  /** The place of a new entry under a watched directory is apart from all announced ones. */
  lemma NewIsApart(s: State, q: Path, j: nat, r: Path)
    requires s.fs.WellFormed() && EventsReal(s) && WatchesSound(s) && PendingUnmarked(s)
    requires |q| > 1 && q !in s.fs.kinds && Parent(q) in s.view.wdMap.Values
    requires j < |s.queue| && Announces(s.view.wdMap, s.queue[j], r)
    ensures !(r <= q) && !(q <= r)
  {
    AnnouncedExists(s, j, r);
    assert Parent(q) in s.view.marks;
    if r <= q {
      PrefixOfParent(r, q);
    }
    if q <= r {
      PrefixExists(s.fs, r, q);
    }
  }

  lemma CreateKeepsApart(s: State, s': State, q: Path, lost: bool)
    requires s.fs.WellFormed() && EventsReal(s) && MarksReal(s) && WatchesSound(s)
    requires PendingUnmarked(s) && PendingApart(s) && Next(s, Create(q, lost), s')
    ensures PendingUnmarked(s') && PendingApart(s')
  {
    forall j, r, p | 0 <= j < |s'.queue| && Announces(s'.view.wdMap, s'.queue[j], r) && p in s'.view.marks
      ensures !(r <= p)
    {
      NewEvent(s, s', q, lost, j, r);
      NewIsBelow(s, q, p);
    }
    forall j, k, r, t | 0 <= j < |s'.queue| && 0 <= k < |s'.queue| && j != k
                        && Announces(s'.view.wdMap, s'.queue[j], r) && Announces(s'.view.wdMap, s'.queue[k], t)
      ensures !(r <= t)
    {
      NewEvent(s, s', q, lost, j, r);
      NewEvent(s, s', q, lost, k, t);
      if j == |s.queue| {
        NewIsApart(s, q, k, t);
      } else if k == |s.queue| {
        NewIsApart(s, q, j, r);
      }
    }
  }

  lemma CreateKeeps(s: State, s': State, q: Path, lost: bool)
    requires Inv(s) && Next(s, Create(q, lost), s')
    ensures Inv(s')
  {
    CreateKeepsEvents(s, s', q, lost);
    CreateKeepsApart(s, s', q, lost);
    if !s'.dropped {
      forall i, p | 0 <= i < |s'.policy| && Tracks(s', i, p) ensures Explained(s', i, p) {
        CreateKeepsAccount(s, s', q, lost, i, p);
      }
    }
  }

  // -- handling an event

  /** An event keeps the account of `p` if it does not lead to `p` and starts no
  watch on the way to it. */
  lemma AccountSurvives(s: State, s': State, root: Path, p: Path)
    requires Accounted(s, root, p)
    requires s.queue != [] && s'.queue == s.queue[1..] && !PendingOn(s.view.wdMap, s.queue[0], root, p)
    requires forall q :: q in s.view.marks ==> q in s'.view.marks
    requires forall wd :: wd in s.view.wdMap ==> wd in s'.view.wdMap && s'.view.wdMap[wd] == s.view.wdMap[wd]
    requires forall k :: |root| <= k < |p| && p[..k] !in s.view.wdMap.Values ==> p[..k] !in s'.view.wdMap.Values
    ensures Accounted(s', root, p)
  {
    if UnwatchedAbove(s.view, root, p) {
      var k :| |root| <= k < |p| && p[..k] in s.view.marks && p[..k] !in s.view.wdMap.Values;
      assert UnwatchedAbove(s'.view, root, p);
    } else if j :| 0 <= j < |s.queue| && PendingOn(s.view.wdMap, s.queue[j], root, p) {
      assert s'.queue[j - 1] == s.queue[j];
      assert PendingOn(s'.view.wdMap, s'.queue[j - 1], root, p);
    }
  }

  /** A directory that is not at or below the announced one is explained as before. */
  lemma OffTheWay(s: State, s': State, m: Moment, newDir: Path, i: nat, p: Path)
    requires Next(s, Handle(m), s') && Announced(s.policy, s.view.wdMap, s.queue[0]) == Some(newDir)
    requires i < |s.policy| && !(newDir <= p) && Explained(s, i, p)
    ensures Explained(s', i, p)
  {
    forall k | 0 <= k <= |p| ensures !(newDir <= p[..k]) {
      NotAbove(newDir, p, k);
    }
    MissingStays(s, s', p, p);
    if Accounted(s, s.policy[i].root, p) {
      AccountSurvives(s, s', s.policy[i].root, p);
    }
  }

  /** The root of a watch that tracks `p` is above the announced directory, or the
  watch that takes that directory walks to it. */
  lemma RootIsAboveOrWalked(s: State, s': State, m: Moment, newDir: Path, c: nat, root: Path, p: Path)
    requires PendingUnmarked(s) && Next(s, Handle(m), s')
    requires Announced(s.policy, s.view.wdMap, s.queue[0]) == Some(newDir)
    requires FirstCovering(s.policy, newDir) == Some(c)
    requires root in s'.view.marks && root <= p && newDir <= p
    ensures || root < newDir
            || (&& newDir <= root && !s.policy[c].excluded(newDir)
                && s.fs.Reaches(s.policy[c].excluded, newDir, root))
  {
    PrefixesComparable(root, newDir, p);
    assert Announces(s.view.wdMap, s.queue[0], newDir);
  }

  lemma OnTheWay(s: State, s': State, m: Moment, newDir: Path, i: nat, p: Path)
    requires SafeNesting(s.policy) && EventsReal(s) && MarksReal(s) && WatchesSound(s) && PendingUnmarked(s)
    requires s.fs.WellFormed() && MarksReal(s') && Next(s, Handle(m), s')
    requires Announced(s.policy, s.view.wdMap, s.queue[0]) == Some(newDir)
    requires i < |s.policy| && newDir <= p && Tracks(s', i, p)
    ensures Explained(s', i, p)
  {
    var c := FirstCovering(s.policy, newDir).value;
    RootIsAboveOrWalked(s, s', m, newDir, c, s.policy[i].root, p);
    AnnouncedPlace(s, newDir);
    RootIsPath(s', i, p);
    WalkedOrRoot(s.fs, s.policy, i, c, newDir, p);
    WalkedIsExplained(s, s', m, newDir, c, i, p);
  }

  lemma RootIsPath(s: State, i: nat, p: Path)
    requires s.fs.WellFormed() && MarksReal(s) && i < |s.policy| && Tracks(s, i, p)
    ensures s.policy[i].root != []
  {
  }

  lemma WalkedIsExplained(s: State, s': State, m: Moment, newDir: Path, c: nat, i: nat, p: Path)
    requires PendingUnmarked(s) && Next(s, Handle(m), s') && i < |s.policy|
    requires Announced(s.policy, s.view.wdMap, s.queue[0]) == Some(newDir)
    requires FirstCovering(s.policy, newDir) == Some(c)
    requires || (!s.policy[c].excluded(newDir) && s.fs.Reaches(s.policy[c].excluded, newDir, p))
             || StopsAtRoot(s.fs, s.policy, c, newDir, p)
    requires newDir <= p
    ensures Explained(s', i, p)
  {
    if !s.policy[c].excluded(newDir) && s.fs.Reaches(s.policy[c].excluded, newDir, p) {
      assert p in s'.view.marks;
    } else {
      var k :| |newDir| <= k <= |p| && s.policy[c].excluded(p[..k])
               && RecursiveRoot(s.policy, p[..k]) && s.fs.IsDir(p[..k]);
      StopIsUnmarked(s, s', m, newDir, c, p[..k]);
      assert RootMissing(s', p);
    }
  }

  lemma AnnouncedPlace(s: State, newDir: Path)
    requires EventsReal(s) && MarksReal(s) && WatchesSound(s) && s.fs.WellFormed()
    requires s.queue != [] && Announced(s.policy, s.view.wdMap, s.queue[0]) == Some(newDir)
    ensures 1 < |newDir| && Watchable(s.policy, Parent(newDir)) && s.fs.IsDir(newDir)
  {
    var dir := s.view.wdMap[s.queue[0].wd];
    assert dir in s.view.wdMap.Values && dir in s.fs.kinds && Parent(newDir) == dir;
  }

  lemma StopIsUnmarked(s: State, s': State, m: Moment, newDir: Path, c: nat, q: Path)
    requires PendingUnmarked(s) && Next(s, Handle(m), s')
    requires Announced(s.policy, s.view.wdMap, s.queue[0]) == Some(newDir)
    requires FirstCovering(s.policy, newDir) == Some(c) && newDir <= q && s.policy[c].excluded(q)
    ensures q !in s'.view.marks
  {
    assert Announces(s.view.wdMap, s.queue[0], newDir);
    if q != newDir && s.fs.Reaches(s.policy[c].excluded, newDir, q) {
      ReachedIsEntered(s.fs, s.policy[c].excluded, newDir, q);
    }
  }

  /** Handling an event keeps every tracked directory explained. */
  lemma HandleKeepsAccount(s: State, s': State, m: Moment, i: nat, p: Path)
    requires Inv(s) && MarksReal(s') && Next(s, Handle(m), s') && !s.dropped
    requires i < |s.policy| && Tracks(s', i, p)
    ensures Explained(s', i, p)
  {
    match Announced(s.policy, s.view.wdMap, s.queue[0]) {
      case Some(newDir) =>
        if newDir <= p {
          OnTheWay(s, s', m, newDir, i, p);
        } else {
          RootWasThere(s, s', m, newDir, i, p);
          OffTheWay(s, s', m, newDir, i, p);
        }
      case None =>
        assert Tracks(s, i, p);
        NotAnnounced(s, i, p);
        MissingStays(s, s', p, p);
        if Accounted(s, s.policy[i].root, p) {
          AccountSurvives(s, s', s.policy[i].root, p);
        }
    }
  }

  lemma RootWasThere(s: State, s': State, m: Moment, newDir: Path, i: nat, p: Path)
    requires Next(s, Handle(m), s') && Announced(s.policy, s.view.wdMap, s.queue[0]) == Some(newDir)
    requires i < |s.policy| && Tracks(s', i, p) && !(newDir <= p)
    ensures Tracks(s, i, p)
  {
    NotAboveEither(newDir, s.policy[i].root, p);
  }

  lemma NotAboveEither(newDir: Path, root: Path, p: Path)
    ensures newDir <= root && root <= p ==> newDir <= p
  {
    if newDir <= root && root <= p {
      PrefixTransitive(newDir, root, p);
    }
  }

  lemma NotAnnounced(s: State, i: nat, p: Path)
    requires s.queue != [] && Announced(s.policy, s.view.wdMap, s.queue[0]).None? && i < |s.policy|
    ensures !PendingOn(s.view.wdMap, s.queue[0], s.policy[i].root, p)
  {
    var ev := s.queue[0];
    assert ev.NewEntry? && ev.name.Some? && ev.wd in s.view.wdMap ==>
        (s.policy[i].root <= s.view.wdMap[ev.wd] + [ev.name.value]
         ==> s.policy[i].Covers(s.view.wdMap[ev.wd] + [ev.name.value]));
  }

  lemma HandleKeepsWatches(s: State, s': State, m: Moment)
    requires s.fs.WellFormed() && EventsReal(s) && MarksReal(s) && WatchesSound(s) && Next(s, Handle(m), s')
    ensures WatchesSound(s')
  {
    forall p | p in s'.view.wdMap.Values ensures p in s'.view.marks && Watchable(s.policy, p) {
      if p !in s.view.wdMap.Values {
        var newDir := Announced(s.policy, s.view.wdMap, s.queue[0]).value;
        var c := FirstCovering(s.policy, newDir).value;
        AnnouncedPlace(s, newDir);
        TakenIsWatchable(s.fs, s.policy, c, newDir, p);
      }
    }
  }

  lemma TakenIsWatchable(fs: Fs, policy: Policy, c: nat, newDir: Path, p: Path)
    requires FirstCovering(policy, newDir) == Some(c) && 1 < |newDir| && Watchable(policy, Parent(newDir))
    requires !policy[c].excluded(newDir) && fs.Reaches(policy[c].excluded, newDir, p)
    ensures Watchable(policy, p)
  {
    var n := |newDir|;
    assert p[..n] == newDir && p[..n - 1] == Parent(newDir);
    forall k | n <= k <= |p| ensures !policy[c].excluded(p[..k]) {
      assert k > n ==> fs.Enters(policy[c].excluded, p[..k]);
    }
    assert TakenTo(policy, n, p);
  }

  lemma HandleKeepsEvents(s: State, s': State, m: Moment)
    requires EventsReal(s) && Next(s, Handle(m), s')
    ensures EventsReal(s')
  {
    forall j | 0 <= j < |s'.queue| && s'.queue[j].NewEntry?
      ensures s'.queue[j].wd in s'.view.wdMap && s'.queue[j].name.Some?
      ensures var p := s'.view.wdMap[s'.queue[j].wd] + [s'.queue[j].name.value];
              p in s'.fs.kinds && (s'.queue[j].isDir <==> s'.fs.IsDir(p))
    {
      assert s'.queue[j] == s.queue[j + 1];
    }
  }

  lemma HandleKeepsMarks(s: State, s': State, m: Moment)
    requires EventsReal(s) && MarksReal(s) && Next(s, Handle(m), s')
    ensures MarksReal(s')
  {
    match Announced(s.policy, s.view.wdMap, s.queue[0]) {
      case Some(newDir) =>
        var w := s.policy[FirstCovering(s.policy, newDir).value];
        forall p | s.fs.Reaches(w.excluded, newDir, p) ensures s.fs.IsDir(p) {
          if p != newDir {
            ReachedIsEntered(s.fs, w.excluded, newDir, p);
          }
        }
      case None =>
    }
  }

  /** Handling an event records, reports and watches only what there is. */
  lemma HandleKeepsReal(s: State, s': State, m: Moment)
    requires s.fs.WellFormed() && EventsReal(s) && MarksReal(s) && WatchesSound(s) && Next(s, Handle(m), s')
    ensures EventsReal(s') && MarksReal(s') && WatchesSound(s')
  {
    HandleKeepsEvents(s, s', m);
    HandleKeepsMarks(s, s', m);
    HandleKeepsWatches(s, s', m);
  }

  /** An event further back in the queue announces the same entry afterwards. */
  lemma LaterEvent(s: State, s': State, m: Moment, j: nat, r: Path)
    requires EventsReal(s) && Next(s, Handle(m), s') && j < |s'.queue| && Announces(s'.view.wdMap, s'.queue[j], r)
    ensures Announces(s.view.wdMap, s.queue[j + 1], r)
  {
    assert s'.queue[j] == s.queue[j + 1];
  }

  lemma HandleKeepsUnmarked(s: State, s': State, m: Moment, j: nat, r: Path, p: Path)
    requires EventsReal(s) && PendingUnmarked(s) && PendingApart(s) && Next(s, Handle(m), s')
    requires j < |s'.queue| && Announces(s'.view.wdMap, s'.queue[j], r) && p in s'.view.marks
    ensures !(r <= p)
  {
    LaterEvent(s, s', m, j, r);
    if p !in s.view.marks && r <= p {
      var newDir := Announced(s.policy, s.view.wdMap, s.queue[0]).value;
      assert Announces(s.view.wdMap, s.queue[0], newDir);
      PrefixesComparable(r, newDir, p);
    }
  }

  lemma HandleKeepsApart(s: State, s': State, m: Moment)
    requires EventsReal(s) && PendingUnmarked(s) && PendingApart(s) && Next(s, Handle(m), s')
    ensures PendingUnmarked(s') && PendingApart(s')
  {
    forall j, r, p | 0 <= j < |s'.queue| && Announces(s'.view.wdMap, s'.queue[j], r) && p in s'.view.marks
      ensures !(r <= p)
    {
      HandleKeepsUnmarked(s, s', m, j, r, p);
    }
    forall j, k, r, t | 0 <= j < |s'.queue| && 0 <= k < |s'.queue| && j != k
                        && Announces(s'.view.wdMap, s'.queue[j], r) && Announces(s'.view.wdMap, s'.queue[k], t)
      ensures !(r <= t)
    {
      LaterEvent(s, s', m, j, r);
      LaterEvent(s, s', m, k, t);
    }
  }

  lemma HandleKeeps(s: State, s': State, m: Moment)
    requires Inv(s) && Next(s, Handle(m), s')
    ensures Inv(s')
  {
    HandleKeepsReal(s, s', m);
    HandleKeepsApart(s, s', m);
    if !s.dropped {
      forall i, p | 0 <= i < |s'.policy| && Tracks(s', i, p) ensures Explained(s', i, p) {
        HandleKeepsAccount(s, s', m, i, p);
      }
    }
  }

  /** Every step keeps the invariant, as long as the policies are safely nested. */
  lemma NextKeeps(s: State, step: Step, s': State)
    requires Inv(s) && Next(s, step, s') && SafeNesting(s'.policy)
    ensures Inv(s')
  {
    match step {
      case Create(p, lost) =>
        CreateKeeps(s, s', p, lost);
      case Handle(m) =>
        HandleKeeps(s, s', m);
      case Reload(policy, initOk, m) =>
        FullMarkKeeps(policy, initOk, m, s.view.fan, s');
      case _ =>
        SameAccount(s, s');
    }
  }

  lemma SameAccount(s: State, s': State)
    requires s' == s.(view := s'.view) && s'.view == s.view.(reload := s'.view.reload) && Inv(s)
    ensures Inv(s')
  {
    forall i, p | !s.dropped && 0 <= i < |s.policy| && Tracks(s', i, p) ensures Explained(s', i, p) {
      assert Tracks(s, i, p) && Explained(s, i, p);
      MissingStays(s, s', p, p);
      assert UnwatchedAbove(s.view, s.policy[i].root, p) ==> UnwatchedAbove(s'.view, s.policy[i].root, p);
    }
  }
}
