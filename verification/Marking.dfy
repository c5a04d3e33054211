/** Placing marks: the full scan (`mark_all`), the record of what was placed,
and the live marking of new directories (`TreeWatch`). */
module Marking {
  import opened Wrappers
  import opened FileSystem
  import opened Policy
  import opened Walk

  datatype ObjKind = FileObj | DirObj

  datatype MarkEntry = MarkEntry(kind: ObjKind, recursive: bool, watchRoot: Path, ok: bool)

  type Marks = map<Path, MarkEntry>

  // ---- The full scan -------------------------------------------------------

  datatype WatchScan = Unresolved | FileScan(path: Path) | DirScan(dirs: seq<Path>)

  /** The directories a full scan marks for a watch whose root is a directory. */
  ghost function ScanSet(fs: Fs, w: Watch): set<Path> {
    if w.Recursive() then fs.Reachable(w.excluded, w.root) else {w.root}
  }

  /** A watch whose patterns are all shallow has its root scanned and nothing else; any
  other has all that can be reached from its root. */
  lemma ScanSetIs(fs: Fs, w: Watch)
    ensures IsShallow(w) ==> ScanSet(fs, w) == {w.root}
    ensures !IsShallow(w) ==> forall p :: p in ScanSet(fs, w) <==> fs.Reaches(w.excluded, w.root, p)
  {
    RecursiveIff(w);
  }

  method ScanWatch(fs: Fs, w: Watch) returns (scan: WatchScan)
    ensures scan.DirScan? <==> fs.IsDir(w.root)
    ensures scan.FileScan? <==> w.root in fs.kinds && fs.kinds[w.root].RegularFile?
    ensures scan.FileScan? ==> scan.path == w.root
    ensures scan.DirScan? ==> NoDuplicates(scan.dirs) && forall p :: p in scan.dirs <==> p in ScanSet(fs, w)
    ensures scan.DirScan? && IsShallow(w) ==> scan.dirs == [w.root]
    ensures scan.DirScan? && !IsShallow(w) ==> forall p :: p in scan.dirs <==> fs.Reaches(w.excluded, w.root, p)
  {
    RecursiveIff(w);
    if w.root !in fs.kinds {
      return Unresolved;
    }
    match fs.kinds[w.root] {
      case RegularFile =>
        return FileScan(w.root);
      case Directory =>
        if !w.Recursive() {
          return DirScan([w.root]);
        }
        var dirs := WalkDirs(fs, w.excluded, w.root);
        return DirScan(dirs);
      case Special =>
        return Unresolved;
    }
  }

  ghost function DirEntries(dirs: set<Path>, w: Watch, markOk: Path -> bool): Marks {
    map p | p in dirs :: MarkEntry(DirObj, w.Recursive(), w.root, markOk(p))
  }

  /** The entries a full scan records for one watch. */
  ghost function WatchMarks(fs: Fs, w: Watch, markOk: Path -> bool): Marks {
    if fs.IsDir(w.root) then DirEntries(ScanSet(fs, w), w, markOk)
    else if w.root in fs.kinds && fs.kinds[w.root].RegularFile?
    then map[w.root := MarkEntry(FileObj, w.Recursive(), w.root, markOk(w.root))]
    else map[]
  }

  /** The record after a full scan; a later watch overwrites an earlier one. */
  ghost function AllMarks(fs: Fs, policy: Policy, markOk: Path -> bool): Marks
    decreases |policy|
  {
    if policy == [] then map[]
    else AllMarks(fs, policy[..|policy| - 1], markOk) + WatchMarks(fs, policy[|policy| - 1], markOk)
  }

  ghost function Succeeded(dirs: set<Path>, ok: Path -> bool): set<Path> {
    set p | p in dirs && ok(p)
  }

  class MarkSet {
    var entries: Marks

    method Clear()
      modifies this
      ensures entries == map[]
    {
      entries := map[];
    }

    method Record(path: Path, entry: MarkEntry)
      modifies this
      ensures entries == old(entries)[path := entry]
    {
      entries := entries[path := entry];
    }
  }

  /** The kernel's side of the fanotify group: the inodes that really carry a mark. */
  class Fanotify {
    var marked: set<Path>

    /** Whether the call succeeds is up to the kernel. */
    method Mark(path: Path, succeeds: bool) returns (ok: bool)
      modifies this
      ensures ok == succeeds
      ensures marked == if ok then old(marked) + {path} else old(marked)
    {
      if succeeds {
        marked := marked + {path};
      }
      return succeeds;
    }
  }

  ghost function Elements<T>(s: seq<T>): set<T> {
    set x | x in s
  }

  lemma ElementsSnoc<T>(s: seq<T>, i: nat)
    requires i < |s|
    ensures Elements(s[..i + 1]) == Elements(s[..i]) + {s[i]}
  {
    assert s[..i + 1] == s[..i] + [s[i]];
  }

  lemma RecordOneMore(base: Marks, dirs: set<Path>, p: Path, w: Watch, markOk: Path -> bool)
    ensures (base + DirEntries(dirs, w, markOk))[p := MarkEntry(DirObj, w.Recursive(), w.root, markOk(p))]
            == base + DirEntries(dirs + {p}, w, markOk)
    ensures Succeeded(dirs + {p}, markOk) == Succeeded(dirs, markOk) + (if markOk(p) then {p} else {})
  {
  }

  /** Mark and record the directories of one watch. */
  method MarkDirs(fan: Fanotify, marks: MarkSet, w: Watch, dirs: seq<Path>, markOk: Path -> bool)
    modifies fan, marks
    ensures marks.entries == old(marks.entries) + DirEntries(Elements(dirs), w, markOk)
    ensures fan.marked == old(fan.marked) + Succeeded(Elements(dirs), markOk)
  {
    for i := 0 to |dirs|
      invariant marks.entries == old(marks.entries) + DirEntries(Elements(dirs[..i]), w, markOk)
      invariant fan.marked == old(fan.marked) + Succeeded(Elements(dirs[..i]), markOk)
    {
      ElementsSnoc(dirs, i);
      RecordOneMore(old(marks.entries), Elements(dirs[..i]), dirs[i], w, markOk);
      var ok := fan.Mark(dirs[i], markOk(dirs[i]));
      marks.Record(dirs[i], MarkEntry(DirObj, w.Recursive(), w.root, ok));
    }
    assert dirs[..|dirs|] == dirs;
  }

  method MarkWatch(fan: Fanotify, fs: Fs, w: Watch, marks: MarkSet, markOk: Path -> bool)
    modifies fan, marks
    ensures marks.entries == old(marks.entries) + WatchMarks(fs, w, markOk)
    ensures fan.marked == old(fan.marked) + Succeeded(WatchMarks(fs, w, markOk).Keys, markOk)
  {
    var scan := ScanWatch(fs, w);
    match scan {
      case FileScan(p) =>
        var ok := fan.Mark(p, markOk(p));
        marks.Record(p, MarkEntry(FileObj, w.Recursive(), w.root, ok));
      case DirScan(dirs) =>
        MarkDirs(fan, marks, w, dirs, markOk);
        assert Elements(dirs) == ScanSet(fs, w);
      case Unresolved =>
    }
  }

  method MarkAll(fan: Fanotify, fs: Fs, policy: Policy, marks: MarkSet, markOk: Path -> bool)
    modifies fan, marks
    ensures marks.entries == AllMarks(fs, policy, markOk)
    ensures fan.marked == old(fan.marked) + Succeeded(AllMarks(fs, policy, markOk).Keys, markOk)
  {
    marks.Clear();
    for i := 0 to |policy|
      invariant marks.entries == AllMarks(fs, policy[..i], markOk)
      invariant fan.marked == old(fan.marked) + Succeeded(AllMarks(fs, policy[..i], markOk).Keys, markOk)
    {
      assert policy[..i + 1][..i] == policy[..i];
      MarkWatch(fan, fs, policy[i], marks, markOk);
    }
    assert policy[..|policy|] == policy;
  }

  // ---- Live marking --------------------------------------------------------

  /** An inotify event: a lost-events notice, or a new entry of a watched directory. */
  datatype InotifyEvent = Overflow | NewEntry(wd: nat, name: Option<Name>, isDir: bool)

  ghost predicate Injective(wdMap: map<nat, Path>) {
    forall a, b :: a in wdMap && b in wdMap && wdMap[a] == wdMap[b] ==> a == b
  }

  /** `after` keeps every descriptor of `before` and watches `added` besides. */
  ghost predicate WatchesAdded(before: map<nat, Path>, after: map<nat, Path>, added: set<Path>) {
    && (forall wd :: wd in before ==> wd in after && after[wd] == before[wd])
    && after.Values == before.Values + added
    && (Injective(before) ==> Injective(after))
  }

  /** What the daemon and the kernel know of the marks at one moment. */
  datatype View = View(marks: Marks, fan: set<Path>, alive: bool, wdMap: map<nat, Path>, reload: bool)

  /** The file system at the moment an event is handled, and what the kernel will
  answer to requests for marks and watches. */
  datatype Moment = Moment(fs: Fs, markOk: Path -> bool, watchOk: Path -> bool)

  /** `dirs` are marked, recorded and watched, as far as the kernel lets them be. */
  ghost predicate Covered(m: Moment, w: Watch, dirs: set<Path>, v: View, v': View) {
    && v'.marks == v.marks + DirEntries(dirs, w, m.markOk)
    && v'.fan == v.fan + Succeeded(dirs, m.markOk)
    && v'.alive == v.alive
    && WatchesAdded(v.wdMap, v'.wdMap, if v.alive then Succeeded(dirs, m.watchOk) else {})
    && v'.reload == v.reload
  }

  /** The new directory an event announces, if it announces one that some watch covers. */
  function Announced(policy: Policy, wdMap: map<nat, Path>, ev: InotifyEvent): Option<Path> {
    match ev
    case Overflow => None
    case NewEntry(wd, name, isDir) =>
      if isDir && name.Some? && wd in wdMap && FirstCovering(policy, wdMap[wd] + [name.value]).Some?
      then Some(wdMap[wd] + [name.value])
      else None
  }

  /** The effect of one inotify event. */
  ghost predicate HandlesEvent(policy: Policy, m: Moment, ev: InotifyEvent, v: View, v': View) {
    match Announced(policy, v.wdMap, ev)
    case None => v' == v.(reload := v.reload || ev.Overflow?)
    case Some(newDir) =>
      var w := policy[FirstCovering(policy, newDir).value];
      Covered(m, w, if w.excluded(newDir) then {} else m.fs.Reachable(w.excluded, newDir), v, v')
  }

  class TreeWatch {
    var alive: bool
    var wdMap: map<nat, Path>

    /** An instance that watches nothing, inert when inotify is unavailable. */
    constructor (initOk: bool)
      ensures alive == initOk && wdMap == map[]
    {
      alive, wdMap := initOk, map[];
    }

    predicate IsWatching(dir: Path)
      reads this
    {
      dir in wdMap.Values
    }

    /** Watch one directory.  A second watch on a directory yields its first descriptor. */
    method Add(dir: Path, succeeds: bool)
      modifies this`wdMap
      ensures WatchesAdded(old(wdMap), wdMap, if alive && succeeds then {dir} else {})
    {
      if !alive || !succeeds {
        return;
      }
      if dir !in wdMap.Values {
        var wd := FreshDescriptor(wdMap.Keys);
        ghost var before := wdMap;
        wdMap := wdMap[wd := dir];
        assert wdMap[wd] == dir;
        assert forall d :: d in before ==> wdMap[d] == before[d];
      }
    }

    method AddAll(dirs: seq<Path>, watchOk: Path -> bool)
      modifies this`wdMap
      ensures WatchesAdded(old(wdMap), wdMap, if alive then Succeeded(Elements(dirs), watchOk) else {})
    {
      for i := 0 to |dirs|
        invariant WatchesAdded(old(wdMap), wdMap, if alive then Succeeded(Elements(dirs[..i]), watchOk) else {})
      {
        ElementsSnoc(dirs, i);
        Add(dirs[i], watchOk(dirs[i]));
      }
      assert dirs[..|dirs|] == dirs;
    }

    /** Watch every directory that a recursive directory watch marks. */
    method Build(fs: Fs, policy: Policy, watchOk: Path -> bool)
      requires wdMap == map[]
      modifies this`wdMap
      ensures Injective(wdMap)
      ensures wdMap.Values == if alive then Succeeded(TreeDirs(fs, policy), watchOk) else {}
    {
      for i := 0 to |policy|
        invariant WatchesAdded(map[], wdMap, if alive then Succeeded(TreeDirs(fs, policy[..i]), watchOk) else {})
      {
        TreeDirsStep(fs, policy, i, watchOk);
        if !policy[i].Recursive() {
          continue;
        }
        var scan := ScanWatch(fs, policy[i]);
        if scan.DirScan? {
          ghost var before := wdMap;
          AddAll(scan.dirs, watchOk);
          assert Elements(scan.dirs) == ScanSet(fs, policy[i]);
          AddedTwice(map[], before, wdMap, if alive then Succeeded(TreeDirs(fs, policy[..i]), watchOk) else {},
                     if alive then Succeeded(ScanSet(fs, policy[i]), watchOk) else {});
        }
      }
      assert policy[..|policy|] == policy;
    }

    ghost function Now(fan: Fanotify, marks: MarkSet, reload: Flag): View
      reads this, fan, marks, reload
    {
      View(marks.entries, fan.marked, alive, wdMap, reload.raised)
    }

    method HandleEvent(fan: Fanotify, policy: Policy, marks: MarkSet, reload: Flag, ev: InotifyEvent, m: Moment)
      modifies this`wdMap, fan, marks, reload
      ensures HandlesEvent(policy, m, ev, old(Now(fan, marks, reload)), Now(fan, marks, reload))
    {
      match ev {
        case Overflow =>
          reload.raised := true;
        case NewEntry(wd, name, isDir) =>
          if !isDir || name.None? || wd !in wdMap {
            return;
          }
          var newDir := wdMap[wd] + [name.value];
          var covering := FirstCovering(policy, newDir);
          if covering.None? {
            return;
          }
          var w := policy[covering.value];
          var dirs := DirsToMark(m.fs, w.excluded, newDir);
          assert Elements(dirs) == if w.excluded(newDir) then {} else m.fs.Reachable(w.excluded, newDir);
          MarkDirs(fan, marks, w, dirs, m.markOk);
          AddAll(dirs, m.watchOk);
      }
    }

    /** Answer a dump request. */
    method Dump(marks: MarkSet) returns (dump: map<Path, WatchedObject>)
      ensures dump == BuildDump(marks.entries, wdMap.Values)
    {
      dump := map p | p in marks.entries :: Row(marks.entries[p], IsWatching(p));
    }

    /** Handle a batch of events; the file system may change between two of them. */
    method OnReady(fan: Fanotify, policy: Policy, marks: MarkSet, reload: Flag,
                   events: seq<InotifyEvent>, moments: seq<Moment>)
      returns (ghost trace: seq<View>)
      requires |moments| == |events|
      modifies this`wdMap, fan, marks, reload
      ensures |trace| == |events| + 1
      ensures trace[0] == old(Now(fan, marks, reload)) && trace[|events|] == Now(fan, marks, reload)
      ensures forall i :: 0 <= i < |events| ==> HandlesEvent(policy, moments[i], events[i], trace[i], trace[i + 1])
    {
      trace := [Now(fan, marks, reload)];
      for i := 0 to |events|
        invariant |trace| == i + 1
        invariant trace[0] == old(Now(fan, marks, reload)) && trace[i] == Now(fan, marks, reload)
        invariant forall j :: 0 <= j < i ==> HandlesEvent(policy, moments[j], events[j], trace[j], trace[j + 1])
      {
        HandleEvent(fan, policy, marks, reload, events[i], moments[i]);
        trace := trace + [Now(fan, marks, reload)];
      }
    }
  }

  /** The directories `Build` tries to watch. */
  ghost function TreeDirs(fs: Fs, policy: Policy): set<Path>
    decreases |policy|
  {
    if policy == [] then {}
    else
      var w := policy[|policy| - 1];
      TreeDirs(fs, policy[..|policy| - 1]) + (if w.Recursive() && fs.IsDir(w.root) then ScanSet(fs, w) else {})
  }

  lemma TreeDirsStep(fs: Fs, policy: Policy, i: nat, ok: Path -> bool)
    requires i < |policy|
    ensures Succeeded(TreeDirs(fs, policy[..i + 1]), ok)
            == if policy[i].Recursive() && fs.IsDir(policy[i].root)
               then Succeeded(TreeDirs(fs, policy[..i]), ok) + Succeeded(ScanSet(fs, policy[i]), ok)
               else Succeeded(TreeDirs(fs, policy[..i]), ok)
  {
    assert policy[..i + 1][..i] == policy[..i];
  }

  lemma AddedTwice(a: map<nat, Path>, b: map<nat, Path>, c: map<nat, Path>, first: set<Path>, second: set<Path>)
    requires WatchesAdded(a, b, first) && WatchesAdded(b, c, second)
    ensures WatchesAdded(a, c, first + second)
  {
  }

  /** A descriptor that is not in use. */
  method FreshDescriptor(used: set<nat>) returns (wd: nat)
    ensures wd !in used
  {
    wd := 0;
    var rest := used;
    while wd in rest
      invariant rest <= used
      invariant forall u :: u in used && u >= wd ==> u in rest
      decreases rest
    {
      rest := rest - {wd};
      wd := wd + 1;
    }
  }

  // ---- The dump ------------------------------------------------------------

  datatype WatchedObject = WatchedObject(kind: ObjKind, recursive: bool, watch: Path, fanotify: bool,
                                         liveMarked: Option<bool>)

  /** The row for one recorded path, given whether that path is watched. */
  function Row(e: MarkEntry, isWatching: bool): WatchedObject {
    WatchedObject(e.kind, e.recursive, e.watchRoot, e.ok, if e.kind.DirObj? then Some(isWatching) else None)
  }

  /** What `filewallctl dump` reports, by path. */
  function BuildDump(marks: Marks, watched: set<Path>): (dump: map<Path, WatchedObject>)
    ensures dump.Keys == marks.Keys
    ensures forall p :: p in dump ==> dump[p].fanotify == marks[p].ok && dump[p].watch == marks[p].watchRoot
    ensures forall p :: p in dump ==> dump[p].kind == marks[p].kind && dump[p].recursive == marks[p].recursive
    ensures forall p :: p in dump && marks[p].kind.FileObj? ==> dump[p].liveMarked == None
    ensures forall p :: p in dump && marks[p].kind.DirObj? ==> (dump[p].liveMarked == Some(true) <==> p in watched)
    ensures forall p :: p in dump && marks[p].kind.DirObj? ==> (dump[p].liveMarked == Some(false) <==> p !in watched)
  {
    map p | p in marks :: Row(marks[p], p in watched)
  }
}
