/** The directory walk that decides which directories get a mark. */
module Walk {
  import opened FileSystem

  ghost predicate NoDuplicates<T>(s: seq<T>) {
    forall i, j :: 0 <= i < j < |s| ==> s[i] != s[j]
  }

  lemma AppendKeepsDistinct<T>(s: seq<T>, t: seq<T>)
    requires NoDuplicates(s) && NoDuplicates(t) && forall x :: x in t ==> x !in s
    ensures NoDuplicates(s + t)
  {
    forall i, j | 0 <= i < j < |s + t| ensures (s + t)[i] != (s + t)[j] {
      assert i < |s| ==> (s + t)[i] in s;
      assert j >= |s| ==> (s + t)[j] in t;
    }
  }

  lemma PopLast<T>(s: seq<T>)
    requires s != [] && NoDuplicates(s)
    ensures NoDuplicates(s[..|s| - 1]) && s[|s| - 1] !in s[..|s| - 1]
    ensures forall x :: x in s <==> x in s[..|s| - 1] || x == s[|s| - 1]
  {
    assert s == s[..|s| - 1] + [s[|s| - 1]];
  }

  /** A set that holds the root and is closed under entering holds all that is reachable. */
  lemma {:induction false} ClosedHoldsReachable(fs: Fs, excluded: Path -> bool, root: Path, s: set<Path>, p: Path)
    requires root in s
    requires forall q :: q != [] && Parent(q) in s && fs.Enters(excluded, q) ==> q in s
    requires fs.Reaches(excluded, root, p)
    ensures p in s
    decreases |p|
  {
    if p != root {
      assert p[..|p|] == p;
      ReachesPrefix(fs, excluded, root, p, |p| - 1);
      ClosedHoldsReachable(fs, excluded, root, s, Parent(p));
    }
  }

  /** `entered` lists, once each, the directories the walk steps into from `dir`. */
  ghost predicate Entered(fs: Fs, excluded: Path -> bool, dir: Path, entered: seq<Path>) {
    && NoDuplicates(entered)
    && forall p :: p in entered <==> p != [] && Parent(p) == dir && fs.Enters(excluded, p)
  }

  /** The body of the walk for one directory; the listing order is arbitrary. */
  method EnterFrom(fs: Fs, excluded: Path -> bool, dir: Path) returns (entered: seq<Path>)
    ensures Entered(fs, excluded, dir, entered)
  {
    entered := [];
    var entries := fs.ReadDir(dir);
    while entries != {}
      invariant entries <= fs.ReadDir(dir)
      invariant NoDuplicates(entered)
      invariant forall p :: p in entered <==> p in fs.ReadDir(dir) - entries && fs.IsDir(p) && !excluded(p)
      decreases entries
    {
      var path :| path in entries;
      entries := entries - {path};
      if excluded(path) {
        continue;
      }
      if fs.IsDir(path) {
        entered := entered + [path];
      }
    }
  }

  /** The state of the walk: `out` is what was found, `stack` is what is found
  but not yet listed, `done` what is listed. */
  ghost predicate Walking(fs: Fs, excluded: Path -> bool, root: Path,
                          out: seq<Path>, stack: seq<Path>, done: set<Path>)
  {
    && NoDuplicates(out) && NoDuplicates(stack)
    && root in out
    && (forall p :: p in out <==> p in done || p in stack)
    && (forall p :: p in stack ==> p !in done)
    && (forall p :: p in out ==> fs.Reaches(excluded, root, p))
    && (forall p :: p in out && p != root ==> p != [] && Parent(p) in done)
    && (forall q :: q != [] && Parent(q) in done && fs.Enters(excluded, q) ==> q in out)
  }

  lemma WalkingStep(fs: Fs, excluded: Path -> bool, root: Path,
                    out: seq<Path>, stack: seq<Path>, done: set<Path>, entered: seq<Path>)
    requires stack != [] && Walking(fs, excluded, root, out, stack, done)
    requires Entered(fs, excluded, stack[|stack| - 1], entered)
    ensures Walking(fs, excluded, root, out + entered, stack[..|stack| - 1] + entered, done + {stack[|stack| - 1]})
  {
    var rest, dir := stack[..|stack| - 1], stack[|stack| - 1];
    PopLast(stack);
    assert dir in out;
    forall p | p in entered ensures p !in out && fs.Reaches(excluded, root, p) {
      assert root <= dir && Parent(p) == dir;
      ReachesStep(fs, excluded, root, p);
    }
    AppendKeepsDistinct(out, entered);
    AppendKeepsDistinct(rest, entered);
  }

  lemma WalkingShrinks(fs: Fs, excluded: Path -> bool, root: Path,
                       out: seq<Path>, stack: seq<Path>, done: set<Path>, dir: Path)
    requires Walking(fs, excluded, root, out, stack, done) && dir in stack
    ensures |fs.Reachable(excluded, root) - (done + {dir})| < |fs.Reachable(excluded, root) - done|
  {
    var left := fs.Reachable(excluded, root) - done;
    assert dir in left && fs.Reachable(excluded, root) - (done + {dir}) == left - {dir};
  }

  lemma WalkingDone(fs: Fs, excluded: Path -> bool, root: Path, out: seq<Path>, done: set<Path>, p: Path)
    requires Walking(fs, excluded, root, out, [], done)
    ensures p in out <==> fs.Reaches(excluded, root, p)
  {
    if fs.Reaches(excluded, root, p) {
      ClosedHoldsReachable(fs, excluded, root, done, p);
    }
  }

  /** Depth-first walk with an explicit stack. */
  method WalkDirs(fs: Fs, excluded: Path -> bool, root: Path) returns (out: seq<Path>)
    ensures NoDuplicates(out)
    ensures forall p :: p in out <==> fs.Reaches(excluded, root, p)
  {
    out := [root];
    var stack := [root];
    ghost var done: set<Path> := {};
    while stack != []
      invariant Walking(fs, excluded, root, out, stack, done)
      decreases |fs.Reachable(excluded, root) - done|
    {
      var dir := stack[|stack| - 1];
      var entered := EnterFrom(fs, excluded, dir);
      WalkingShrinks(fs, excluded, root, out, stack, done, dir);
      WalkingStep(fs, excluded, root, out, stack, done, entered);
      out, stack, done := out + entered, stack[..|stack| - 1] + entered, done + {dir};
    }
    forall p ensures p in out <==> fs.Reaches(excluded, root, p) {
      WalkingDone(fs, excluded, root, out, done, p);
    }
  }

  /** The directories to mark and watch when `newDir` appears. */
  method DirsToMark(fs: Fs, excluded: Path -> bool, newDir: Path) returns (out: seq<Path>)
    ensures NoDuplicates(out)
    ensures forall p :: p in out <==> !excluded(newDir) && fs.Reaches(excluded, newDir, p)
  {
    if excluded(newDir) {
      return [];
    }
    out := WalkDirs(fs, excluded, newDir);
  }

  /** Live marking of a new directory finds exactly the part of the full walk
  that lies at or below it. */
  lemma NewSubtreeIsPartOfFullWalk(fs: Fs, excluded: Path -> bool, root: Path, newDir: Path, p: Path)
    requires root < newDir
    requires fs.IsDir(newDir) && Parent(newDir) !in fs.unreadable
    requires fs.IsDir(Parent(newDir)) && fs.Reaches(excluded, root, Parent(newDir))
    ensures newDir <= p && fs.Reaches(excluded, root, p)
            <==> !excluded(newDir) && fs.Reaches(excluded, newDir, p)
  {
    if newDir <= p {
      ReachesSplit(fs, excluded, root, newDir, p);
      if !excluded(newDir) {
        ReachesStep(fs, excluded, root, newDir);
      }
      if fs.Reaches(excluded, root, newDir) {
        assert newDir[..|newDir|] == newDir;
      }
    }
  }
}
