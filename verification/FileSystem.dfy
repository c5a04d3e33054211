/** Paths and a finite file system.

A path is the sequence of its components; the first component of an absolute
path is "/".  `starts_with` on such paths is the prefix order on sequences, so
"/home/u2" is not under "/home/u". */
module FileSystem {

  type Name = string
  type Path = seq<Name>

  function Parent(p: Path): Path
    requires p != []
  {
    p[..|p| - 1]
  }

  function Last(p: Path): Name
    requires p != []
  {
    p[|p| - 1]
  }

  datatype Kind = RegularFile | Directory | Special

  /** What the daemon can observe: the kind of every existing path (symlinks and
  devices are `Special`), and the directories whose listing fails. */
  datatype Fs = Fs(kinds: map<Path, Kind>, unreadable: set<Path>) {

    predicate IsDir(p: Path) {
      p in kinds && kinds[p].Directory?
    }

    /** Every entry but the topmost ones lies in a directory. */
    ghost predicate WellFormed() {
      forall p :: p in kinds ==> p != [] && (|p| > 1 ==> IsDir(Parent(p)))
    }

    /** The paths a directory listing yields; nothing when the listing fails. */
    function ReadDir(dir: Path): (entries: set<Path>) {
      if IsDir(dir) && dir !in unreadable
      then set p | p in kinds && p != [] && Parent(p) == dir
      else {}
    }

    /** `p` is a directory that a walk standing in its parent steps into. */
    predicate Enters(excluded: Path -> bool, p: Path) {
      p != [] && IsDir(p) && p in ReadDir(Parent(p)) && !excluded(p)
    }

    /** `p` can be reached from `root` by entering one directory at a time.  The
    root itself counts, whatever it is. */
    ghost predicate Reaches(excluded: Path -> bool, root: Path, p: Path) {
      root <= p && forall k :: |root| < k <= |p| ==> Enters(excluded, p[..k])
    }

    /** Everything reachable from `root`, as a finite set. */
    ghost function Reachable(excluded: Path -> bool, root: Path): (s: set<Path>)
      ensures forall p :: p in s <==> Reaches(excluded, root, p)
    {
      var s := set p | p in kinds.Keys + {root} && Reaches(excluded, root, p);
      forall p | Reaches(excluded, root, p) ensures p in s {
        if p != root {
          assert |root| < |p|;
          assert p[..|p|] == p;
        }
      }
      s
    }
  }

  /** Two places on the way to one path lie one below the other. */
  lemma PrefixesComparable(a: Path, b: Path, p: Path)
    requires a <= p && b <= p
    ensures a <= b || b <= a
  {
    if |a| <= |b| {
      assert a == b[..|a|];
    } else {
      assert b == a[..|b|];
    }
  }

  lemma PrefixTransitive(a: Path, b: Path, c: Path)
    requires a <= b <= c
    ensures a <= c
  {
    assert c[..|a|] == b[..|a|];
  }

  lemma PrefixIsDir(fs: Fs, p: Path, k: nat)
    requires fs.WellFormed() && p in fs.kinds && 0 < k < |p|
    ensures fs.IsDir(p[..k])
    decreases |p|
  {
    assert fs.IsDir(Parent(p));
    if k < |p| - 1 {
      PrefixIsDir(fs, Parent(p), k);
      assert Parent(p)[..k] == p[..k];
    } else {
      assert Parent(p) == p[..k];
    }
  }

  lemma PrefixExists(fs: Fs, p: Path, q: Path)
    requires fs.WellFormed() && p in fs.kinds && q != [] && q <= p
    ensures q in fs.kinds
  {
    assert p[..|q|] == q && p[..|p|] == p;
    if |q| < |p| {
      PrefixIsDir(fs, p, |q|);
    }
  }

  lemma ReachedIsEntered(fs: Fs, excluded: Path -> bool, root: Path, p: Path)
    requires fs.Reaches(excluded, root, p) && p != root
    ensures root < p && fs.Enters(excluded, p)
  {
    assert p[..|p|] == p;
  }

  /** Extending a reachable path by one entered directory keeps it reachable. */
  lemma ReachesStep(fs: Fs, excluded: Path -> bool, root: Path, p: Path)
    requires root < p && fs.Reaches(excluded, root, Parent(p)) && fs.Enters(excluded, p)
    ensures fs.Reaches(excluded, root, p)
  {
    forall k | |root| < k <= |p| ensures fs.Enters(excluded, p[..k]) {
      if k == |p| {
        assert p[..k] == p;
      } else {
        assert Parent(p)[..k] == p[..k];
      }
    }
  }

  /** Every path between the root and a reachable path is reachable. */
  lemma ReachesPrefix(fs: Fs, excluded: Path -> bool, root: Path, p: Path, k: nat)
    requires fs.Reaches(excluded, root, p) && |root| <= k <= |p|
    ensures root <= p[..k] && fs.Reaches(excluded, root, p[..k])
  {
    forall j | |root| < j <= k ensures fs.Enters(excluded, p[..k][..j]) {
      assert p[..k][..j] == p[..j];
    }
  }

  /** Reachability may be restarted from any point of the way. */
  lemma ReachesSplit(fs: Fs, excluded: Path -> bool, root: Path, mid: Path, p: Path)
    requires root <= mid <= p
    ensures fs.Reaches(excluded, root, p) <==> fs.Reaches(excluded, root, mid) && fs.Reaches(excluded, mid, p)
  {
    if fs.Reaches(excluded, root, p) {
      ReachesPrefix(fs, excluded, root, p, |mid|);
      assert p[..|mid|] == mid;
    }
    if fs.Reaches(excluded, root, mid) && fs.Reaches(excluded, mid, p) {
      forall k | |root| < k <= |p| ensures fs.Enters(excluded, p[..k]) {
        if k <= |mid| {
          assert mid[..k] == p[..k];
        }
      }
    }
  }
}
