/** Why the marks of a full scan are enough for everything a watch guards. */
module Scope {
  import opened FileSystem
  import opened Policy
  import opened Marking
  import Glob

  /** The walk may step into directory `d`. */
  predicate Clear(fs: Fs, w: Watch, d: Path) {
    d != [] && !w.excluded(d) && Parent(d) !in fs.unreadable
  }

  /** Nothing strictly between the root and `p` stops the walk. */
  ghost predicate ClearWay(fs: Fs, w: Watch, p: Path) {
    forall k :: |w.root| < k < |p| ==> Clear(fs, w, p[..k])
  }

  /** With shallow patterns only, what is in scope lies directly in the root. */
  lemma ShallowScopeIsFlat(w: Watch, p: Path)
    requires !w.Recursive() && w.root < p && w.IsIncluded(p)
    ensures Parent(p) == w.root
  {
    var i :| 0 <= i < |w.patterns| && Glob.Matches(w.patterns[i], Join(p[|w.root|..]));
    if |p| > |w.root| + 1 {
      JoinHasSlash(p[|w.root|..]);
      Glob.DeepIffCrossesSeparator(w.patterns[i]);
    }
  }

  /** A directory watch marks the parent of everything in its scope that can be
  reached without passing an excluded directory.  For a recursive watch this is
  exact: nothing else gets a marked parent. */
  lemma MarksSufficeForScope(fs: Fs, w: Watch, p: Path)
    requires fs.WellFormed() && fs.IsDir(w.root)
    requires p in fs.kinds && w.root < p && w.IsIncluded(p)
    ensures ClearWay(fs, w, p) ==> Parent(p) in ScanSet(fs, w)
    ensures w.Recursive() && Parent(p) in ScanSet(fs, w) ==> ClearWay(fs, w, p)
  {
    if w.Recursive() {
      forall k | |w.root| < k < |p| ensures fs.Enters(w.excluded, Parent(p)[..k]) <==> Clear(fs, w, p[..k]) {
        assert Parent(p)[..k] == p[..k];
        PrefixIsDir(fs, p, k);
        EntersIffClear(fs, w, p[..k]);
      }
    } else {
      ShallowScopeIsFlat(w, p);
    }
  }

  lemma EntersIffClear(fs: Fs, w: Watch, d: Path)
    requires fs.WellFormed() && fs.IsDir(d) && |d| > 1
    ensures fs.Enters(w.excluded, d) <==> Clear(fs, w, d)
  {
    assert fs.IsDir(Parent(d));
  }
}
