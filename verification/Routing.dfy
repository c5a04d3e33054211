/** Which watch takes a new directory, and when it does not matter.

Watches may be nested and may exclude different things.  A scan walks each watch
on its own, but a new directory goes to the first watch that covers it. */
module Routing {
  import opened Wrappers
  import opened FileSystem
  import opened Policy

  /** The watch excludes nothing on the way to `p`, from length `n` on. */
  ghost predicate Keeps(w: Watch, n: nat, p: Path) {
    forall k :: n <= k <= |p| ==> !w.excluded(p[..k])
  }

  /** If everything on the way is a readable directory, scanning `w` gets to `p`. */
  ghost predicate ScansTo(w: Watch, p: Path) {
    w.Recursive() && w.root != [] && w.root <= p && Keeps(w, |w.root| + 1, p)
  }

  /** If a tree that holds `p` is created at the first `n` components of `p`, the
  watch that takes it walks to `p`. */
  ghost predicate TakenTo(policy: Policy, n: nat, p: Path) {
    && 1 < n <= |p| && FirstCovering(policy, p[..n]).Some?
    && Keeps(policy[FirstCovering(policy, p[..n]).value], n, p)
  }

  /** Some run may come to watch `p`: by a scan, or by taking a new tree at a place
  whose parent it may come to watch. */
  ghost predicate Watchable(policy: Policy, p: Path)
    decreases |p|
  {
    || (exists i :: 0 <= i < |policy| && ScansTo(policy[i], p))
    || (exists n: nat {:trigger TakenTo(policy, n, p)} :: TakenTo(policy, n, p) && Watchable(policy, p[..n - 1]))
  }

  predicate RecursiveRoot(policy: Policy, p: Path) {
    exists i :: 0 <= i < |policy| && policy[i].Recursive() && policy[i].root == p
  }

  /** Watch `i` governs `q`, and when a tree that holds `q` is created at the first `n`
  components of `q`, an event tells, and the watch that takes it walks up to the
  parent of `q`.  (Where another recursive watch starts at `q`, the dump is not
  expected to know it before the next scan.) */
  ghost predicate Routed(policy: Policy, i: nat, n: nat, q: Path)
    requires i < |policy|
  {
    && policy[i].root < q && ScansTo(policy[i], q)
    && 1 < n <= |q| && Watchable(policy, q[..n - 1])
    && FirstCovering(policy, q[..n]).Some?
    && Keeps(policy[FirstCovering(policy, q[..n]).value], n, Parent(q))
    && !RecursiveRoot(policy, q)
  }

  /** Whatever is routed like that is not excluded by the watch that takes it. */
  ghost predicate SafeNesting(policy: Policy) {
    forall i: nat, n: nat, q: Path {:trigger Routed(policy, i, n, q)} ::
      i < |policy| && Routed(policy, i, n, q) ==> !policy[FirstCovering(policy, q[..n]).value].excluded(q)
  }

  /** Roots that are not nested are safe. */
  lemma NonNestedIsSafe(policy: Policy)
    requires NonNested(policy)
    ensures SafeNesting(policy)
  {
    forall i: nat, n: nat, q: Path | i < |policy| && Routed(policy, i, n, q)
      ensures !policy[FirstCovering(policy, q[..n]).value].excluded(q)
    {
      var c := FirstCovering(policy, q[..n]).value;
      PrefixTransitive(policy[c].root, q[..n], q);
      PrefixesComparable(policy[c].root, policy[i].root, q);
      assert q[..|q|] == q;
    }
  }

  /** The first place from length `n` on that the watch excludes. */
  lemma {:induction false} FirstExcluded(w: Watch, n: nat, p: Path) returns (k: nat)
    requires n <= |p| && !Keeps(w, n, p)
    ensures n <= k <= |p| && w.excluded(p[..k]) && forall j :: n <= j < k ==> !w.excluded(p[..j])
    decreases |p| - n
  {
    if w.excluded(p[..n]) {
      k := n;
    } else {
      k := FirstExcluded(w, n + 1, p);
    }
  }

  lemma ReachedIsScanned(fs: Fs, w: Watch, p: Path, k: nat)
    requires w.Recursive() && w.root != [] && fs.Reaches(w.excluded, w.root, p) && |w.root| <= k <= |p|
    ensures w.root <= p[..k] && ScansTo(w, p[..k])
  {
    forall j | |w.root| < j <= k ensures !w.excluded(p[..k][..j]) {
      assert p[..k][..j] == p[..j] && fs.Enters(w.excluded, p[..j]);
    }
  }

  /** A walk that excludes nothing on the way gets there, if another one does. */
  lemma KeptIsWalked(fs: Fs, c: Watch, w: Watch, newDir: Path, p: Path)
    requires newDir <= p && Keeps(c, |newDir|, p) && fs.Reaches(w.excluded, w.root, p)
    requires w.root < newDir || (newDir <= w.root && fs.Reaches(c.excluded, newDir, w.root))
    ensures !c.excluded(newDir) && fs.Reaches(c.excluded, newDir, p)
  {
    assert p[..|newDir|] == newDir;
    forall k | |newDir| < k <= |p| ensures fs.Enters(c.excluded, p[..k]) {
      if k <= |w.root| {
        assert p[..k] == w.root[..k];
      } else {
        assert fs.Enters(w.excluded, p[..k]);
      }
    }
  }

  /** What watch `i` reaches below a new directory is walked by the watch `c` that takes
  it, or lies at or below a directory where `c` stops and a recursive watch starts. */
  lemma WalkedOrRoot(fs: Fs, policy: Policy, i: nat, c: nat, newDir: Path, p: Path)
    requires SafeNesting(policy) && i < |policy| && policy[i].Recursive() && policy[i].root != []
    requires fs.Reaches(policy[i].excluded, policy[i].root, p) && 1 < |newDir| && newDir <= p
    requires FirstCovering(policy, newDir) == Some(c) && Watchable(policy, Parent(newDir))
    requires || policy[i].root < newDir
             || (&& newDir <= policy[i].root && !policy[c].excluded(newDir)
                 && fs.Reaches(policy[c].excluded, newDir, policy[i].root))
    ensures || (!policy[c].excluded(newDir) && fs.Reaches(policy[c].excluded, newDir, p))
            || StopsAtRoot(fs, policy, c, newDir, p)
  {
    var w, n := policy[i], |newDir|;
    if Keeps(policy[c], n, p) {
      KeptIsWalked(fs, policy[c], w, newDir, p);
    } else {
      var k := FirstExcluded(policy[c], n, p);
      PastTheRoot(fs, policy[c], w, newDir, p, k);
      StopIsRoot(policy, fs, i, c, newDir, p, k);
    }
  }

  /** `c` stops on the way to `p` at a directory where a recursive watch starts. */
  ghost predicate StopsAtRoot(fs: Fs, policy: Policy, c: nat, newDir: Path, p: Path)
    requires c < |policy|
  {
    exists k :: |newDir| <= k <= |p| && policy[c].excluded(p[..k]) && RecursiveRoot(policy, p[..k]) && fs.IsDir(p[..k])
  }

  lemma PastTheRoot(fs: Fs, c: Watch, w: Watch, newDir: Path, p: Path, k: nat)
    requires newDir <= p && |newDir| <= k <= |p| && w.root <= p
    requires || w.root < newDir
             || (newDir <= w.root && !c.excluded(newDir) && fs.Reaches(c.excluded, newDir, w.root))
    ensures c.excluded(p[..k]) ==> |w.root| < k
  {
    if newDir <= w.root && k <= |w.root| {
      assert p[..k] == w.root[..k] && newDir == w.root[..|newDir|];
      if |newDir| < k {
        assert fs.Enters(c.excluded, w.root[..k]);
      }
    }
  }

  lemma StopIsRoot(policy: Policy, fs: Fs, i: nat, c: nat, newDir: Path, p: Path, k: nat)
    requires SafeNesting(policy) && i < |policy| && policy[i].Recursive() && policy[i].root != []
    requires fs.Reaches(policy[i].excluded, policy[i].root, p) && 1 < |newDir| && newDir <= p
    requires FirstCovering(policy, newDir) == Some(c) && Watchable(policy, Parent(newDir))
    requires |newDir| <= k <= |p| && |policy[i].root| < k && policy[c].excluded(p[..k])
    requires forall j :: |newDir| <= j < k ==> !policy[c].excluded(p[..j])
    ensures StopsAtRoot(fs, policy, c, newDir, p)
  {
    var q := p[..k];
    ReachedIsScanned(fs, policy[i], p, k);
    assert fs.Enters(policy[i].excluded, q);
    forall j | |newDir| <= j <= |Parent(q)| ensures !policy[c].excluded(Parent(q)[..j]) {
      assert Parent(q)[..j] == p[..j];
    }
    RoutedUnlessRoot(policy, i, c, newDir, q);
  }

  lemma RoutedUnlessRoot(policy: Policy, i: nat, c: nat, newDir: Path, q: Path)
    requires i < |policy| && policy[i].root < q && ScansTo(policy[i], q)
    requires 1 < |newDir| && newDir <= q && Watchable(policy, Parent(newDir))
    requires FirstCovering(policy, newDir) == Some(c) && Keeps(policy[c], |newDir|, Parent(q))
    ensures q[..|newDir|] == newDir
    ensures !RecursiveRoot(policy, q) ==> Routed(policy, i, |newDir|, q)
  {
    assert q[..|newDir|] == newDir && q[..|newDir| - 1] == Parent(newDir);
  }

  /** What a run may come to watch lies in some watch. */
  lemma WatchableIsInside(policy: Policy, p: Path) returns (i: nat)
    requires Watchable(policy, p)
    ensures i < |policy| && policy[i].root <= p
  {
    if j :| 0 <= j < |policy| && ScansTo(policy[j], p) {
      i := j;
    } else {
      var n: nat :| TakenTo(policy, n, p) && Watchable(policy, p[..n - 1]);
      i := FirstCovering(policy, p[..n]).value;
      PrefixTransitive(policy[i].root, p[..n], p);
    }
  }
}
