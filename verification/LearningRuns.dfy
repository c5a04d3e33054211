/** Learning over whole runs: the daemon's memory, the rules file that it saves to and
reloads from, and everybody else who edits that file. */
module LearningRuns {
  import opened Wrappers
  import opened FileSystem
  import opened Policy
  import opened EventLoop
  import opened Learning
  import H = RuleHistory
  import R = Rules
  import U = UiServer

  datatype World = World(loop: LoopState, file: R.RulesText)

  /** The daemon serves an access, and a save that this calls for works or not;
  `filewallctl` removes rules from the file; the file is edited by hand, damaged
  or deleted; the daemon reloads.  A reload with a bad configuration changes nothing. */
  datatype Change =
    | Serves(a: Access, links: U.Links, saved: bool)
    | Removes(ids: seq<u64>, saved: bool)
    | Rewrites(text: R.RulesText)
    | Reloads(policy: Policy)

  /** Serving this access adds a rule, which the daemon then tries to save. */
  predicate Learns(w: World, ownPid: nat, a: Access, links: U.Links) {
    Serve(w.loop.(links := links), ownPid, a).1.store != w.loop.store
  }

  function Changed(w: World, ownPid: nat, c: Change): World {
    match c
    case Serves(a, links, saved) =>
      var after := Serve(w.loop.(links := links), ownPid, a).1;
      World(after, if saved && Learns(w, ownPid, a, links) then R.Content(after.store) else w.file)
    case Removes(ids, saved) =>
      var loaded := R.Load(w.file);
      if saved && R.Taken(loaded.rules, ids) != []
      then w.(file := R.Content(R.Store(loaded.nextId, R.Retain(loaded.rules, ids))))
      else w
    case Rewrites(text) => w.(file := text)
    case Reloads(policy) => w.(loop := w.loop.(policy := policy, store := R.Load(w.file)))
  }

  function After(w: World, ownPid: nat, changes: seq<Change>): World
    decreases |changes|
  {
    if changes == [] then w
    else Changed(After(w, ownPid, changes[..|changes| - 1]), ownPid, changes[|changes| - 1])
  }

  lemma AfterStep(w: World, ownPid: nat, changes: seq<Change>, n: nat)
    requires n < |changes|
    ensures After(w, ownPid, changes[..n + 1]) == Changed(After(w, ownPid, changes[..n]), ownPid, changes[n])
  {
    assert changes[..n + 1][..n] == changes[..n];
  }

  // ---- A rule in memory, a rule in the file --------------------------------

  predicate InMemory(w: World, rule: R.LearnedRule) {
    rule in w.loop.store.rules
  }

  /** Loading the file now would yield the rule. */
  predicate InFile(w: World, rule: R.LearnedRule) {
    rule in R.Load(w.file).rules
  }

  /** Every reload finds the rule in the file. */
  ghost predicate HeldAtReloads(w: World, ownPid: nat, changes: seq<Change>, rule: R.LearnedRule) {
    forall n :: 0 <= n < |changes| && changes[n].Reloads? ==> InFile(After(w, ownPid, changes[..n]), rule)
  }

  lemma MemoryStep(w: World, ownPid: nat, c: Change, rule: R.LearnedRule)
    requires if c.Reloads? then InFile(w, rule) else InMemory(w, rule)
    ensures InMemory(Changed(w, ownPid, c), rule)
  {
    if c.Serves? {
      ServeKeepsRules(w.loop.(links := c.links), ownPid, c.a, rule);
    }
  }

  lemma MemoryAt(w: World, ownPid: nat, changes: seq<Change>, rule: R.LearnedRule, n: nat)
    requires n < |changes| && InMemory(After(w, ownPid, changes[..n]), rule)
    requires changes[n].Reloads? ==> InFile(After(w, ownPid, changes[..n]), rule)
    ensures InMemory(After(w, ownPid, changes[..n + 1]), rule)
  {
    AfterStep(w, ownPid, changes, n);
    MemoryStep(After(w, ownPid, changes[..n]), ownPid, changes[n], rule);
  }

  lemma {:induction false} HeldIsKept(w: World, ownPid: nat, changes: seq<Change>, rule: R.LearnedRule, n: nat)
    requires InMemory(w, rule) && HeldAtReloads(w, ownPid, changes, rule) && n <= |changes|
    ensures InMemory(After(w, ownPid, changes[..n]), rule)
  {
    if n > 0 {
      HeldIsKept(w, ownPid, changes, rule, n - 1);
      MemoryAt(w, ownPid, changes, rule, n - 1);
    }
  }

  /** Exactly when a rule stays in memory throughout a run: each reload finds it in
  the file.  Nothing else takes a rule out of memory. */
  lemma RuleKeptIff(w: World, ownPid: nat, changes: seq<Change>, rule: R.LearnedRule)
    requires InMemory(w, rule)
    ensures (forall n :: 0 <= n <= |changes| ==> InMemory(After(w, ownPid, changes[..n]), rule))
            <==> HeldAtReloads(w, ownPid, changes, rule)
  {
    if HeldAtReloads(w, ownPid, changes, rule) {
      forall n | 0 <= n <= |changes| ensures InMemory(After(w, ownPid, changes[..n]), rule) {
        HeldIsKept(w, ownPid, changes, rule, n);
      }
    }
    if forall n :: 0 <= n <= |changes| ==> InMemory(After(w, ownPid, changes[..n]), rule) {
      forall n | 0 <= n < |changes| && changes[n].Reloads?
        ensures InFile(After(w, ownPid, changes[..n]), rule)
      {
        AfterStep(w, ownPid, changes, n);
        assert InMemory(After(w, ownPid, changes[..n + 1]), rule);
      }
    }
  }

  // ---- "Always" means always -----------------------------------------------

  /** The user is asked about `a` and answers "Always". */
  predicate AnswersAlways(w: World, ownPid: nat, a: Access, links: U.Links, decision: U.Decision) {
    && Classify(w.loop.policy, w.loop.store.rules, ownPid, a).Ask?
    && FirstCovering(w.loop.policy, a.Path()).Some?
    && U.PromptOnce(links).0 == U.Answer(decision) && Always(decision)
  }

  ghost function NewRule(w: World, ownPid: nat, a: Access, links: U.Links, decision: U.Decision): R.LearnedRule
    requires AnswersAlways(w, ownPid, a, links, decision)
  {
    Learned(w.loop.policy, w.loop.store, a, ActionOf(decision))
  }

  lemma AnswerIsLearned(w: World, ownPid: nat, a: Access, links: U.Links, decision: U.Decision, saved: bool)
    requires AnswersAlways(w, ownPid, a, links, decision)
    ensures InMemory(Changed(w, ownPid, Serves(a, links, saved)), NewRule(w, ownPid, a, links, decision))
    ensures Learns(w, ownPid, a, links)
  {
    ServeLearns(w.loop.(links := links), ownPid, a, decision);
    var rule := NewRule(w, ownPid, a, links, decision);
    assert |w.loop.store.rules + [rule]| == |w.loop.store.rules| + 1;
  }

  /** Main theorem: after an "Always" answer, over every run of served accesses,
  removals, edits of the file and reloads, the same access is settled without
  asking as long as each reload finds the rule in the file; and after "Deny
  always" it is not allowed while in scope. */
  lemma AlwaysMeansAlways(w: World, ownPid: nat, a: Access, links: U.Links, decision: U.Decision, saved: bool,
                          changes: seq<Change>, a': Access)
    requires AnswersAlways(w, ownPid, a, links, decision)
    requires HeldAtReloads(Changed(w, ownPid, Serves(a, links, saved)), ownPid, changes,
                           NewRule(w, ownPid, a, links, decision))
    requires a'.Path() == a.Path() && a'.exe == a.exe && a'.cwd == a.cwd
    ensures var later := After(Changed(w, ownPid, Serves(a, links, saved)), ownPid, changes).loop;
            && Classify(later.policy, later.store.rules, ownPid, a').Settled?
            && (decision.DenyAlways? && Serve(later, ownPid, a').0 ==> OutOfScope(later.policy, ownPid, a'))
  {
    var answered := Changed(w, ownPid, Serves(a, links, saved));
    AnswerIsLearned(w, ownPid, a, links, decision, saved);
    HeldIsKept(answered, ownPid, changes, NewRule(w, ownPid, a, links, decision), |changes|);
    assert changes[..|changes|] == changes;
    var later := After(answered, ownPid, changes).loop;
    LearningSettles(w.loop.policy, w.loop.store, ownPid, a, ActionOf(decision),
                    later.policy, later.store.rules, a');
  }

  // ---- When each reload finds the rule -------------------------------------

  /** The change does not take the rule out of the file. */
  predicate Spares(c: Change, rule: R.LearnedRule) {
    match c
    case Removes(ids, _) => rule.id !in ids
    case Rewrites(text) => rule in R.Load(text).rules
    case _ => true
  }

  /** A rule with an id survives saving and loading. */
  lemma SavedIsLoaded(store: R.Store, rule: R.LearnedRule)
    requires rule in store.rules && rule.id != 0
    ensures rule in R.Load(R.Content(store)).rules
  {
    var i :| 0 <= i < |store.rules| && store.rules[i] == rule;
    var next := R.Max(store.nextId, R.Succ(R.MaxId(store.rules)));
    H.StampKeepsAssigned(next, store.rules, i);
  }

  lemma FileStep(w: World, ownPid: nat, c: Change, rule: R.LearnedRule)
    requires rule.id != 0 && InMemory(w, rule) && InFile(w, rule) && Spares(c, rule)
    ensures InMemory(Changed(w, ownPid, c), rule) && InFile(Changed(w, ownPid, c), rule)
  {
    MemoryStep(w, ownPid, c, rule);
    match c {
      case Serves(a, links, saved) =>
        if saved && Learns(w, ownPid, a, links) {
          SavedIsLoaded(Changed(w, ownPid, c).loop.store, rule);
        }
      case Removes(ids, saved) =>
        var loaded := R.Load(w.file);
        R.RemovalSplits(loaded.rules, ids, rule);
        SavedIsLoaded(R.Store(loaded.nextId, R.Retain(loaded.rules, ids)), rule);
      case _ =>
    }
  }

  /** A save that works puts every rule in memory into the file. */
  lemma SaveHolds(w: World, ownPid: nat, c: Change, rule: R.LearnedRule)
    requires c.Serves? && c.saved && Learns(w, ownPid, c.a, c.links)
    requires rule.id != 0 && InMemory(w, rule)
    ensures InFile(Changed(w, ownPid, c), rule)
  {
    MemoryStep(w, ownPid, c, rule);
    SavedIsLoaded(Changed(w, ownPid, c).loop.store, rule);
  }

  lemma {:induction false} SavedStaysHeld(w: World, ownPid: nat, changes: seq<Change>, rule: R.LearnedRule,
                                          m: nat, n: nat)
    requires rule.id != 0 && m <= n <= |changes|
    requires InMemory(After(w, ownPid, changes[..m]), rule) && InFile(After(w, ownPid, changes[..m]), rule)
    requires forall i :: m <= i < |changes| ==> Spares(changes[i], rule)
    ensures InMemory(After(w, ownPid, changes[..n]), rule) && InFile(After(w, ownPid, changes[..n]), rule)
    decreases n
  {
    if m < n {
      SavedStaysHeld(w, ownPid, changes, rule, m, n - 1);
      AfterStep(w, ownPid, changes, n - 1);
      FileStep(After(w, ownPid, changes[..n - 1]), ownPid, changes[n - 1], rule);
    }
  }

  lemma {:induction false} KeptUntilReload(w: World, ownPid: nat, changes: seq<Change>, rule: R.LearnedRule, n: nat)
    requires InMemory(w, rule) && n <= |changes|
    requires forall i :: 0 <= i < n ==> !changes[i].Reloads?
    ensures InMemory(After(w, ownPid, changes[..n]), rule)
  {
    if n > 0 {
      KeptUntilReload(w, ownPid, changes, rule, n - 1);
      MemoryAt(w, ownPid, changes, rule, n - 1);
    }
  }

  /** The m-th change is a save that works. */
  predicate SavesAt(w: World, ownPid: nat, changes: seq<Change>, m: nat)
    requires m < |changes|
  {
    && changes[m].Serves? && changes[m].saved
    && Learns(After(w, ownPid, changes[..m]), ownPid, changes[m].a, changes[m].links)
  }

  /** What makes every reload find the rule: before the first reload some save works,
  be it that of the answer itself or a later one, and from then on nobody removes
  the rule by its id, edits it away, or damages or deletes the file. */
  lemma SavedInTimeIsHeld(w: World, ownPid: nat, changes: seq<Change>, rule: R.LearnedRule, m: nat)
    requires rule.id != 0 && InMemory(w, rule) && m <= |changes|
    requires forall i :: 0 <= i < m ==> !changes[i].Reloads?
    requires if m == 0 then InFile(w, rule) else SavesAt(w, ownPid, changes, m - 1)
    requires forall i :: m <= i < |changes| ==> Spares(changes[i], rule)
    ensures HeldAtReloads(w, ownPid, changes, rule)
  {
    KeptUntilReload(w, ownPid, changes, rule, m);
    if m > 0 {
      KeptUntilReload(w, ownPid, changes, rule, m - 1);
      AfterStep(w, ownPid, changes, m - 1);
      SaveHolds(After(w, ownPid, changes[..m - 1]), ownPid, changes[m - 1], rule);
    } else {
      assert changes[..0] == [];
    }
    forall n | 0 <= n < |changes| && changes[n].Reloads?
      ensures InFile(After(w, ownPid, changes[..n]), rule)
    {
      SavedStaysHeld(w, ownPid, changes, rule, m, n);
    }
  }

  /** The answer's own save is enough for the file to hold the rule. */
  lemma AnswerIsHeld(w: World, ownPid: nat, a: Access, links: U.Links, decision: U.Decision)
    requires AnswersAlways(w, ownPid, a, links, decision)
    ensures NewRule(w, ownPid, a, links, decision).id != 0
    ensures InFile(Changed(w, ownPid, Serves(a, links, true)), NewRule(w, ownPid, a, links, decision))
  {
    AnswerIsLearned(w, ownPid, a, links, decision, true);
    SavedIsLoaded(Changed(w, ownPid, Serves(a, links, true)).loop.store, NewRule(w, ownPid, a, links, decision));
  }

  /** In one: if the save of an "Always" answer works, and nobody removes the rule by
  its id, edits it away, or damages or deletes the file, then over every run, with
  any number of reloads and later saves that fail, the access is never asked about. */
  lemma SavedAnswerIsForGood(w: World, ownPid: nat, a: Access, links: U.Links, decision: U.Decision,
                             changes: seq<Change>, a': Access)
    requires AnswersAlways(w, ownPid, a, links, decision)
    requires forall i :: 0 <= i < |changes| ==> Spares(changes[i], NewRule(w, ownPid, a, links, decision))
    requires a'.Path() == a.Path() && a'.exe == a.exe && a'.cwd == a.cwd
    ensures var later := After(Changed(w, ownPid, Serves(a, links, true)), ownPid, changes).loop;
            && Classify(later.policy, later.store.rules, ownPid, a').Settled?
            && (decision.DenyAlways? && Serve(later, ownPid, a').0 ==> OutOfScope(later.policy, ownPid, a'))
  {
    AnswerIsLearned(w, ownPid, a, links, decision, true);
    AnswerIsHeld(w, ownPid, a, links, decision);
    SavedInTimeIsHeld(Changed(w, ownPid, Serves(a, links, true)), ownPid, changes,
                      NewRule(w, ownPid, a, links, decision), 0);
    AlwaysMeansAlways(w, ownPid, a, links, decision, true, changes, a');
  }

  /** The premise is needed: when memory and file agree, and the save of an "Always"
  answer fails, the next reload forgets the rule, and the same access asks again. */
  lemma UnsavedAnswerIsAskedAgain(w: World, ownPid: nat, a: Access, links: U.Links, decision: U.Decision)
    requires AnswersAlways(w, ownPid, a, links, decision) && R.Load(w.file) == w.loop.store
    ensures var changes := [Serves(a, links, false), Reloads(w.loop.policy)];
            var later := After(w, ownPid, changes).loop;
            Classify(later.policy, later.store.rules, ownPid, a) == Classify(w.loop.policy, w.loop.store.rules, ownPid, a)
  {
    var changes := [Serves(a, links, false), Reloads(w.loop.policy)];
    assert changes[..1] == [changes[0]] && changes[..1][..0] == [];
    assert After(w, ownPid, changes[..1]) == Changed(w, ownPid, changes[0]);
  }

  const WATCHED: Path := ["/", "w"]
  const GUARD: Watch := Watch(WATCHED, exe => false, PromptAction, R.FileObject, false, path => false, [])
  const OPEN: Access := Access(true, 2, Some(["/", "w", "f"]), "/bin/cat", "/", "cat f", 0)
  const WILLING: U.Links := U.Links(Some(U.Peer([U.Answer(U.AllowAlways)])), [], 0)
  const FIRST: World := World(LoopState([GUARD], R.EMPTY_STORE, U.Links(None, [], 0)), R.Unparseable)

  /** Such a run: no rules file yet, one access, an answer that cannot be saved, a reload. */
  lemma ForgottenAnswer()
    ensures AnswersAlways(FIRST, 1, OPEN, WILLING, U.AllowAlways)
    ensures var later := After(FIRST, 1, [Serves(OPEN, WILLING, false), Reloads([GUARD])]).loop;
            Classify(later.policy, later.store.rules, 1, OPEN).Ask?
  {
    assert FirstCovering([GUARD], OPEN.Path()) == Some(0);
    UnsavedAnswerIsAskedAgain(FIRST, 1, OPEN, WILLING, U.AllowAlways);
  }

  // ---- What the next reload finds ------------------------------------------

  /** Every rule that a load of the file yields has an id. */
  predicate Assigned(w: World) {
    forall r :: r in R.Load(w.file).rules ==> r.id != 0
  }

  lemma LoadOfAssigned(store: R.Store)
    requires forall r :: r in store.rules ==> r.id != 0
    ensures R.Load(R.Content(store)).rules == store.rules
  {
    H.NoneUnassigned(store.rules);
    H.StampFixes(R.Max(store.nextId, R.Succ(R.MaxId(store.rules))), store.rules);
  }

  /** What a removal leaves in the file. */
  lemma FileAfterRemoval(w: World, ownPid: nat, ids: seq<u64>, saved: bool, rule: R.LearnedRule)
    requires Assigned(w)
    ensures var after := Changed(w, ownPid, Removes(ids, saved));
            Assigned(after) && (InFile(after, rule) <==> InFile(w, rule) && (saved ==> rule.id !in ids))
  {
    var loaded := R.Load(w.file);
    R.RemovalSplits(loaded.rules, ids, rule);
    if R.Taken(loaded.rules, ids) != [] {
      H.RetainIsPart(loaded.rules, ids);
      LoadOfAssigned(R.Store(loaded.nextId, R.Retain(loaded.rules, ids)));
    }
  }

  /** A removal never touches memory, and writes the file only if it works and some rule
  in the file has one of the ids. */
  lemma RemovalWritesIff(w: World, ownPid: nat, ids: seq<u64>, saved: bool)
    ensures var after := Changed(w, ownPid, Removes(ids, saved));
            && after.loop == w.loop
            && (!(saved && exists r :: r in R.Load(w.file).rules && r.id in ids) ==> after.file == w.file)
            && (saved && (exists r :: r in R.Load(w.file).rules && r.id in ids) ==>
                  after.file == R.Content(R.Store(R.Load(w.file).nextId, R.Retain(R.Load(w.file).rules, ids))))
  {
    var rules := R.Load(w.file).rules;
    var taken := R.Taken(rules, ids);
    if r :| r in rules && r.id in ids {
      R.RemovalSplits(rules, ids, r);
    }
    if taken != [] {
      R.RemovalSplits(rules, ids, taken[0]);
    }
  }

  predicate Writes(w: World, ownPid: nat, c: Change) {
    c.Rewrites? || (c.Serves? && c.saved && Learns(w, ownPid, c.a, c.links))
  }

  predicate WritesAt(w: World, ownPid: nat, changes: seq<Change>, n: nat)
    requires n < |changes|
  {
    Writes(After(w, ownPid, changes[..n]), ownPid, changes[n])
  }

  lemma StaysOutStep(w: World, ownPid: nat, c: Change, rule: R.LearnedRule)
    requires Assigned(w) && !InFile(w, rule) && !Writes(w, ownPid, c)
    ensures Assigned(Changed(w, ownPid, c)) && !InFile(Changed(w, ownPid, c), rule)
  {
    if c.Removes? {
      FileAfterRemoval(w, ownPid, c.ids, c.saved, rule);
    }
  }

  lemma {:induction false} StaysOut(w: World, ownPid: nat, changes: seq<Change>, rule: R.LearnedRule, n: nat)
    requires Assigned(w) && !InFile(w, rule) && n <= |changes|
    requires forall i :: 0 <= i < n ==> !WritesAt(w, ownPid, changes, i)
    ensures Assigned(After(w, ownPid, changes[..n])) && !InFile(After(w, ownPid, changes[..n]), rule)
  {
    if n > 0 {
      StaysOut(w, ownPid, changes, rule, n - 1);
      AfterStep(w, ownPid, changes, n - 1);
      assert !WritesAt(w, ownPid, changes, n - 1);
      StaysOutStep(After(w, ownPid, changes[..n - 1]), ownPid, changes[n - 1], rule);
    }
  }

  lemma WrittenIsThere(w: World, ownPid: nat, changes: seq<Change>, rule: R.LearnedRule, n: nat)
    requires rule.id != 0 && InMemory(w, rule) && n < |changes| && WritesAt(w, ownPid, changes, n)
    requires forall i :: 0 <= i < |changes| ==> !changes[i].Reloads? && Spares(changes[i], rule)
    ensures InFile(After(w, ownPid, changes), rule)
  {
    KeptUntilReload(w, ownPid, changes, rule, n);
    KeptUntilReload(w, ownPid, changes, rule, n + 1);
    AfterStep(w, ownPid, changes, n);
    if changes[n].Serves? {
      SaveHolds(After(w, ownPid, changes[..n]), ownPid, changes[n], rule);
    }
    SavedStaysHeld(w, ownPid, changes, rule, n + 1, |changes|);
    assert changes[..|changes|] == changes;
  }

  /** Exactly when the next reload finds a rule that memory holds and the file does not:
  some save of the daemon works before it, or somebody writes the rule. */
  lemma FoundAtReloadIff(w: World, ownPid: nat, changes: seq<Change>, rule: R.LearnedRule)
    requires rule.id != 0 && InMemory(w, rule) && !InFile(w, rule) && Assigned(w)
    requires forall i :: 0 <= i < |changes| ==> !changes[i].Reloads? && Spares(changes[i], rule)
    ensures InFile(After(w, ownPid, changes), rule)
            <==> exists n :: 0 <= n < |changes| && WritesAt(w, ownPid, changes, n)
  {
    if n :| 0 <= n < |changes| && WritesAt(w, ownPid, changes, n) {
      WrittenIsThere(w, ownPid, changes, rule, n);
    } else {
      StaysOut(w, ownPid, changes, rule, |changes|);
      assert changes[..|changes|] == changes;
    }
  }

  // ---- Removal, too, waits for a reload ------------------------------------

  lemma RemovalNow(w: World, ownPid: nat, ids: seq<u64>, rule: R.LearnedRule)
    requires rule.id in ids && InMemory(w, rule) && Assigned(w)
    ensures var removed := Changed(w, ownPid, Removes(ids, true));
            Assigned(removed) && !InFile(removed, rule) && InMemory(removed, rule)
  {
    FileAfterRemoval(w, ownPid, ids, true, rule);
  }

  lemma ReloadReads(w: World, ownPid: nat, policy: Policy, rule: R.LearnedRule)
    ensures InMemory(Changed(w, ownPid, Reloads(policy)), rule) <==> InFile(w, rule)
  {
  }

  /** Exactly when removing a rule by its id holds: the next reload comes before every
  save of the daemon that works.  A save in between writes the rule back. */
  lemma RemovalHoldsIff(w: World, ownPid: nat, ids: seq<u64>, changes: seq<Change>, policy: Policy, rule: R.LearnedRule)
    requires rule.id in ids && rule.id != 0 && InMemory(w, rule) && Assigned(w)
    requires forall i :: 0 <= i < |changes| ==>
               !changes[i].Reloads? && !changes[i].Rewrites? && Spares(changes[i], rule)
    ensures var removed := Changed(w, ownPid, Removes(ids, true));
            var reloaded := Changed(After(removed, ownPid, changes), ownPid, Reloads(policy));
            && !InFile(removed, rule)
            && (!InMemory(reloaded, rule) <==>
                  forall n :: 0 <= n < |changes| ==> !WritesAt(removed, ownPid, changes, n))
  {
    var removed := Changed(w, ownPid, Removes(ids, true));
    RemovalNow(w, ownPid, ids, rule);
    FoundAtReloadIff(removed, ownPid, changes, rule);
    ReloadReads(After(removed, ownPid, changes), ownPid, policy, rule);
  }

  const KEPT: R.LearnedRule := R.LearnedRule(1, 0, R.Allow, "/bin/cat", ["/", "w", "x"], R.FileObject, None)
  const STORED: R.Store := R.Store(2, [KEPT])
  const SECOND: World := World(LoopState([GUARD], STORED, U.Links(None, [], 0)), R.Content(STORED))

  lemma SecondIsAsked()
    ensures Assigned(SECOND) && InMemory(SECOND, KEPT)
    ensures AnswersAlways(SECOND, 1, OPEN, WILLING, U.AllowAlways)
  {
    LoadOfAssigned(STORED);
    assert KEPT in STORED.rules;
    assert FirstCovering([GUARD], OPEN.Path()) == Some(0);
    assert !KEPT.Matches(OPEN.Path(), OPEN.exe, Some(OPEN.cwd));
  }

  /** A removed rule that comes back: another access is answered "Always" and saved
  between the removal and the reload. */
  lemma RemovedRuleReturns()
    ensures var removed := Changed(SECOND, 1, Removes([1], true));
            var saved := After(removed, 1, [Serves(OPEN, WILLING, true)]);
            !InFile(removed, KEPT) && InMemory(Changed(saved, 1, Reloads([GUARD])), KEPT)
  {
    SecondIsAsked();
    var removed := Changed(SECOND, 1, Removes([1], true));
    var changes := [Serves(OPEN, WILLING, true)];
    AnswerIsLearned(removed, 1, OPEN, WILLING, U.AllowAlways, true);
    assert changes[..0] == [] && WritesAt(removed, 1, changes, 0);
    RemovalHoldsIff(SECOND, 1, [1], changes, [GUARD], KEPT);
  }

  // ---- No two rules say the same -------------------------------------------

  ghost predicate TwinFree(w: World) {
    NoTwins(w.loop.store.rules) && NoTwins(R.Load(w.file).rules)
  }

  lemma StepMakesNoTwins(w: World, ownPid: nat, c: Change)
    requires TwinFree(w) && (c.Rewrites? ==> NoTwins(R.Load(c.text).rules))
    ensures TwinFree(Changed(w, ownPid, c))
  {
    match c {
      case Serves(a, links, saved) =>
        ServeMakesNoTwins(w.loop.(links := links), ownPid, a);
        LoadMakesNoTwins(Changed(w, ownPid, c).loop.store);
      case Removes(ids, saved) =>
        var loaded := R.Load(w.file);
        RetainMakesNoTwins(loaded.rules, ids);
        LoadMakesNoTwins(R.Store(loaded.nextId, R.Retain(loaded.rules, ids)));
      case _ =>
    }
  }

  /** Although nothing removes duplicates, neither memory nor file ever comes to hold
  two rules for the same program, object, kind and directory, over any run of
  served accesses, failing or working saves, removals and reloads, unless
  somebody writes such a file by hand. */
  lemma {:induction false} NoTwinsEver(w: World, ownPid: nat, changes: seq<Change>)
    requires TwinFree(w)
    requires forall c :: c in changes && c.Rewrites? ==> NoTwins(R.Load(c.text).rules)
    ensures TwinFree(After(w, ownPid, changes))
    decreases |changes|
  {
    if changes != [] {
      var earlier, last := changes[..|changes| - 1], changes[|changes| - 1];
      assert last in changes && forall c :: c in earlier ==> c in changes;
      NoTwinsEver(w, ownPid, earlier);
      StepMakesNoTwins(After(w, ownPid, earlier), ownPid, last);
    }
  }
}
