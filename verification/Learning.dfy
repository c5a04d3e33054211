/** What learning guarantees: fail-closed answers, rules that mean what the
prompt said, and prompts that do not come back. */
module Learning {
  import opened Wrappers
  import opened FileSystem
  import opened Policy
  import opened EventLoop
  import R = Rules
  import U = UiServer

  /** The watches let `a` pass without looking at who asks. */
  predicate OutOfScope(policy: Policy, ownPid: nat, a: Access) {
    || !a.openPerm || a.pid == ownPid
    || exists i :: 0 <= i < |policy| && FirstCovering(policy, a.Path()) == Some(i)
                   && (policy[i].excluded(a.Path()) || !policy[i].IsIncluded(a.Path()))
  }

  /** The rule is about this program, this path or a tree that holds it, and, if it pins
  a directory, the one the program runs in. */
  predicate Speaks(r: R.LearnedRule, a: Access) {
    && r.exe == a.exe
    && (if r.objectKind == R.TreeObject then r.target <= a.Path() else r.target == a.Path())
    && (r.cwd == None || r.cwd == Some(a.cwd))
  }

  predicate SomeSpeaks(rules: seq<R.LearnedRule>, action: R.RuleAction, a: Access) {
    exists r :: r in rules && r.action == action && Speaks(r, a)
  }

  lemma SpeaksIff(rules: seq<R.LearnedRule>, action: R.RuleAction, a: Access)
    ensures SomeSpeaks(rules, action, a) <==> R.SomeRule(rules, action, a.Path(), a.exe, Some(a.cwd))
  {
    R.SomeRuleIn(rules, a.Path(), a.exe, Some(a.cwd));
    if r :| r in rules && r.action == action && Speaks(r, a) {
      assert r.Matches(a.Path(), a.exe, Some(a.cwd));
    }
    if r :| r in rules && r.action == action && r.Matches(a.Path(), a.exe, Some(a.cwd)) {
      assert Speaks(r, a);
    }
  }

  /** The answer that the helper gives to a question in this state. */
  function Answered(s: LoopState): U.Reply {
    U.PromptOnce(s.links).0
  }

  /** In every state of the loop: an event is allowed exactly if it is out of scope,
  if no deny applies and the watch or a rule allows, or if no deny applies and the
  reply read for this event allows.  Every failure of the prompt denies. */
  lemma AnswersAreFailClosed(s: LoopState, ownPid: nat, a: Access)
    ensures var covering := FirstCovering(s.policy, a.Path());
            Serve(s, ownPid, a).0 <==>
              || OutOfScope(s.policy, ownPid, a)
              || (&& !SomeSpeaks(s.store.rules, R.Deny, a)
                  && (covering.Some? && !s.policy[covering.value].allow(a.exe) ==>
                        !s.policy[covering.value].defaultAction.DenyAction?)
                  && (|| covering.None?
                      || s.policy[covering.value].allow(a.exe)
                      || s.policy[covering.value].defaultAction.AllowAction?
                      || SomeSpeaks(s.store.rules, R.Allow, a)
                      || Answered(s) == U.Answer(U.AllowOnce)
                      || Answered(s) == U.Answer(U.AllowAlways)))
  {
    SpeaksIff(s.store.rules, R.Deny, a);
    SpeaksIff(s.store.rules, R.Allow, a);
    InScopeIsJudged(s.policy, s.store.rules, ownPid, a);
  }

  lemma InScopeIsJudged(policy: Policy, rules: seq<R.LearnedRule>, ownPid: nat, a: Access)
    ensures Classify(policy, rules, ownPid, a)
            == if OutOfScope(policy, ownPid, a) then Settled(true)
               else match Judge(policy, rules, a)
                    case Allow => Settled(true)
                    case Deny => Settled(false)
                    case Prompt => Ask(Request(policy, a))
  {
  }

  /** An open of a path that lies at or below the root of exactly one watch, and that
  this watch neither excludes nor leaves out, is judged by that watch. */
  lemma JudgedByItsWatch(s: LoopState, ownPid: nat, a: Access, i: nat)
    requires a.openPerm && a.pid != ownPid && i < |s.policy|
    requires forall j :: 0 <= j < |s.policy| ==> (s.policy[j].root <= a.Path() <==> j == i)
    requires !s.policy[i].excluded(a.Path()) && s.policy[i].IsIncluded(a.Path())
    ensures Serve(s, ownPid, a).0 <==>
            && !SomeSpeaks(s.store.rules, R.Deny, a)
            && (|| s.policy[i].allow(a.exe)
                || s.policy[i].defaultAction == AllowAction
                || (&& s.policy[i].defaultAction == PromptAction
                    && (|| SomeSpeaks(s.store.rules, R.Allow, a)
                        || Answered(s) == U.Answer(U.AllowOnce)
                        || Answered(s) == U.Answer(U.AllowAlways))))
  {
    assert FirstCovering(s.policy, a.Path()) == Some(i);
    AnswersAreFailClosed(s, ownPid, a);
  }

  /** The user is asked exactly if the access is in scope of a watch that does not
  know the program and prompts by default, and no learned rule speaks about it. */
  lemma AskedIff(policy: Policy, rules: seq<R.LearnedRule>, ownPid: nat, a: Access)
    ensures var covering := FirstCovering(policy, a.Path());
            Classify(policy, rules, ownPid, a).Ask? <==>
              && !OutOfScope(policy, ownPid, a) && covering.Some?
              && !policy[covering.value].allow(a.exe) && policy[covering.value].defaultAction == PromptAction
              && forall r :: r in rules ==> !Speaks(r, a)
  {
    SpeaksIff(rules, R.Deny, a);
    SpeaksIff(rules, R.Allow, a);
    InScopeIsJudged(policy, rules, ownPid, a);
    forall r | r in rules && Speaks(r, a) ensures SomeSpeaks(rules, r.action, a) {
    }
  }

  /** What serving changes: nothing unless the user is asked; then the link as the
  exchange leaves it, and the store exactly if the answer is an "Always". */
  lemma RememberedIff(s: LoopState, ownPid: nat, a: Access)
    ensures var (allow, s') := Serve(s, ownPid, a);
            var asked := Classify(s.policy, s.store.rules, ownPid, a).Ask?;
            && s'.policy == s.policy
            && s'.links == (if asked then U.PromptOnce(s.links).1 else s.links)
            && (s'.store != s.store <==>
                  asked && (Answered(s) == U.Answer(U.AllowAlways) || Answered(s) == U.Answer(U.DenyAlways)))
  {
    var (allow, s') := Serve(s, ownPid, a);
    if Classify(s.policy, s.store.rules, ownPid, a).Ask? {
      AskedMeansUndecided(s.policy, s.store.rules, ownPid, a);
      assert s'.store == s.store || |s'.store.rules| == |s.store.rules| + 1;
    }
  }

  /** A question is only asked on a covered path that no learned rule speaks about. */
  lemma AskedMeansUndecided(policy: Policy, rules: seq<R.LearnedRule>, ownPid: nat, a: Access)
    requires Classify(policy, rules, ownPid, a).Ask?
    ensures FirstCovering(policy, a.Path()).Some?
    ensures forall i :: 0 <= i < |rules| ==> !rules[i].Matches(a.Path(), a.exe, Some(a.cwd))
  {
    forall i | 0 <= i < |rules| ensures !rules[i].Matches(a.Path(), a.exe, Some(a.cwd)) {
      if rules[i].Matches(a.Path(), a.exe, Some(a.cwd)) {
        MatchingRuleDecides(rules, i, a);
      }
    }
  }

  lemma MatchingRuleDecides(rules: seq<R.LearnedRule>, i: nat, a: Access)
    requires i < |rules| && rules[i].Matches(a.Path(), a.exe, Some(a.cwd))
    ensures R.Verdict(rules, a.Path(), a.exe, Some(a.cwd)).Some?
  {
    assert R.SomeRule(rules, rules[i].action, a.Path(), a.exe, Some(a.cwd));
  }

  /** The rule an "Always" answer to the question about `a` adds. */
  ghost function Learned(policy: Policy, store: R.Store, a: Access, action: R.RuleAction): R.LearnedRule
    requires FirstCovering(policy, a.Path()).Some?
  {
    policy[FirstCovering(policy, a.Path()).value]
      .LearnedRule(action, a.exe, a.Path(), Some(a.cwd), a.now).(id := R.Max(store.nextId, 1))
  }

  /** The answer is to be remembered. */
  predicate Always(decision: U.Decision) {
    decision == U.AllowAlways || decision == U.DenyAlways
  }

  /** The action of a rule that remembers the answer. */
  function ActionOf(decision: U.Decision): R.RuleAction {
    if decision == U.DenyAlways then R.Deny else R.Allow
  }

  /** The prompt shows the access as it is and what its watch would have an "Always"
  answer cover. */
  lemma PromptShowsAccess(policy: Policy, rules: seq<R.LearnedRule>, ownPid: nat, a: Access)
    requires Classify(policy, rules, ownPid, a).Ask?
    ensures FirstCovering(policy, a.Path()).Some?
    ensures var shown := Classify(policy, rules, ownPid, a).request;
            var w := policy[FirstCovering(policy, a.Path()).value];
            && shown.pid == a.pid && shown.exe == a.exe && shown.cmdline == a.cmdline && shown.cwd == a.cwd
            && shown.path == (if a.resolved.Some? then a.resolved.value else ["<unknown>"])
            && (shown.alwaysTree <==> w.learnObject == R.TreeObject)
            && shown.alwaysObject == (if w.learnObject == R.TreeObject then w.root else shown.path)
            && shown.alwaysCwdPinned == w.learnCwd
  {
    AskedMeansUndecided(policy, rules, ownPid, a);
  }

  /** The prompt shows exactly what is persisted: for all accesses, the new rule
  matches iff the program, the object or tree, and the pinned directory are the
  shown ones. */
  lemma ShownScopeIsPersisted(policy: Policy, store: R.Store, ownPid: nat, a: Access, decision: U.Decision,
                              path: Path, exe: string, cwd: Option<string>)
    requires Classify(policy, store.rules, ownPid, a).Ask?
    requires Always(decision)
    ensures FirstCovering(policy, a.Path()).Some?
    ensures var rule := Learned(policy, store, a, ActionOf(decision));
            var shown := Classify(policy, store.rules, ownPid, a).request;
            && Learn(policy, store, a, U.Answer(decision)).rules == store.rules + [rule]
            && rule.id == (if store.nextId == 0 then 1 else store.nextId) && rule.createdUnix == a.now
            && rule.action == (if decision == U.DenyAlways then R.Deny else R.Allow)
            && (rule.Matches(path, exe, cwd) <==>
                  && exe == shown.exe
                  && (if shown.alwaysTree then shown.alwaysObject <= path else path == shown.alwaysObject)
                  && (shown.alwaysCwdPinned ==> cwd == Some(shown.cwd)))
  {
    AskedMeansUndecided(policy, store.rules, ownPid, a);
  }

  /** As long as a learned rule is stored, whatever else changes, the access that
  led to it is never asked about again, and if the rule denies it is never allowed. */
  lemma LearningSettles(policy: Policy, store: R.Store, ownPid: nat, a: Access, action: R.RuleAction,
                        policy': Policy, rules': seq<R.LearnedRule>, a': Access)
    requires Classify(policy, store.rules, ownPid, a).Ask?
    requires FirstCovering(policy, a.Path()).Some? && Learned(policy, store, a, action) in rules'
    requires a'.Path() == a.Path() && a'.exe == a.exe && a'.cwd == a.cwd
    ensures Classify(policy', rules', ownPid, a').Settled?
    ensures action.Deny? && Classify(policy', rules', ownPid, a') == Settled(true) ==> OutOfScope(policy', ownPid, a')
  {
    var rule := Learned(policy, store, a, action);
    var i :| 0 <= i < |rules'| && rules'[i] == rule;
    assert rule.Matches(a'.Path(), a'.exe, Some(a'.cwd));
    assert R.SomeRule(rules', action, a'.Path(), a'.exe, Some(a'.cwd));
  }

  lemma ServeKeepsRules(s: LoopState, ownPid: nat, a: Access, rule: R.LearnedRule)
    requires rule in s.store.rules
    ensures rule in Serve(s, ownPid, a).1.store.rules
  {
  }

  lemma ServeLearns(s: LoopState, ownPid: nat, a: Access, decision: U.Decision)
    requires Classify(s.policy, s.store.rules, ownPid, a).Ask?
    requires FirstCovering(s.policy, a.Path()).Some?
    requires Answered(s) == U.Answer(decision) && Always(decision)
    ensures Serve(s, ownPid, a).1.store.rules
            == s.store.rules + [Learned(s.policy, s.store, a, ActionOf(decision))]
  {
  }

  // ---- No two rules say the same -------------------------------------------

  predicate SameKey(x: R.LearnedRule, y: R.LearnedRule) {
    x.exe == y.exe && x.target == y.target && x.objectKind == y.objectKind && x.cwd == y.cwd
  }

  ghost predicate NoTwins(rules: seq<R.LearnedRule>) {
    forall i, j :: 0 <= i < j < |rules| ==> !SameKey(rules[i], rules[j])
  }

  lemma ServeMakesNoTwins(s: LoopState, ownPid: nat, a: Access)
    requires NoTwins(s.store.rules)
    ensures NoTwins(Serve(s, ownPid, a).1.store.rules)
  {
    var rules, rules' := s.store.rules, Serve(s, ownPid, a).1.store.rules;
    if rules' != rules {
      AskedMeansUndecided(s.policy, rules, ownPid, a);
      var rule := rules'[|rules|];
      assert rule.Matches(a.Path(), a.exe, Some(a.cwd));
      assert forall i :: 0 <= i < |rules| ==> rules'[i] == rules[i] && !SameKey(rules[i], rule);
    }
  }

  lemma {:induction false} RetainMakesNoTwins(rules: seq<R.LearnedRule>, ids: seq<u64>)
    requires NoTwins(rules)
    ensures NoTwins(R.Retain(rules, ids))
  {
    if rules != [] {
      var tail := rules[1..];
      assert forall i :: 0 <= i < |tail| ==> tail[i] == rules[i + 1];
      RetainMakesNoTwins(tail, ids);
      forall x | x in R.Retain(tail, ids) ensures !SameKey(rules[0], x) {
        R.RemovalSplits(tail, ids, x);
        var k :| 0 <= k < |tail| && tail[k] == x;
      }
      OneMoreIsNoTwin(rules[0], R.Retain(tail, ids));
    }
  }

  lemma OneMoreIsNoTwin(r: R.LearnedRule, rules: seq<R.LearnedRule>)
    requires NoTwins(rules) && forall x :: x in rules ==> !SameKey(r, x)
    ensures NoTwins([r] + rules)
  {
    var all := [r] + rules;
    assert forall j :: 0 < j < |all| ==> all[j] == rules[j - 1] && rules[j - 1] in rules;
  }

  lemma LoadMakesNoTwins(store: R.Store)
    requires NoTwins(store.rules)
    ensures NoTwins(R.Load(R.Content(store)).rules)
  {
    var next := R.Max(store.nextId, R.Succ(R.MaxId(store.rules)));
    R.StampKeepsKeys(next, store.rules);
    var stamped := R.Stamp(next, store.rules).rules;
    forall i, j | 0 <= i < j < |stamped| ensures !SameKey(stamped[i], stamped[j]) {
      assert !SameKey(store.rules[i], store.rules[j]);
    }
  }
}
