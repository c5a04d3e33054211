/** Learned rules and their store. */
module Rules {
  import opened Wrappers
  import opened FileSystem

  datatype RuleAction = Allow | Deny

  datatype ObjectKind = FileObject | TreeObject

  /** The next id; the release build wraps on overflow. */
  function Succ(n: u64): u64 {
    if n + 1 < TWO_64 then n + 1 else 0
  }

  function Max(a: u64, b: u64): u64 {
    if a < b then b else a
  }

  /** One persisted decision.  Id 0 means "not assigned yet". */
  datatype LearnedRule = LearnedRule(
    id: u64,
    createdUnix: u64,
    action: RuleAction,
    exe: string,
    target: Path,
    objectKind: ObjectKind,
    cwd: Option<string>)
  {
    predicate Matches(path: Path, accessExe: string, accessCwd: Option<string>) {
      && exe == accessExe
      && (match objectKind
          case FileObject => path == target
          case TreeObject => target <= path)
      && (cwd.Some? ==> accessCwd == cwd)
    }
  }

  // ---- Evaluation ----------------------------------------------------------

  predicate SomeRule(rules: seq<LearnedRule>, action: RuleAction, path: Path, exe: string, cwd: Option<string>) {
    exists i :: 0 <= i < |rules| && rules[i].action == action && rules[i].Matches(path, exe, cwd)
  }

  /** Deny if some matching rule denies, else allow if some matching rule allows. */
  function Verdict(rules: seq<LearnedRule>, path: Path, exe: string, cwd: Option<string>): Option<RuleAction> {
    if SomeRule(rules, Deny, path, exe, cwd) then Some(Deny)
    else if SomeRule(rules, Allow, path, exe, cwd) then Some(Allow)
    else None
  }

  /** The rules in another order give the same verdict. */
  lemma VerdictIgnoresOrder(a: seq<LearnedRule>, b: seq<LearnedRule>, path: Path, exe: string, cwd: Option<string>)
    requires multiset(a) == multiset(b)
    ensures Verdict(a, path, exe, cwd) == Verdict(b, path, exe, cwd)
  {
    SameRulesSameVerdicts(a, b, path, exe, cwd);
    SameRulesSameVerdicts(b, a, path, exe, cwd);
  }

  lemma SameRulesSameVerdicts(a: seq<LearnedRule>, b: seq<LearnedRule>, path: Path, exe: string, cwd: Option<string>)
    requires forall r :: r in multiset(a) ==> r in multiset(b)
    ensures forall action :: SomeRule(a, action, path, exe, cwd) ==> SomeRule(b, action, path, exe, cwd)
  {
    forall action | SomeRule(a, action, path, exe, cwd) ensures SomeRule(b, action, path, exe, cwd) {
      var i :| 0 <= i < |a| && a[i].action == action && a[i].Matches(path, exe, cwd);
      assert a[i] in multiset(a);
      assert a[i] in b;
    }
  }

  // ---- Ids -----------------------------------------------------------------

  /** The file content, which is also the value the daemon holds in memory. */
  datatype Store = Store(nextId: u64, rules: seq<LearnedRule>)

  const EMPTY_STORE := Store(0, [])

  function MaxId(rules: seq<LearnedRule>): (m: u64)
    ensures forall r :: r in rules ==> r.id <= m
    ensures m == 0 || exists r :: r in rules && r.id == m
  {
    if rules == [] then 0
    else
      assert rules == [rules[0]] + rules[1..];
      Max(rules[0].id, MaxId(rules[1..]))
  }

  /** Give every rule that lacks an id the next free one, in order. */
  function Stamp(nextId: u64, rules: seq<LearnedRule>): Store
    decreases |rules|
  {
    if rules == [] then Store(nextId, [])
    else if rules[0].id == 0 then
      var rest := Stamp(Succ(nextId), rules[1..]);
      Store(rest.nextId, [rules[0].(id := nextId)] + rest.rules)
    else
      var rest := Stamp(nextId, rules[1..]);
      Store(rest.nextId, [rules[0]] + rest.rules)
  }

  lemma {:induction false} StampKeepsCount(next: u64, rules: seq<LearnedRule>)
    ensures |Stamp(next, rules).rules| == |rules|
    decreases |rules|
  {
    if rules != [] {
      StampKeepsCount(if rules[0].id == 0 then Succ(next) else next, rules[1..]);
    }
  }

  /** Loading gives ids, which are no part of what a rule says. */
  lemma {:induction false} StampKeepsKeys(next: u64, rules: seq<LearnedRule>)
    ensures |Stamp(next, rules).rules| == |rules|
    ensures forall i :: 0 <= i < |rules| ==>
              Stamp(next, rules).rules[i] == rules[i].(id := Stamp(next, rules).rules[i].id)
    decreases |rules|
  {
    if rules != [] {
      var tail := rules[1..];
      StampKeepsKeys(if rules[0].id == 0 then Succ(next) else next, tail);
      assert forall i :: 0 < i < |rules| ==> rules[i] == tail[i - 1];
    }
  }

  function Backfill(s: Store): Store {
    Stamp(Max(s.nextId, Succ(MaxId(s.rules))), s.rules)
  }

  /** What the rules file holds; a missing file reads like an unparseable one. */
  datatype RulesText = Unparseable | Content(store: Store)

  function Load(text: RulesText): Store {
    match text
    case Unparseable => EMPTY_STORE
    case Content(store) => Backfill(store)
  }

  function Pushed(s: Store, rule: LearnedRule): Store {
    var id := Max(s.nextId, 1);
    Store(Succ(id), s.rules + [rule.(id := id)])
  }

  /** The rules whose id was not asked for, in their order. */
  function Retain(rules: seq<LearnedRule>, ids: seq<u64>): (kept: seq<LearnedRule>) {
    if rules == [] then []
    else if rules[0].id in ids then Retain(rules[1..], ids)
    else [rules[0]] + Retain(rules[1..], ids)
  }

  function Taken(rules: seq<LearnedRule>, ids: seq<u64>): (taken: seq<LearnedRule>) {
    if rules == [] then []
    else if rules[0].id in ids then [rules[0]] + Taken(rules[1..], ids)
    else Taken(rules[1..], ids)
  }

  /** The ids that name no rule, in the order they were asked for. */
  function Missing(rules: seq<LearnedRule>, ids: seq<u64>): (missing: seq<u64>) {
    if ids == [] then []
    else if Names(rules, ids[0]) then Missing(rules, ids[1..])
    else [ids[0]] + Missing(rules, ids[1..])
  }

  predicate Names(rules: seq<LearnedRule>, id: u64) {
    exists i :: 0 <= i < |rules| && rules[i].id == id
  }

  /** Removal splits the store: each rule is kept or taken, by its id alone. */
  lemma {:induction false} RemovalSplits(rules: seq<LearnedRule>, ids: seq<u64>, r: LearnedRule)
    ensures r in Retain(rules, ids) <==> r in rules && r.id !in ids
    ensures r in Taken(rules, ids) <==> r in rules && r.id in ids
    ensures multiset(rules) == multiset(Retain(rules, ids)) + multiset(Taken(rules, ids))
  {
    if rules != [] {
      RemovalSplits(rules[1..], ids, r);
      assert rules == [rules[0]] + rules[1..];
    }
  }

  /** The ids reported as missing are those asked for that no rule has. */
  lemma {:induction false} MissingNameNothing(rules: seq<LearnedRule>, ids: seq<u64>, id: u64)
    ensures id in Missing(rules, ids) <==> id in ids && forall r :: r in rules ==> r.id != id
  {
    if ids != [] {
      MissingNameNothing(rules, ids[1..], id);
      assert ids == [ids[0]] + ids[1..];
      if r :| r in rules && r.id == ids[0] {
        var i :| 0 <= i < |rules| && rules[i] == r;
      }
    }
  }

  /** Removal goes through the rules from first to last: what it does to one list
  behind another is what it does to the two, in that order. */
  lemma RemovalKeepsOrder(a: seq<LearnedRule>, b: seq<LearnedRule>, ids: seq<u64>)
    ensures Retain(a + b, ids) == Retain(a, ids) + Retain(b, ids)
    ensures Taken(a + b, ids) == Taken(a, ids) + Taken(b, ids)
  {
    RetainKeepsOrder(a, b, ids);
    TakenKeepsOrder(a, b, ids);
  }

  lemma {:induction false} RetainKeepsOrder(a: seq<LearnedRule>, b: seq<LearnedRule>, ids: seq<u64>)
    ensures Retain(a + b, ids) == Retain(a, ids) + Retain(b, ids)
  {
    if a == [] {
      assert a + b == b;
    } else {
      var tail := a[1..];
      RetainKeepsOrder(tail, b, ids);
      assert (a + b)[0] == a[0] && (a + b)[1..] == tail + b;
      Append([a[0]], Retain(tail, ids), Retain(b, ids));
    }
  }

  lemma {:induction false} TakenKeepsOrder(a: seq<LearnedRule>, b: seq<LearnedRule>, ids: seq<u64>)
    ensures Taken(a + b, ids) == Taken(a, ids) + Taken(b, ids)
  {
    if a == [] {
      assert a + b == b;
    } else {
      var tail := a[1..];
      TakenKeepsOrder(tail, b, ids);
      assert (a + b)[0] == a[0] && (a + b)[1..] == tail + b;
      Append([a[0]], Taken(tail, ids), Taken(b, ids));
    }
  }

  lemma Append<T>(a: seq<T>, b: seq<T>, c: seq<T>)
    ensures a + (b + c) == (a + b) + c
  {
  }

  /** What removal does to one rule. */
  lemma RemovalOfOne(r: LearnedRule, ids: seq<u64>)
    ensures Retain([r], ids) == if r.id in ids then [] else [r]
    ensures Taken([r], ids) == if r.id in ids then [r] else []
  {
    assert [r][1..] == [];
  }

  /** The missing ids are reported in the order, and as often, as they were asked for. */
  lemma {:induction false} MissingKeepsOrder(rules: seq<LearnedRule>, a: seq<u64>, b: seq<u64>)
    ensures Missing(rules, a + b) == Missing(rules, a) + Missing(rules, b)
  {
    if a == [] {
      assert a + b == b;
    } else {
      var tail := a[1..];
      MissingKeepsOrder(rules, tail, b);
      assert (a + b)[0] == a[0] && (a + b)[1..] == tail + b;
      Append([a[0]], Missing(rules, tail), Missing(rules, b));
    }
  }

  lemma MissingOfOne(rules: seq<LearnedRule>, id: u64)
    ensures Missing(rules, [id]) == if exists r :: r in rules && r.id == id then [] else [id]
  {
    assert [id][1..] == [];
    MissingNameNothing(rules, [id], id);
  }

  // ---- The mutable store ---------------------------------------------------

  class RuleStore {
    var nextId: u64
    var rules: seq<LearnedRule>

    function Value(): Store
      reads this
    {
      Store(nextId, rules)
    }

    constructor (content: Store)
      ensures Value() == content
    {
      nextId, rules := content.nextId, content.rules;
    }

    method AllocId() returns (id: u64)
      modifies this`nextId
      ensures id == if old(nextId) == 0 then 1 else old(nextId)
      ensures nextId == (id + 1) % TWO_64
    {
      id := Max(nextId, 1);
      nextId := Succ(id);
    }

    method Push(rule: LearnedRule)
      modifies this
      ensures Value() == Pushed(old(Value()), rule)
      ensures rules == old(rules) + [rule.(id := if old(nextId) == 0 then 1 else old(nextId))]
      ensures nextId == ((if old(nextId) == 0 then 1 else old(nextId)) + 1) % TWO_64
    {
      var id := AllocId();
      rules := rules + [rule.(id := id)];
    }

    method HighestId() returns (maxId: u64)
      ensures maxId == MaxId(rules)
    {
      maxId := 0;
      for i := 0 to |rules|
        invariant maxId == MaxId(rules[..i])
      {
        MaxIdStep(rules, i);
        maxId := Max(maxId, rules[i].id);
      }
      assert rules[..|rules|] == rules;
    }

    method BackfillIds()
      modifies this
      ensures Value() == Backfill(old(Value()))
    {
      var maxId := HighestId();
      nextId := Max(nextId, Succ(maxId));
      ghost var first, given := nextId, rules;
      assert given[0..] == given && given[..0] == [];
      for i := 0 to |rules|
        invariant |rules| == |given| && Stamping(first, given, i, nextId, rules)
      {
        StampingStep(first, given, i, nextId, rules);
        if rules[i].id == 0 {
          rules := rules[i := rules[i].(id := nextId)];
          nextId := Succ(nextId);
        }
      }
      StampingDone(first, given, nextId, rules);
    }

    /** Deny-wins evaluation with an early return. */
    method Evaluate(path: Path, exe: string, cwd: Option<string>) returns (verdict: Option<RuleAction>)
      ensures verdict == Verdict(rules, path, exe, cwd)
      ensures verdict == Some(Deny) <==> exists r :: r in rules && r.action.Deny? && r.Matches(path, exe, cwd)
      ensures verdict.None? <==> forall r :: r in rules ==> !r.Matches(path, exe, cwd)
    {
      var allow := false;
      for i := 0 to |rules|
        invariant !SomeRule(rules[..i], Deny, path, exe, cwd)
        invariant allow <==> SomeRule(rules[..i], Allow, path, exe, cwd)
      {
        SomeRuleSnoc(rules[..i], rules[i], path, exe, cwd);
        assert rules[..i + 1] == rules[..i] + [rules[i]];
        if rules[i].Matches(path, exe, cwd) {
          match rules[i].action {
            case Deny =>
              SomeRuleIn(rules, path, exe, cwd);
              return Some(Deny);
            case Allow =>
              allow := true;
          }
        }
      }
      assert rules[..|rules|] == rules;
      SomeRuleIn(rules, path, exe, cwd);
      return if allow then Some(Allow) else None;
    }

    /** Batch removal by id: what goes, what stays, and the ids that named nothing. */
    method RemoveIds(ids: seq<u64>) returns (removed: seq<LearnedRule>, missing: seq<u64>)
      modifies this`rules
      ensures removed == Taken(old(rules), ids)
      ensures rules == Retain(old(rules), ids)
      ensures missing == Missing(old(rules), ids)
    {
      removed := [];
      var kept: seq<LearnedRule> := [];
      assert rules[0..] == rules;
      for i := 0 to |rules|
        invariant rules == old(rules)
        invariant Removing(rules, ids, i, removed, kept)
      {
        RemovingStep(rules, ids, i, removed, kept);
        if rules[i].id in ids {
          removed := removed + [rules[i]];
        } else {
          kept := kept + [rules[i]];
        }
      }
      RemovingDone(rules, ids, removed, kept);
      ghost var given := rules;
      rules := kept;
      missing := [];
      assert ids[0..] == ids;
      for i := 0 to |ids|
        invariant rules == kept && Reporting(given, ids, i, missing)
      {
        ReportingStep(given, ids, i, missing, removed);
        if !Names(removed, ids[i]) {
          missing := missing + [ids[i]];
        }
      }
      ReportingDone(given, ids, missing);
    }
  }

  /** The first `i` of the given rules are stamped in `rules`, the others stand as
  given, and stamping those from `nextId` completes the result. */
  ghost predicate Stamping(first: u64, given: seq<LearnedRule>, i: nat, nextId: u64, rules: seq<LearnedRule>)
    requires i <= |given| == |rules|
  {
    && rules[i..] == given[i..]
    && Stamp(first, given) == Continued(rules[..i], Stamp(nextId, given[i..]))
  }

  /** A result whose first rules are `done`. */
  function Continued(done: seq<LearnedRule>, rest: Store): Store {
    Store(rest.nextId, done + rest.rules)
  }

  lemma StampUnfolds(nextId: u64, given: seq<LearnedRule>, i: nat, done: seq<LearnedRule>)
    requires i < |given|
    ensures Continued(done, Stamp(nextId, given[i..]))
            == if given[i].id == 0
               then Continued(done + [given[i].(id := nextId)], Stamp(Succ(nextId), given[i + 1..]))
               else Continued(done + [given[i]], Stamp(nextId, given[i + 1..]))
  {
    assert given[i..][0] == given[i] && given[i..][1..] == given[i + 1..];
    var next := if given[i].id == 0 then Succ(nextId) else nextId;
    var rule := if given[i].id == 0 then given[i].(id := nextId) else given[i];
    var rest := Stamp(next, given[i + 1..]);
    assert done + ([rule] + rest.rules) == (done + [rule]) + rest.rules;
  }

  lemma StampingStep(first: u64, given: seq<LearnedRule>, i: nat, nextId: u64, rules: seq<LearnedRule>)
    requires i < |given| == |rules| && Stamping(first, given, i, nextId, rules)
    ensures rules[i] == given[i]
    ensures rules[i].id == 0 ==>
              Stamping(first, given, i + 1, Succ(nextId), rules[i := rules[i].(id := nextId)])
    ensures rules[i].id != 0 ==> Stamping(first, given, i + 1, nextId, rules)
  {
    assert rules[i..][0] == given[i..][0];
    StampUnfolds(nextId, given, i, rules[..i]);
    ReplaceAt(rules, given, i, rules[i].(id := nextId));
    ReplaceAt(rules, given, i, rules[i]);
    assert rules[i := rules[i]] == rules;
  }

  lemma StampingDone(first: u64, given: seq<LearnedRule>, nextId: u64, rules: seq<LearnedRule>)
    requires |given| == |rules| && Stamping(first, given, |given|, nextId, rules)
    ensures Stamp(first, given) == Store(nextId, rules)
  {
    assert given[|given|..] == [] && rules[..|given|] == rules && rules + [] == rules;
  }

  lemma ReplaceAt<T>(s: seq<T>, given: seq<T>, i: nat, x: T)
    requires i < |s| == |given| && s[i..] == given[i..]
    ensures s[i := x][..i + 1] == s[..i] + [x] && s[i := x][i + 1..] == given[i + 1..]
  {
    assert given[i + 1..] == given[i..][1..] == s[i..][1..] == s[i + 1..];
  }

  /** The loop of the removal: what is already sorted out, and the rest. */
  ghost predicate Removing(rules: seq<LearnedRule>, ids: seq<u64>, i: nat,
                           removed: seq<LearnedRule>, kept: seq<LearnedRule>)
    requires i <= |rules|
  {
    && removed + Taken(rules[i..], ids) == Taken(rules, ids)
    && kept + Retain(rules[i..], ids) == Retain(rules, ids)
  }

  lemma RemovingStep(rules: seq<LearnedRule>, ids: seq<u64>, i: nat, removed: seq<LearnedRule>, kept: seq<LearnedRule>)
    requires i < |rules| && Removing(rules, ids, i, removed, kept)
    ensures rules[i].id in ids ==> Removing(rules, ids, i + 1, removed + [rules[i]], kept)
    ensures rules[i].id !in ids ==> Removing(rules, ids, i + 1, removed, kept + [rules[i]])
  {
    assert rules[i..][0] == rules[i] && rules[i..][1..] == rules[i + 1..];
    Regroup(removed, rules[i], Taken(rules[i + 1..], ids));
    Regroup(kept, rules[i], Retain(rules[i + 1..], ids));
  }

  lemma RemovingDone(rules: seq<LearnedRule>, ids: seq<u64>, removed: seq<LearnedRule>, kept: seq<LearnedRule>)
    requires Removing(rules, ids, |rules|, removed, kept)
    ensures removed == Taken(rules, ids) && kept == Retain(rules, ids)
  {
    assert rules[|rules|..] == [];
  }

  lemma Regroup<T>(a: seq<T>, x: T, b: seq<T>)
    ensures a + ([x] + b) == (a + [x]) + b
  {
  }

  ghost predicate Reporting(rules: seq<LearnedRule>, ids: seq<u64>, i: nat, missing: seq<u64>)
    requires i <= |ids|
  {
    missing + Missing(rules, ids[i..]) == Missing(rules, ids)
  }

  lemma ReportingDone(rules: seq<LearnedRule>, ids: seq<u64>, missing: seq<u64>)
    requires Reporting(rules, ids, |ids|, missing)
    ensures missing == Missing(rules, ids)
  {
    assert ids[|ids|..] == [];
  }

  /** An id is missing exactly if it named none of the removed rules. */
  lemma ReportingStep(rules: seq<LearnedRule>, ids: seq<u64>, i: nat, missing: seq<u64>, removed: seq<LearnedRule>)
    requires i < |ids| && removed == Taken(rules, ids) && Reporting(rules, ids, i, missing)
    ensures if Names(removed, ids[i])
            then Reporting(rules, ids, i + 1, missing)
            else Reporting(rules, ids, i + 1, missing + [ids[i]])
  {
    NamedIffRemoved(rules, ids, ids[i]);
    assert ids[i..][0] == ids[i] && ids[i..][1..] == ids[i + 1..];
    Regroup(missing, ids[i], Missing(rules, ids[i + 1..]));
  }

  lemma NamedIffRemoved(rules: seq<LearnedRule>, ids: seq<u64>, id: u64)
    requires id in ids
    ensures Names(rules, id) <==> Names(Taken(rules, ids), id)
  {
    var taken := Taken(rules, ids);
    if j :| 0 <= j < |taken| && taken[j].id == id {
      RemovalSplits(rules, ids, taken[j]);
    }
    if i :| 0 <= i < |rules| && rules[i].id == id {
      RemovalSplits(rules, ids, rules[i]);
    }
  }

  lemma {:induction false} MaxIdSnoc(rules: seq<LearnedRule>, r: LearnedRule)
    ensures MaxId(rules + [r]) == Max(MaxId(rules), r.id)
  {
    if rules != [] {
      MaxIdSnoc(rules[1..], r);
      assert (rules + [r])[1..] == rules[1..] + [r];
    }
  }

  lemma MaxIdStep(rules: seq<LearnedRule>, i: nat)
    requires i < |rules|
    ensures MaxId(rules[..i + 1]) == Max(MaxId(rules[..i]), rules[i].id)
  {
    var head, r := rules[..i], rules[i];
    assert rules[..i + 1] == head + [r];
    MaxIdSnoc(head, r);
  }

  lemma SomeRuleIn(rules: seq<LearnedRule>, path: Path, exe: string, cwd: Option<string>)
    ensures forall action :: SomeRule(rules, action, path, exe, cwd)
                             <==> exists r :: r in rules && r.action == action && r.Matches(path, exe, cwd)
  {
    forall r | r in rules && r.Matches(path, exe, cwd) ensures SomeRule(rules, r.action, path, exe, cwd) {
      var i :| 0 <= i < |rules| && rules[i] == r;
    }
  }

  lemma SomeRuleSnoc(rules: seq<LearnedRule>, r: LearnedRule, path: Path, exe: string, cwd: Option<string>)
    ensures forall action :: SomeRule(rules + [r], action, path, exe, cwd)
                             <==> SomeRule(rules, action, path, exe, cwd)
                                  || (r.action == action && r.Matches(path, exe, cwd))
  {
    var all := rules + [r];
    forall action
      ensures SomeRule(all, action, path, exe, cwd)
              <==> SomeRule(rules, action, path, exe, cwd) || (r.action == action && r.Matches(path, exe, cwd))
    {
      if i :| 0 <= i < |rules| && rules[i].action == action && rules[i].Matches(path, exe, cwd) {
        assert all[i] == rules[i];
      }
      assert all[|rules|] == r;
    }
  }
}
