/** Watches and the pure decision logic. */
module Policy {
  import opened Wrappers
  import opened FileSystem
  import Glob
  import R = Rules

  datatype Action = PromptAction | AllowAction | DenyAction

  datatype Outcome = Allow | Prompt | Deny

  function FromAction(a: Action): Outcome {
    match a
    case PromptAction => Prompt
    case AllowAction => Allow
    case DenyAction => Deny
  }

  /** The configured outcome and the learned verdict, deny first. */
  function Combine(cfg: Outcome, learned: Option<R.RuleAction>): Outcome {
    match (cfg, learned)
    case (_, Some(Deny)) => Deny
    case (Deny, _) => Deny
    case (_, Some(Allow)) => Allow
    case (Allow, _) => Allow
    case (Prompt, None) => Prompt
  }

  /** A path below a root, as the string the include patterns are matched against. */
  function Join(rel: Path): string {
    if rel == [] then ""
    else if |rel| == 1 then rel[0]
    else rel[0] + "/" + Join(rel[1..])
  }

  lemma {:induction false} JoinHasSlash(rel: Path)
    requires |rel| >= 2
    ensures '/' in Join(rel)
  {
    assert Join(rel)[|rel[0]|] == '/';
  }

  /** A string cut at each "/". */
  function Split(s: string): (parts: seq<string>)
    ensures |parts| > 0
  {
    if s == "" then [""]
    else
      var rest := Split(s[1..]);
      if s[0] == '/' then [""] + rest else [[s[0]] + rest[0]] + rest[1..]
  }

  /** A name that can stand in a path has no "/" in it. */
  predicate Plain(rel: Path) {
    forall i :: 0 <= i < |rel| ==> '/' !in rel[i]
  }

  lemma {:induction false} JoinSplit(s: string)
    ensures Join(Split(s)) == s && Plain(Split(s))
  {
    if s != "" {
      var rest := Split(s[1..]);
      JoinSplit(s[1..]);
      if s[0] == '/' {
        assert Split(s)[1..] == rest;
      } else {
        assert Split(s)[1..] == rest[1..];
      }
    }
  }

  lemma {:induction false} SplitName(name: string, s: string)
    requires '/' !in name
    ensures Split(name + "/" + s) == [name] + Split(s)
    ensures Split(name) == [name]
    decreases |name|
  {
    if name == "" {
      assert name + "/" + s == "/" + s && ("/" + s)[1..] == s;
    } else {
      var tail := name[1..];
      assert name == [name[0]] + tail;
      SplitName(tail, s);
      assert (name + "/" + s)[1..] == tail + "/" + s;
    }
  }

  lemma {:induction false} SplitJoin(rel: Path)
    requires rel != [] && Plain(rel)
    ensures Split(Join(rel)) == rel
  {
    if |rel| == 1 {
      SplitName(rel[0], "");
    } else {
      SplitJoin(rel[1..]);
      SplitName(rel[0], Join(rel[1..]));
      assert rel == [rel[0]] + rel[1..];
    }
  }

  /** The string for a relative path is the one that, cut at each "/", gives its names. */
  lemma JoinIff(rel: Path, s: string)
    requires rel != [] && Plain(rel)
    ensures Join(rel) == s <==> Split(s) == rel
  {
    JoinSplit(s);
    SplitJoin(rel);
  }

  /** One watch.  The exclude and allow globs are arbitrary predicates. */
  datatype Watch = Watch(
    root: Path,
    allow: string -> bool,
    defaultAction: Action,
    learnObject: R.ObjectKind,
    learnCwd: bool,
    excluded: Path -> bool,
    patterns: seq<string>)
  {
    /** Marking descends unless the watch has patterns and all are shallow. */
    predicate Recursive() {
      patterns == [] || exists i :: 0 <= i < |patterns| && Glob.PatternIsDeep(patterns[i])
    }

    predicate Covers(path: Path) {
      root <= path
    }

    predicate IsIncluded(path: Path) {
      || patterns == []
      || (root <= path && exists i :: 0 <= i < |patterns| && Glob.Matches(patterns[i], Join(path[|root|..])))
    }

    function Evaluate(exe: string): Outcome {
      if allow(exe) then Allow else FromAction(defaultAction)
    }

    /** What an "Always" answer would cover. */
    function AlwaysTarget(path: Path): (Path, R.ObjectKind) {
      match learnObject
      case TreeObject => (root, R.TreeObject)
      case FileObject => (path, R.FileObject)
    }

    /** The rule an "Always" answer persists; its id is given by the store. */
    function LearnedRule(action: R.RuleAction, exe: string, path: Path, cwd: Option<string>, now: u64): R.LearnedRule {
      var (target, kind) := AlwaysTarget(path);
      R.LearnedRule(0, now, action, exe, target, kind, if learnCwd then cwd else None)
    }
  }

  type Policy = seq<Watch>

  /** The watch has patterns, and none of them matches anything below the root's own entries. */
  ghost predicate IsShallow(w: Watch) {
    w.patterns != [] && forall i, s :: 0 <= i < |w.patterns| && Glob.Matches(w.patterns[i], s) ==> '/' !in s
  }

  /** Marking descends exactly if the watch has no patterns, or one of them matches
  something below the root's own entries. */
  lemma RecursiveIff(w: Watch)
    ensures w.Recursive() <==>
            w.patterns == [] || exists i, s :: 0 <= i < |w.patterns| && Glob.Matches(w.patterns[i], s) && '/' in s
    ensures w.Recursive() <==> !IsShallow(w)
  {
    forall i | 0 <= i < |w.patterns|
      ensures Glob.PatternIsDeep(w.patterns[i]) <==> exists s :: Glob.Matches(w.patterns[i], s) && '/' in s
    {
      Glob.DeepIffCrossesSeparator(w.patterns[i]);
    }
  }

  /** `s` is the path below the root, as a string that cuts into the names on the way. */
  predicate Spells(root: Path, path: Path, s: string)
    requires root <= path
  {
    if path == root then s == "" else Split(s) == path[|root|..]
  }

  lemma SpellsIff(root: Path, path: Path, s: string)
    requires root <= path && Plain(path[|root|..])
    ensures Spells(root, path, s) <==> s == Join(path[|root|..])
  {
    if path != root {
      JoinIff(path[|root|..], s);
    }
  }

  /** What is in scope: everything if there are no patterns, else what lies at or below
  the root and is spelled by a string that some pattern matches. */
  lemma IncludedIff(w: Watch, path: Path)
    requires w.root <= path ==> Plain(path[|w.root|..])
    ensures w.IsIncluded(path) <==>
            || w.patterns == []
            || (&& w.root <= path
                && exists i, s :: 0 <= i < |w.patterns| && Glob.Matches(w.patterns[i], s) && Spells(w.root, path, s))
  {
    if w.root <= path {
      var spelled := Join(path[|w.root|..]);
      SpellsIff(w.root, path, spelled);
      forall i, s | 0 <= i < |w.patterns| && Glob.Matches(w.patterns[i], s) && Spells(w.root, path, s)
        ensures s == spelled
      {
        SpellsIff(w.root, path, s);
      }
    }
  }

  /** The index of the first watch that covers `path`. */
  function FirstCovering(policy: Policy, path: Path): (i: Option<nat>)
    ensures i.Some? ==> i.value < |policy| && policy[i.value].root <= path
    ensures i.Some? ==> forall j :: 0 <= j < i.value ==> !(policy[j].root <= path)
    ensures i.None? ==> forall j :: 0 <= j < |policy| ==> !(policy[j].root <= path)
  {
    if policy == [] then None
    else if policy[0].Covers(path) then Some(0)
    else
      match FirstCovering(policy[1..], path)
      case None => None
      case Some(i) => Some(i + 1)
  }

  function Evaluate(policy: Policy, path: Path, exe: string): Outcome {
    match FirstCovering(policy, path)
    case Some(i) => policy[i].Evaluate(exe)
    case None => Allow
  }

  /** No watch root lies at or below another one. */
  ghost predicate NonNested(policy: Policy) {
    forall i, j :: 0 <= i < |policy| && 0 <= j < |policy| && i != j ==> !(policy[i].root <= policy[j].root)
  }

  /** With roots that are not nested, the first covering watch is the only one. */
  lemma OnlyCovering(policy: Policy, path: Path, i: nat)
    requires NonNested(policy) && i < |policy| && policy[i].root <= path
    ensures FirstCovering(policy, path) == Some(i)
  {
    PrefixesComparable(policy[i].root, policy[FirstCovering(policy, path).value].root, path);
  }

  /** Learning any rule, or removing any number of allow rules, never turns a deny
  into something else. */
  lemma DenyIsSticky(cfg: Outcome, rules: seq<R.LearnedRule>, ids: seq<u64>, rule: R.LearnedRule,
                     path: Path, exe: string, cwd: Option<string>)
    requires Combine(cfg, R.Verdict(rules, path, exe, cwd)) == Deny
    ensures Combine(cfg, R.Verdict(rules + [rule], path, exe, cwd)) == Deny
    ensures (forall r :: r in R.Taken(rules, ids) ==> r.action.Allow?) ==>
              Combine(cfg, R.Verdict(R.Retain(rules, ids), path, exe, cwd)) == Deny
  {
    if R.SomeRule(rules, R.Deny, path, exe, cwd) {
      var i :| 0 <= i < |rules| && rules[i].action == R.Deny && rules[i].Matches(path, exe, cwd);
      assert (rules + [rule])[i] == rules[i];
      R.RemovalSplits(rules, ids, rules[i]);
      if rules[i] in R.Retain(rules, ids) {
        StillDenies(R.Retain(rules, ids), rules[i], path, exe, cwd);
      }
    }
  }

  lemma StillDenies(rules: seq<R.LearnedRule>, rule: R.LearnedRule, path: Path, exe: string, cwd: Option<string>)
    requires rule in rules && rule.action.Deny? && rule.Matches(path, exe, cwd)
    ensures R.Verdict(rules, path, exe, cwd) == Some(R.Deny)
  {
    var k :| 0 <= k < |rules| && rules[k] == rule;
  }
}
