/** Hot reload: writers of the two files, the watcher thread that raises the
flag, and the event loop that clears the flag before it loads. */
module ReloadProtocol {
  import opened Wrappers
  import opened Policy
  import opened Rules

  /** What the configuration file says. */
  datatype ConfigText = Broken | Good(policy: Policy)

  /** The name an inotify event carries, if any. */
  type FileEvent = Option<string>

  datatype Names = Names(config: string, rules: string) {
    predicate Concerns(ev: FileEvent) {
      ev == Some(config) || ev == Some(rules)
    }
  }

  /** The event loop is polling and serving, has just cleared the flag, or has
  read a good configuration and not yet the rules. */
  datatype Phase = Serving | Swapped | ConfigRead(policy: Policy)

  /** `configOpen` and `rulesOpen`: somebody is writing the file in place. */
  datatype State = State(
    names: Names,
    config: ConfigText, configOpen: bool,
    rules: RulesText, rulesOpen: bool,
    kernel: seq<FileEvent>, batch: seq<FileEvent>, flag: bool,
    phase: Phase,
    memPolicy: Policy, memRules: Store)

  datatype Step =
    | WriteConfig(config: ConfigText)
    | CloseConfig
    | ReplaceConfig(config: ConfigText)
    | WriteRules(rules: RulesText)
    | CloseRules
    | ReplaceRules(rules: RulesText)
    | OtherFile(name: string)
    | WatcherRead(n: nat)
    | WatcherHandle
    | Hangup
    | Swap
    | LoadConfig
    | LoadRules
    | LearnAndSave(rule: LearnedRule)
    | LearnUnsaved(rule: LearnedRule)

  predicate Enabled(s: State, step: Step) {
    match step
    case CloseConfig => s.configOpen
    case CloseRules => s.rulesOpen
    case OtherFile(name) => !s.names.Concerns(Some(name))
    case WatcherRead(n) => s.batch == [] && 0 < n <= |s.kernel|
    case WatcherHandle => s.batch != []
    case Swap => s.phase.Serving?
    case LoadConfig => s.phase.Swapped?
    case LoadRules => s.phase.ConfigRead?
    case LearnAndSave(_) => s.phase.Serving?
    case LearnUnsaved(_) => s.phase.Serving?
    case _ => true
  }

  function Apply(s: State, step: Step): State
    requires Enabled(s, step)
  {
    match step
    case WriteConfig(config) => s.(config := config, configOpen := true)
    case CloseConfig => s.(configOpen := false, kernel := s.kernel + [Some(s.names.config)])
    case ReplaceConfig(config) => s.(config := config, kernel := s.kernel + [Some(s.names.config)])
    case WriteRules(rules) => s.(rules := rules, rulesOpen := true)
    case CloseRules => s.(rulesOpen := false, kernel := s.kernel + [Some(s.names.rules)])
    case ReplaceRules(rules) => s.(rules := rules, kernel := s.kernel + [Some(s.names.rules)])
    case OtherFile(name) => s.(kernel := s.kernel + [Some(name)])
    case WatcherRead(n) => s.(batch := s.kernel[..n], kernel := s.kernel[n..])
    case WatcherHandle => s.(batch := s.batch[1..], flag := s.flag || s.names.Concerns(s.batch[0]))
    case Hangup => s.(flag := true)
    case Swap => if s.flag then s.(flag := false, phase := Swapped) else s
    case LoadConfig => if s.config.Good? then s.(phase := ConfigRead(s.config.policy)) else s.(phase := Serving)
    case LoadRules => s.(phase := Serving, memPolicy := s.phase.policy, memRules := Load(s.rules))
    case LearnAndSave(rule) =>
      var learned := Pushed(s.memRules, rule);
      s.(memRules := learned, rules := Content(learned), kernel := s.kernel + [Some(s.names.rules)])
    case LearnUnsaved(rule) => s.(memRules := Pushed(s.memRules, rule))
  }

  /** When the configuration on disk is good, memory is what loading both files gives. */
  ghost predicate Agrees(s: State) {
    s.config.Good? ==> s.memPolicy == s.config.policy && s.memRules == Load(s.rules)
  }

  ghost predicate Awaited(names: Names, events: seq<FileEvent>) {
    exists i :: 0 <= i < |events| && names.Concerns(events[i])
  }

  /** A change is still on its way to the flag. */
  ghost predicate Pending(s: State) {
    s.configOpen || s.rulesOpen || Awaited(s.names, s.kernel) || Awaited(s.names, s.batch)
  }

  ghost predicate NothingLost(s: State) {
    || Pending(s)
    || s.flag
    || match s.phase
       case Serving => Agrees(s)
       case Swapped => true
       case ConfigRead(policy) => s.config == Good(policy)
  }

  lemma AwaitedSnoc(names: Names, events: seq<FileEvent>, ev: FileEvent)
    ensures Awaited(names, events + [ev]) <==> Awaited(names, events) || names.Concerns(ev)
  {
    var all := events + [ev];
    if i :| 0 <= i < |events| && names.Concerns(events[i]) {
      assert all[i] == events[i];
    }
    assert all[|events|] == ev;
  }

  lemma AwaitedIff(names: Names, events: seq<FileEvent>)
    ensures Awaited(names, events) <==> Some(names.config) in events || Some(names.rules) in events
  {
    if Some(names.config) in events || Some(names.rules) in events {
      var i :| 0 <= i < |events| && (events[i] == Some(names.config) || events[i] == Some(names.rules));
      assert names.Concerns(events[i]);
    }
  }

  lemma AwaitedSplit(names: Names, events: seq<FileEvent>, n: nat)
    requires n <= |events|
    ensures Awaited(names, events) <==> Awaited(names, events[..n]) || Awaited(names, events[n..])
  {
    if i :| 0 <= i < |events| && names.Concerns(events[i]) {
      if i < n {
        assert events[..n][i] == events[i];
      } else {
        assert events[n..][i - n] == events[i];
      }
    }
    if i :| 0 <= i < |events[n..]| && names.Concerns(events[n..][i]) {
      assert events[n + i] == events[n..][i];
    }
  }

  lemma StepLosesNothing(s: State, step: Step)
    requires Enabled(s, step) && NothingLost(s) && !step.LearnUnsaved?
    ensures NothingLost(Apply(s, step))
  {
    AwaitedSnoc(s.names, s.kernel, Some(s.names.config));
    AwaitedSnoc(s.names, s.kernel, Some(s.names.rules));
    match step {
      case OtherFile(name) =>
        AwaitedSnoc(s.names, s.kernel, Some(name));
      case WatcherRead(n) =>
        AwaitedSplit(s.names, s.kernel, n);
      case WatcherHandle =>
        AwaitedSplit(s.names, s.batch, 1);
      case _ =>
    }
  }

  predicate Valid(s: State, steps: seq<Step>)
    decreases |steps|
  {
    steps == [] || (Enabled(s, steps[0]) && Valid(Apply(s, steps[0]), steps[1..]))
  }

  function Final(s: State, steps: seq<Step>): State
    requires Valid(s, steps)
    decreases |steps|
  {
    if steps == [] then s else Final(Apply(s, steps[0]), steps[1..])
  }

  /** The watcher has just been started; the configuration was read before, the
  rules are read next. */
  ghost predicate Started(s: State) {
    s.phase.ConfigRead? && s.config == Good(s.phase.policy)
  }

  /** What a failed save leaves intact: the policy in memory. */
  ghost predicate PolicyKept(s: State) {
    || Pending(s)
    || s.flag
    || match s.phase
       case Serving => s.config.Good? ==> s.memPolicy == s.config.policy
       case Swapped => true
       case ConfigRead(policy) => s.config == Good(policy)
  }

  /** What a failed save leads to: a load is on its way, or memory holds more rules
  than the file. */
  ghost predicate AheadOfDisk(s: State) {
    || Pending(s)
    || s.flag
    || !s.phase.Serving?
    || s.config.Broken?
    || |s.memRules.rules| > |Load(s.rules).rules|
  }

  predicate Repairs(step: Step) {
    step.LoadRules? || step.LearnAndSave?
  }

  ghost predicate RepairedFrom(steps: seq<Step>, n: nat) {
    exists j :: n <= j < |steps| && Repairs(steps[j])
  }

  /** Every failed save is followed by a load of the rules or by a save that works. */
  ghost predicate SavesRepaired(steps: seq<Step>) {
    forall i :: 0 <= i < |steps| && steps[i].LearnUnsaved? ==> RepairedFrom(steps, i + 1)
  }

  lemma StepKeepsPolicy(s: State, step: Step)
    requires Enabled(s, step) && PolicyKept(s)
    ensures PolicyKept(Apply(s, step))
    ensures Repairs(step) ==> NothingLost(Apply(s, step))
  {
    AwaitedSnoc(s.names, s.kernel, Some(s.names.config));
    AwaitedSnoc(s.names, s.kernel, Some(s.names.rules));
    match step {
      case OtherFile(name) =>
        AwaitedSnoc(s.names, s.kernel, Some(name));
      case WatcherRead(n) =>
        AwaitedSplit(s.names, s.kernel, n);
      case WatcherHandle =>
        AwaitedSplit(s.names, s.batch, 1);
      case _ =>
    }
  }

  lemma StepStaysAhead(s: State, step: Step)
    requires Enabled(s, step) && !Repairs(step)
    requires AheadOfDisk(s) || (step.LearnUnsaved? && NothingLost(s))
    ensures AheadOfDisk(Apply(s, step))
  {
    AwaitedSnoc(s.names, s.kernel, Some(s.names.config));
    AwaitedSnoc(s.names, s.kernel, Some(s.names.rules));
    match step {
      case OtherFile(name) =>
        AwaitedSnoc(s.names, s.kernel, Some(name));
      case WatcherRead(n) =>
        AwaitedSplit(s.names, s.kernel, n);
      case WatcherHandle =>
        AwaitedSplit(s.names, s.batch, 1);
      case _ =>
    }
  }

  lemma SavesRepairedLater(steps: seq<Step>)
    requires steps != []
    ensures SavesRepaired(steps) ==> SavesRepaired(steps[1..])
    ensures RepairedFrom(steps, 0) ==> Repairs(steps[0]) || RepairedFrom(steps[1..], 0)
    ensures RepairedFrom(steps, 1) ==> RepairedFrom(steps[1..], 0)
  {
    var later := steps[1..];
    forall n: nat | RepairedFrom(steps, n + 1) ensures RepairedFrom(later, n) {
      var j :| n + 1 <= j < |steps| && Repairs(steps[j]);
      assert later[j - 1] == steps[j];
    }
    if RepairedFrom(steps, 0) && !Repairs(steps[0]) {
      var j :| 0 <= j < |steps| && Repairs(steps[j]);
      assert RepairedFrom(steps, 0 + 1);
    }
    forall i | SavesRepaired(steps) && 0 <= i < |later| && later[i].LearnUnsaved? ensures RepairedFrom(later, i + 1) {
      assert steps[i + 1].LearnUnsaved?;
      assert RepairedFrom(steps, (i + 1) + 1);
    }
    assert RepairedFrom(steps, 0 + 1) ==> RepairedFrom(later, 0);
  }

  lemma {:induction false} RunLosesNothing(s: State, steps: seq<Step>)
    requires Valid(s, steps) && SavesRepaired(steps) && PolicyKept(s)
    requires NothingLost(s) || RepairedFrom(steps, 0)
    ensures NothingLost(Final(s, steps))
    decreases |steps|
  {
    if steps != [] {
      SavesRepairedLater(steps);
      StepKeepsPolicy(s, steps[0]);
      if steps[0].LearnUnsaved? {
        assert RepairedFrom(steps, 0 + 1);
      } else if NothingLost(s) {
        StepLosesNothing(s, steps[0]);
      }
      RunLosesNothing(Apply(s, steps[0]), steps[1..]);
    }
  }

  lemma {:induction false} RunStaysAhead(s: State, steps: seq<Step>)
    requires Valid(s, steps) && AheadOfDisk(s) && !RepairedFrom(steps, 0)
    ensures AheadOfDisk(Final(s, steps))
    decreases |steps|
  {
    if steps != [] {
      assert !Repairs(steps[0]);
      StepStaysAhead(s, steps[0]);
      forall j | 0 <= j < |steps[1..]| ensures !Repairs(steps[1..][j]) {
        assert steps[1..][j] == steps[j + 1];
      }
      RunStaysAhead(Apply(s, steps[0]), steps[1..]);
    }
  }

  lemma StepIsAccounted(s: State, step: Step)
    requires Enabled(s, step) && PolicyKept(s) && (NothingLost(s) || AheadOfDisk(s))
    ensures NothingLost(Apply(s, step)) || AheadOfDisk(Apply(s, step))
  {
    if Repairs(step) {
      StepKeepsPolicy(s, step);
    } else if AheadOfDisk(s) || step.LearnUnsaved? {
      StepStaysAhead(s, step);
    } else {
      StepLosesNothing(s, step);
    }
  }

  /** After a failed save that nothing repairs, memory stays ahead of the file. */
  lemma {:induction false} UnrepairedStaysAhead(s: State, steps: seq<Step>, i: nat)
    requires Valid(s, steps) && PolicyKept(s) && (NothingLost(s) || AheadOfDisk(s))
    requires i < |steps| && steps[i].LearnUnsaved? && !RepairedFrom(steps, i + 1)
    ensures AheadOfDisk(Final(s, steps))
    decreases |steps|
  {
    var later := steps[1..];
    forall j | i <= j < |later| ensures !Repairs(later[j]) {
      assert later[j] == steps[j + 1];
    }
    if i == 0 {
      StepStaysAhead(s, steps[0]);
      RunStaysAhead(Apply(s, steps[0]), later);
    } else {
      StepKeepsPolicy(s, steps[0]);
      StepIsAccounted(s, steps[0]);
      UnrepairedStaysAhead(Apply(s, steps[0]), later, i - 1);
    }
  }

  /** No change is on its way, no reload is requested, and the loop is serving. */
  ghost predicate Quiet(s: State) {
    s.phase.Serving? && !s.flag && !Pending(s)
  }

  /** Main theorem: whatever the interleaving, whatever happened to the files on the
  way, and however often saves failed, once nothing is pending and the
  configuration on disk is good, memory agrees with disk exactly if every failed
  save was followed by a load of the rules or by a save that worked. */
  lemma NoLostReload(s: State, steps: seq<Step>)
    requires Started(s) && Valid(s, steps)
    ensures SavesRepaired(steps) ==> NothingLost(Final(s, steps))
    ensures var f := Final(s, steps);
            Quiet(f) && f.config.Good? ==> (Agrees(f) <==> SavesRepaired(steps))
  {
    if SavesRepaired(steps) {
      RunLosesNothing(s, steps);
    } else {
      var i :| 0 <= i < |steps| && steps[i].LearnUnsaved? && !RepairedFrom(steps, i + 1);
      UnrepairedStaysAhead(s, steps, i);
    }
  }

  /** Why the loop clears the flag before it loads: if the flag were cleared
  after the loads, a change that the watcher reports in between would be lost. */
  lemma ClearingAfterLoadingLoses(s: State, rule: LearnedRule)
    requires s.phase.Serving? && s.config.Good? && Agrees(s)
    requires !s.configOpen && !s.rulesOpen && s.kernel == [] && s.batch == []
    ensures var changed := Apply(s, ReplaceRules(Content(Pushed(s.memRules, rule))));
            var reported := Apply(Apply(changed, WatcherRead(1)), WatcherHandle);
            && reported.flag && NothingLost(reported)
            && !Pending(reported) && !NothingLost(reported.(flag := false))
  {
    PushedLoadsDifferently(s.memRules, rule);
    var store := Pushed(s.memRules, rule);
    var only := [Some(s.names.rules)];
    assert s.kernel + only == only && only[..1] == only && only[1..] == [];
    var reported := s.(rules := Content(store), flag := true);
    assert Apply(Apply(Apply(s, ReplaceRules(Content(store))), WatcherRead(1)), WatcherHandle) == reported;
  }

  lemma PushedLoadsDifferently(store: Store, rule: LearnedRule)
    ensures Load(Content(Pushed(store, rule))) != store
  {
    var pushed := Pushed(store, rule);
    assert |pushed.rules| == |store.rules| + 1;
    StampKeepsCount(Max(pushed.nextId, Succ(MaxId(pushed.rules))), pushed.rules);
  }

  /** A save that fails leaves memory and disk apart with nothing pending. */
  lemma UnsavedRuleIsForgotten(s: State, rule: LearnedRule)
    requires Quiet(s) && s.config.Good? && Agrees(s)
    ensures Quiet(Apply(s, LearnUnsaved(rule))) && !Agrees(Apply(s, LearnUnsaved(rule)))
  {
  }

  const SETTLED: State :=
    State(Names("filewall.yaml", "rules.toml"), Good([]), false, Content(Store(1, [])), false, [], [], false,
          Serving, [], Store(1, []))

  /** One such state: no watches, no rules, and a save that fails. */
  lemma UnsavedRuleExample(rule: LearnedRule)
    ensures Quiet(SETTLED) && Agrees(SETTLED)
    ensures var s := Apply(SETTLED, LearnUnsaved(rule));
            Quiet(s) && s.memRules == Store(2, [rule.(id := 1)]) && Load(s.rules) == Store(1, [])
  {
    assert MaxId([]) == 0 && Stamp(1, []) == Store(1, []);
    assert [] + [rule.(id := 1)] == [rule.(id := 1)];
  }

  /** The reload block of the event loop as steps of the protocol. */
  function ReloadSteps(s: State): seq<Step> {
    if !s.flag then [Swap]
    else if s.config.Good? then [Swap, LoadConfig, LoadRules]
    else [Swap, LoadConfig]
  }

  /** What the block does when nothing interleaves. */
  lemma ReloadBlock(s: State)
    requires s.phase.Serving?
    ensures Valid(s, ReloadSteps(s))
    ensures Final(s, ReloadSteps(s))
            == if s.flag && s.config.Good?
               then s.(flag := false, memPolicy := s.config.policy, memRules := Load(s.rules))
               else s.(flag := false)
  {
    assert [Swap, LoadConfig, LoadRules][1..] == [LoadConfig, LoadRules] && [Swap, LoadConfig][1..] == [LoadConfig];
    assert [LoadConfig, LoadRules][1..] == [LoadRules] && [LoadRules][1..] == [] && [LoadConfig][1..] == [];
    assert [Swap][1..] == [];
    var s1 := Apply(s, Swap);
    if s.flag && s.config.Good? {
      var s2 := Apply(s1, LoadConfig);
      assert Valid(s2, [LoadRules]) && Final(s2, [LoadRules]) == Apply(s2, LoadRules);
      assert Valid(s1, [LoadConfig, LoadRules]);
    } else if s.flag {
      assert Valid(s1, [LoadConfig]) && Final(s1, [LoadConfig]) == Apply(s1, LoadConfig);
    }
  }

  // ---- What sets the flag, and what a save does ------------------------------

  /** The watcher's steps over the batch it has read. */
  function HandleAll(n: nat): seq<Step> {
    if n == 0 then [] else [WatcherHandle] + HandleAll(n - 1)
  }

  /** The watcher thread as steps of the protocol: the flag is raised exactly if the
  batch names one of the two files, and nothing else changes. */
  lemma {:induction false} BatchIsHandled(s: State)
    ensures Valid(s, HandleAll(|s.batch|))
    ensures Final(s, HandleAll(|s.batch|))
            == s.(batch := [],
                  flag := s.flag || Some(s.names.config) in s.batch || Some(s.names.rules) in s.batch)
    decreases |s.batch|
  {
    if s.batch != [] {
      var next := Apply(s, WatcherHandle);
      BatchIsHandled(next);
      assert HandleAll(|s.batch|)[1..] == HandleAll(|next.batch|);
      assert s.batch == [s.batch[0]] + next.batch;
    }
  }

  /** A hangup signal makes the next pass through the loop load both files. */
  lemma HangupReloads(s: State)
    requires s.phase.Serving? && s.config.Good?
    ensures var s' := Apply(s, Hangup);
            && Valid(s', ReloadSteps(s'))
            && Final(s', ReloadSteps(s'))
               == s.(flag := false, memPolicy := s.config.policy, memRules := Load(s.rules))
  {
    ReloadBlock(Apply(s, Hangup));
  }

  /** A load of saved rules yields the same ones in the same order, except that those
  without an id get one. */
  lemma SavedIsLoaded(store: Store, i: nat)
    requires i < |store.rules|
    ensures var loaded := Load(Content(store)).rules;
            |loaded| == |store.rules| && loaded[i] == store.rules[i].(id := loaded[i].id)
  {
    StampKeepsKeys(Max(store.nextId, Succ(MaxId(store.rules))), store.rules);
  }

  /** A save that works puts what memory holds, the new rule last, into the file. */
  lemma SaveReachesDisk(s: State, rule: LearnedRule, i: nat)
    requires s.phase.Serving? && i <= |s.memRules.rules|
    ensures var s' := Apply(s, LearnAndSave(rule));
            var loaded := Load(s'.rules).rules;
            var id := if s.memRules.nextId == 0 then 1 else s.memRules.nextId;
            && s'.memRules.rules == s.memRules.rules + [rule.(id := id)]
            && |loaded| == |s.memRules.rules| + 1
            && loaded[i] == s'.memRules.rules[i].(id := loaded[i].id)
  {
    SavedIsLoaded(Pushed(s.memRules, rule), i);
  }

  // ---- The code that runs the steps ----------------------------------------

  /** The watcher thread's loop over one batch of events. */
  method HandleFileEvents(names: Names, events: seq<FileEvent>, reload: Flag)
    modifies reload
    ensures reload.raised == (old(reload.raised) || Awaited(names, events))
    ensures reload.raised <==> old(reload.raised) || Some(names.config) in events || Some(names.rules) in events
  {
    for i := 0 to |events|
      invariant reload.raised == (old(reload.raised) || Awaited(names, events[..i]))
    {
      AwaitedSnoc(names, events[..i], events[i]);
      assert events[..i + 1] == events[..i] + [events[i]];
      if names.Concerns(events[i]) {
        reload.raised := true;
      }
    }
    assert events[..|events|] == events;
    AwaitedIff(names, events);
  }
}
