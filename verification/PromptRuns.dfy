/** What the prompt protocol guarantees over whole runs. */
module PromptRuns {
  import opened Wrappers
  import opened UiServer
  import opened PromptProtocol
  import opened PromptOrigins

  // ---- Every run: allows are clicks ----------------------------------------

  lemma InMailSnoc(mailbox: seq<Message>, req: RequestNo, timeoutMs: nat)
    ensures InMail(mailbox + [ShowPrompt(req, timeoutMs)]) == InMail(mailbox) + [req]
  {
    if mailbox == [] {
      assert [ShowPrompt(req, timeoutMs)][1..] == [];
    } else {
      InMailSnoc(mailbox[1..], req, timeoutMs);
      assert (mailbox + [ShowPrompt(req, timeoutMs)])[1..] == mailbox[1..] + [ShowPrompt(req, timeoutMs)];
    }
  }

  /** Resolving moves the pending prompt to the resolved ones, nothing else. */
  lemma ResolveKeepsKnown(g: Gui, decision: Decision, cause: Cause)
    ensures Known(Resolve(g, decision, cause)) == Known(g)
  {
    if g.pending.Some? {
      var r := Resolution(g.pending.value.req, decision, cause);
      assert (g.resolutions + [r])[..|g.resolutions|] == g.resolutions;
    }
  }

  lemma UpdateKeepsKnown(g: Gui, msg: Message, now: nat)
    ensures Known(Update(g, msg, now)) == Known(g) + (if msg.ShowPrompt? then [msg.req] else [])
  {
    ResolveKeepsKnown(g, DenyOnce, Replaced);
    ResolveKeepsKnown(g, DenyOnce, Dismissed);
    ResolveKeepsKnown(g, DenyOnce, Expired);
    if msg.Decide? {
      ResolveKeepsKnown(g, msg.decision, Clicked);
    }
  }

  /** No step loses, repeats or reorders a prompt; only sending adds one. */
  lemma StepKeepsPrompts(s: State, step: Step)
    requires Enabled(s, step)
    ensures AllPrompts(Apply(s, step)) == AllPrompts(s) + (if step.Send? then [s.phase.req] else [])
  {
    match step {
      case Send =>
        InMailSnoc(s.mailbox, s.phase.req, s.asked[s.phase.req]);
      case Deliver(now) =>
        UpdateKeepsKnown(s.gui, s.mailbox[0], now);
      case UserEvent(msg, now) =>
        UpdateKeepsKnown(s.gui, msg, now);
      case _ =>
    }
  }

  lemma StepKeepsOrder(s: State, step: Step)
    requires Enabled(s, step) && Ordered(s)
    ensures Ordered(Apply(s, step))
  {
    StepKeepsPrompts(s, step);
  }

  lemma ResolveKeepsSources(s: State, decision: Decision, cause: Cause)
    requires Sourced(s) && (decision.Allows() ==> cause.Clicked?)
    ensures Sourced(s.(gui := Resolve(s.gui, decision, cause)))
  {
    var s' := s.(gui := Resolve(s.gui, decision, cause));
    assert forall i :: 0 <= i < |s.gui.resolutions| ==> s'.gui.resolutions[i] == s.gui.resolutions[i];
    assert forall i :: 0 <= i < |s.gui.channel| ==> s'.gui.channel[i] == s.gui.channel[i];
    assert forall sent :: FromHistory(s, sent) ==> FromHistory(s', sent);
  }

  lemma UpdateKeepsSources(s: State, msg: Message, now: nat)
    requires Sourced(s)
    ensures Sourced(s.(gui := Update(s.gui, msg, now)))
  {
    ResolveKeepsSources(s, DenyOnce, Replaced);
    ResolveKeepsSources(s, DenyOnce, Dismissed);
    ResolveKeepsSources(s, DenyOnce, Expired);
    match msg {
      case Decide(d) =>
        ResolveKeepsSources(s, d, Clicked);
      case ShowPrompt(req, timeoutMs) =>
        SourcesIgnorePending(s.(gui := Resolve(s.gui, DenyOnce, Replaced)), s.(gui := Update(s.gui, msg, now)));
      case WorkerReady =>
        SourcesIgnorePending(s, s.(gui := Update(s.gui, msg, now)));
      case _ =>
    }
  }

  /** Sources depend on the channel, the history and the responses only. */
  lemma SourcesIgnorePending(s: State, s': State)
    requires Sourced(s)
    requires s'.gui.channel == s.gui.channel && s'.gui.resolutions == s.gui.resolutions && s'.responses == s.responses
    ensures Sourced(s')
  {
    assert forall sent :: FromHistory(s, sent) ==> FromHistory(s', sent);
  }

  lemma TakeKeepsSources(s: State, s': State)
    requires Sourced(s) && s.gui.channel != []
    requires s'.gui.channel == s.gui.channel[1..] && s'.gui.resolutions == s.gui.resolutions
    requires || s'.responses == s.responses
             || s'.responses == s.responses + [Response(s.gui.channel[0].decision, Some(s.gui.channel[0].source))]
    ensures Sourced(s')
  {
    assert forall i :: 0 <= i < |s'.gui.channel| ==> s'.gui.channel[i] == s.gui.channel[i + 1];
    assert forall k :: 0 <= k < |s.responses| ==> s'.responses[k] == s.responses[k];
    assert forall sent :: FromHistory(s, sent) ==> FromHistory(s', sent);
    assert Sent(s.gui.channel[0].decision, s.gui.channel[0].source) == s.gui.channel[0];
  }

  lemma StepKeepsSources(s: State, step: Step)
    requires Enabled(s, step) && Sourced(s)
    ensures Sourced(Apply(s, step))
  {
    var s' := Apply(s, step);
    match step {
      case DrainOne => TakeKeepsSources(s, s');
      case Receive => TakeKeepsSources(s, s');
      case Backstop =>
        assert forall k :: 0 <= k < |s.responses| ==> s'.responses[k] == s.responses[k];
        assert forall sent :: FromHistory(s, sent) ==> FromHistory(s', sent);
      case Deliver(now) =>
        UpdateKeepsSources(s, s.mailbox[0], now);
        SourcesIgnorePending(s.(gui := Update(s.gui, s.mailbox[0], now)), s');
      case UserEvent(msg, now) => UpdateKeepsSources(s, msg, now);
      case _ => SourcesIgnorePending(s, s');
    }
  }

  lemma {:induction false} RunKeeps(s: State, steps: seq<Step>)
    requires Valid(s, steps) && Ordered(s) && Sourced(s)
    ensures Ordered(Final(s, steps)) && Sourced(Final(s, steps))
    decreases |steps|
  {
    if steps != [] {
      StepKeepsOrder(s, steps[0]);
      StepKeepsSources(s, steps[0]);
      RunKeeps(Apply(s, steps[0]), steps[1..]);
    }
  }

  /** The n-th step is a click on `decision` while the prompt for request `req` is shown,
  after exactly `req` others were resolved. */
  ghost predicate ClickedAt(steps: seq<Step>, n: nat, req: RequestNo, decision: Decision)
    requires Valid(START, steps)
  {
    && n < |steps| && steps[n].UserEvent? && steps[n].msg == Decide(decision)
    && After(steps, n).gui.pending.Some? && After(steps, n).gui.pending.value.req == req
    && |After(steps, n).gui.resolutions| == req
  }

  /** In every run, with or without the backstop: a response other than a one-time denial,
  so every one that allows, is what the user clicked while a prompt was shown.  No two
  responses use the same click, since they come from different prompts. */
  lemma AllowsAreClicks(steps: seq<Step>, k: nat)
    requires Valid(START, steps) && k < |Final(START, steps).responses|
    ensures var s := Final(START, steps);
            && (s.responses[k].decision != DenyOnce ==>
                  && s.responses[k].source.Some?
                  && exists n :: ClickedAt(steps, n, s.responses[k].source.value, s.responses[k].decision))
            && (forall l :: k < l < |s.responses| && s.responses[k].source.Some? && s.responses[l].source.Some? ==>
                  s.responses[k].source.value < s.responses[l].source.value)
  {
    StartIsSound();
    RunKeeps(START, steps);
    if Final(START, steps).responses[k].decision != DenyOnce {
      var n := ResponseIsClicked(steps, k);
    }
  }

  lemma ResponseIsClicked(steps: seq<Step>, k: nat) returns (n: nat)
    requires Valid(START, steps) && k < |Final(START, steps).responses|
    requires Final(START, steps).responses[k].decision != DenyOnce
    ensures Final(START, steps).responses[k].source.Some?
    ensures ClickedAt(steps, n, Final(START, steps).responses[k].source.value, Final(START, steps).responses[k].decision)
  {
    RunIsSourced(steps);
    ResponseIsSourced(Final(START, steps), k);
    var i := Final(START, steps).responses[k].source.value;
    ResolvedInOrder(steps, i);
    n := OriginOfResolution(steps, i);
  }

  lemma StartIsSound()
    ensures Ordered(START) && Sourced(START)
  {
  }

  lemma ResponseIsSourced(s: State, k: nat)
    requires Sourced(s) && k < |s.responses| && s.responses[k].decision != DenyOnce
    ensures s.responses[k].source.Some? && s.responses[k].source.value < |s.gui.resolutions|
    ensures s.gui.resolutions[s.responses[k].source.value].decision == s.responses[k].decision
  {
    assert s.responses[k].source.Some?;
    assert FromHistory(s, Sent(s.responses[k].decision, s.responses[k].source.value));
  }

  /** In every run, the i-th resolution is that of the i-th request: no prompt is
  resolved twice, skipped, or resolved out of order. */
  lemma ResolvedInOrder(steps: seq<Step>, i: nat)
    requires Valid(START, steps) && i < |Final(START, steps).gui.resolutions|
    ensures var s := Final(START, steps);
            s.gui.resolutions[i].req == i < |s.asked|
  {
    StartIsSound();
    RunKeeps(START, steps);
    IthResolution(Final(START, steps), i);
  }

  lemma IthResolution(s: State, i: nat)
    requires Ordered(s) && i < |s.gui.resolutions|
    ensures s.gui.resolutions[i].req == i < |s.asked|
  {
    assert AllPrompts(s)[i] == s.gui.resolutions[i].req;
  }

  // ---- Every run: a response answers the oldest prompt left over -----------

  lemma ResolveKeepsQueue(g: Gui, decision: Decision, cause: Cause)
    requires InOrder(g) && (g.pending.Some? ==> g.ready)
    ensures var g' := Resolve(g, decision, cause);
            InOrder(g') && Taken(g') == Taken(g) && g'.ready == g.ready && g'.pending.None?
  {
  }

  lemma UpdateKeepsQueue(g: Gui, msg: Message, now: nat)
    requires InOrder(g) && (g.pending.Some? ==> g.ready) && (msg.ShowPrompt? ==> g.ready)
    ensures var g' := Update(g, msg, now);
            InOrder(g') && Taken(g') == Taken(g) && (g'.pending.Some? ==> g'.ready) && (g.ready ==> g'.ready)
            && (msg.WorkerReady? ==> g'.ready)
  {
    ResolveKeepsQueue(g, DenyOnce, Replaced);
    ResolveKeepsQueue(g, DenyOnce, Dismissed);
    ResolveKeepsQueue(g, DenyOnce, Expired);
    if msg.Decide? {
      ResolveKeepsQueue(g, msg.decision, Clicked);
    }
  }

  lemma TakeFromQueue(g: Gui, g': Gui)
    requires InOrder(g) && g.channel != [] && g' == g.(channel := g.channel[1..])
    ensures InOrder(g') && Taken(g') == Taken(g) + 1 && g.channel[0].source == Taken(g)
  {
  }

  /** What one step takes off the channel. */
  function TakenBy(step: Step): nat {
    if step.DrainOne? || step.Receive? then 1 else 0
  }

  lemma StepKeepsFeed(s: State, step: Step)
    requires Enabled(s, step) && Fed(s)
    ensures Fed(Apply(s, step)) && Taken(Apply(s, step).gui) == Taken(s.gui) + TakenBy(step)
  {
    match step {
      case DrainOne => TakeFromQueue(s.gui, Apply(s, step).gui);
      case Receive => TakeFromQueue(s.gui, Apply(s, step).gui);
      case Deliver(now) => UpdateKeepsQueue(s.gui, s.mailbox[0], now);
      case UserEvent(msg, now) => UpdateKeepsQueue(s.gui, msg, now);
      case _ =>
    }
  }

  /** All prompts are taken, in the channel, on the screen, or in the mailbox. */
  lemma PromptsAdd(s: State)
    requires Ordered(s)
    ensures |s.gui.resolutions| + LeftOver(s) + Unsent(s) == |s.asked|
    ensures Outstanding(s) + Taken(s.gui) + Unsent(s) == |s.asked|
  {
  }

  /** When a drain ends, all resolutions are taken, so what is left over is the gap. */
  lemma DrainLeaves(s: State)
    requires s.phase.Draining? && s.gui.channel == [] && Ordered(s)
    ensures Taken(s.gui) == s.phase.req - LeftOver(s)
  {
    PromptsAdd(s);
  }

  /** Steps that leave the worker where it is; it may take stale decisions while it drains. */
  lemma TallyStays(s: State, s': State, drains: seq<nat>)
    requires Tallied(s, drains)
    requires s'.phase == s.phase && s'.asked == s.asked && s'.responses == s.responses
    requires Taken(s'.gui) == Taken(s.gui) || (s.phase.Draining? && Taken(s'.gui) > Taken(s.gui))
    ensures Tallied(s', drains)
  {
  }

  lemma TallyAfterRead(s: State, s': State, drains: seq<nat>)
    requires Tallied(s, drains) && s.phase.Idle? && s'.phase.Draining?
    requires |s'.asked| == |s.asked| + 1 && s'.responses == s.responses && s'.gui == s.gui
    ensures Tallied(s', drains)
  {
  }

  lemma TallyAfterSend(s: State, s': State, drains: seq<nat>)
    requires Tallied(s, drains) && s.phase.Sending? && s'.phase.Waiting?
    requires s'.asked == s.asked && s'.responses == s.responses && s'.gui == s.gui
    ensures Tallied(s', drains)
  {
  }

  lemma TallyAfterDrain(s: State, s': State, drains: seq<nat>, left: nat)
    requires Tallied(s, drains) && s.phase.Draining? && s'.phase.Sending?
    requires s'.asked == s.asked && s'.responses == s.responses && s'.gui == s.gui
    requires Taken(s.gui) == |s.responses| - left && left <= |s.responses|
    ensures Tallied(s', drains + [left])
  {
    var drains' := drains + [left];
    assert forall k :: 0 <= k < |drains| ==> drains'[k] == drains[k];
    assert drains'[|drains|] == left;
  }

  lemma TallyAfterResponse(s: State, s': State, drains: seq<nat>, r: Response)
    requires Tallied(s, drains) && s.phase.Waiting? && s'.phase.Idle?
    requires s'.asked == s.asked && s'.responses == s.responses + [r] && Taken(s'.gui) >= Taken(s.gui)
    requires r.source.Some? ==> r.source.value == Taken(s.gui)
    ensures Tallied(s', drains)
  {
    assert forall k :: 0 <= k < |s.responses| ==> s'.responses[k] == s.responses[k];
    assert s'.responses[|s.responses|] == r;
  }

  lemma StepKeepsTally(s: State, step: Step, drains: seq<nat>)
    requires Enabled(s, step) && Ordered(s) && Fed(s) && Tallied(s, drains)
    ensures Tallied(Apply(s, step), drains + Drained(s, step))
  {
    var s' := Apply(s, step);
    StepKeepsFeed(s, step);
    Regroup(drains, [], []);
    match step {
      case Read(_) => TallyAfterRead(s, s', drains);
      case Send => TallyAfterSend(s, s', drains);
      case DrainDone =>
        DrainLeaves(s);
        TallyAfterDrain(s, s', drains, LeftOver(s));
      case Receive =>
        TakeFromQueue(s.gui, s'.gui);
        TallyAfterResponse(s, s', drains, Response(s.gui.channel[0].decision, Some(s.gui.channel[0].source)));
      case Backstop =>
        TallyAfterResponse(s, s', drains, Response(DenyOnce, None));
      case _ =>
        TallyStays(s, s', drains);
    }
  }

  /** The three invariants together. */
  ghost predicate Counting(s: State, drains: seq<nat>) {
    Ordered(s) && Fed(s) && Tallied(s, drains)
  }

  lemma StepKeepsCounting(s: State, step: Step, drains: seq<nat>)
    requires Enabled(s, step) && Counting(s, drains)
    ensures Counting(Apply(s, step), drains + Drained(s, step))
  {
    StepKeepsOrder(s, step);
    StepKeepsFeed(s, step);
    StepKeepsTally(s, step, drains);
  }

  lemma Regroup(a: seq<nat>, b: seq<nat>, c: seq<nat>)
    ensures (a + b) + c == a + (b + c) && a + [] == a && [] + a == a
  {
  }

  lemma FirstStateCounts(s: State)
    requires s.phase == Idle && s.asked == [] && s.responses == [] && s.mailbox == [WorkerReady]
    requires s.gui.pending == None && s.gui.channel == [] && s.gui.resolutions == []
    ensures Fed(s) && Tallied(s, []) && NeverBehind(s, [])
  {
  }

  lemma StartCounts()
    ensures Counting(START, []) && NeverBehind(START, [])
  {
    StartIsSound();
    FirstStateCounts(START);
  }

  lemma {:induction false} RunKeepsCounting(s: State, steps: seq<Step>, drains: seq<nat>)
    requires Valid(s, steps) && Counting(s, drains)
    ensures Counting(Final(s, steps), drains + Drains(s, steps))
    decreases |steps|
  {
    if steps == [] {
      Regroup(drains, [], []);
    } else {
      var next := Apply(s, steps[0]);
      StepKeepsCounting(s, steps[0], drains);
      RunKeepsCounting(next, steps[1..], drains + Drained(s, steps[0]));
      Regroup(drains, Drained(s, steps[0]), Drains(next, steps[1..]));
    }
  }

  lemma RunIsTallied(steps: seq<Step>)
    requires Valid(START, steps)
    ensures Counting(Final(START, steps), Drains(START, steps))
  {
    StartCounts();
    RunKeepsCounting(START, steps, []);
    Regroup(Drains(START, steps), [], []);
  }

  lemma RunIsSourced(steps: seq<Step>)
    requires Valid(START, steps)
    ensures Sourced(Final(START, steps))
  {
    StartIsSound();
    RunKeeps(START, steps);
  }

  /** Main theorem: in every run, with or without the backstop, the k-th response is
  the backstop's own denial, or the decision made on the oldest of the prompts
  that were left over when the drain for request k ended, counting k itself. */
  lemma AnswersOldestPrompt(steps: seq<Step>, k: nat)
    requires Valid(START, steps) && k < |Final(START, steps).responses|
    ensures k < |Drains(START, steps)| && Drains(START, steps)[k] <= k
    ensures var s, r := Final(START, steps), Final(START, steps).responses[k];
            match r.source
            case None => r.decision == DenyOnce
            case Some(i) =>
              && i == k - Drains(START, steps)[k] < |s.gui.resolutions|
              && s.gui.resolutions[i].req == i && s.gui.resolutions[i].decision == r.decision
  {
    RunIsTallied(steps);
    RunIsSourced(steps);
    ResponseFromTally(Final(START, steps), Drains(START, steps), k);
  }

  /** So the k-th response is the backstop's own denial, or what one step made of the
  prompt for that oldest request while it was shown: the clicked decision, or a
  one-time denial by dismissal, by the deadline, or by the next prompt. */
  lemma ResponseIsMade(steps: seq<Step>, k: nat)
    requires Valid(START, steps) && k < |Final(START, steps).responses|
    ensures k < |Drains(START, steps)| && Drains(START, steps)[k] <= k
    ensures var r := Final(START, steps).responses[k];
            match r.source
            case None => r.decision == DenyOnce
            case Some(i) =>
              && i == k - Drains(START, steps)[k]
              && exists n, cause :: MadeAt(steps, n, i, Resolution(i, r.decision, cause))
  {
    AnswersOldestPrompt(steps, k);
    var r := Final(START, steps).responses[k];
    if r.source.Some? {
      var i := r.source.value;
      var made := Final(START, steps).gui.resolutions[i];
      var n := OriginOfResolution(steps, i);
      assert MadeAt(steps, n, i, Resolution(i, r.decision, made.cause));
    }
  }

  lemma ResponseFromTally(s: State, drains: seq<nat>, k: nat)
    requires Ordered(s) && Sourced(s) && Tallied(s, drains) && k < |s.responses|
    ensures k < |drains| && drains[k] <= k
    ensures match s.responses[k].source
            case None => s.responses[k].decision == DenyOnce
            case Some(i) =>
              && i == k - drains[k] < |s.gui.resolutions|
              && s.gui.resolutions[i].req == i && s.gui.resolutions[i].decision == s.responses[k].decision
  {
    if s.responses[k].source.Some? {
      assert FromHistory(s, Sent(s.responses[k].decision, s.responses[k].source.value));
      IthResolution(s, s.responses[k].source.value);
    }
  }

  /** Every response that comes from the user's side is the decision made while its
  own request was the pending prompt. */
  ghost predicate Aligned(s: State) {
    forall k :: 0 <= k < |s.responses| && s.responses[k].source.Some? ==>
      s.responses[k].source.value < |s.gui.resolutions| && s.gui.resolutions[s.responses[k].source.value].req == k
  }

  /** Exactly when a run keeps requests and responses together: whenever the drain
  for a request that was then answered ended, no older prompt was pending or in
  the mailbox. */
  lemma LockstepIff(steps: seq<Step>)
    requires Valid(START, steps)
    ensures var s, drains := Final(START, steps), Drains(START, steps);
            |s.responses| <= |drains|
            && (Aligned(s) <==>
                  forall k :: 0 <= k < |s.responses| && s.responses[k].source.Some? ==> drains[k] == 0)
  {
    RunIsTallied(steps);
    var s, drains := Final(START, steps), Drains(START, steps);
    TalliedLengths(s, drains);
    forall k | 0 <= k < |s.responses| && s.responses[k].source.Some?
      ensures s.responses[k].source.value < |s.gui.resolutions|
      ensures s.gui.resolutions[s.responses[k].source.value].req == k <==> drains[k] == 0
    {
      AnswersOldestPrompt(steps, k);
    }
  }

  lemma TalliedLengths(s: State, drains: seq<nat>)
    requires Tallied(s, drains)
    ensures |s.responses| <= |drains|
    ensures |s.asked| - 1 <= |s.responses| <= |s.asked|
  {
  }

  lemma AtMostOneOutstanding(s: State, drains: seq<nat>)
    requires Counting(s, drains) && forall k :: 0 <= k < |drains| ==> drains[k] == 0
    ensures Outstanding(s) <= 1
  {
    PromptsAdd(s);
  }

  /** The k-th response is the backstop's denial or the decision on request k. */
  ghost predicate OwnOrDenied(s: State, k: nat)
    requires k < |s.responses|
  {
    || s.responses[k] == Response(DenyOnce, None)
    || (&& k < |s.gui.resolutions| && s.gui.resolutions[k].req == k
        && s.responses[k] == Response(s.gui.resolutions[k].decision, Some(k)))
  }

  lemma OwnResponse(s: State, drains: seq<nat>, k: nat)
    requires Counting(s, drains) && Sourced(s) && k < |s.responses| && (k < |drains| ==> drains[k] == 0)
    ensures OwnOrDenied(s, k)
  {
    ResponseFromTally(s, drains, k);
  }

  /** If every drain ends with nothing left over, at most one request is outstanding,
  and each response is the decision on its own request or the backstop's denial. */
  lemma CleanDrainsKeepLockstep(steps: seq<Step>)
    requires Valid(START, steps)
    requires forall k :: 0 <= k < |Drains(START, steps)| ==> Drains(START, steps)[k] == 0
    ensures var s := Final(START, steps);
            && Outstanding(s) <= 1
            && |s.asked| - 1 <= |s.responses| <= |s.asked|
            && forall k :: 0 <= k < |s.responses| ==> OwnOrDenied(s, k)
  {
    RunIsTallied(steps);
    RunIsSourced(steps);
    var s, drains := Final(START, steps), Drains(START, steps);
    TalliedLengths(s, drains);
    AtMostOneOutstanding(s, drains);
    forall k | 0 <= k < |s.responses| ensures OwnOrDenied(s, k) {
      OwnResponse(s, drains, k);
    }
  }

  // ---- Runs without the backstop -------------------------------------------

  /** Nothing was ever left over, and nothing is outstanding between two requests. */
  ghost predicate NeverBehind(s: State, drains: seq<nat>) {
    && (forall k :: 0 <= k < |drains| ==> drains[k] == 0)
    && (forall k :: 0 <= k < |s.responses| ==> s.responses[k].source.Some?)
    && (s.phase.Idle? || s.phase.Draining? ==> Taken(s.gui) == |s.responses|)
  }

  lemma StepStaysAbreast(s: State, step: Step, drains: seq<nat>)
    requires Enabled(s, step) && Counting(s, drains)
    requires NeverBehind(s, drains) && !step.Backstop?
    ensures NeverBehind(Apply(s, step), drains + Drained(s, step))
  {
    StepKeepsFeed(s, step);
    PromptsAdd(s);
  }

  lemma {:induction false} RunStaysAbreast(s: State, steps: seq<Step>, drains: seq<nat>)
    requires Valid(s, steps) && Counting(s, drains) && NeverBehind(s, drains)
    requires forall i :: 0 <= i < |steps| ==> !steps[i].Backstop?
    ensures NeverBehind(Final(s, steps), drains + Drains(s, steps))
    decreases |steps|
  {
    if steps == [] {
      Regroup(drains, [], []);
    } else {
      var next := Apply(s, steps[0]);
      StepKeepsCounting(s, steps[0], drains);
      StepStaysAbreast(s, steps[0], drains);
      RunStaysAbreast(next, steps[1..], drains + Drained(s, steps[0]));
      Regroup(drains, Drained(s, steps[0]), Drains(next, steps[1..]));
    }
  }

  lemma AllResponsesMatch(s: State, drains: seq<nat>)
    requires NeverBehind(s, drains)
    requires forall k :: 0 <= k < |s.responses| ==> OwnOrDenied(s, k)
    ensures |s.responses| <= |s.gui.resolutions|
    ensures forall k :: 0 <= k < |s.responses| ==>
              && s.responses[k] == Response(s.gui.resolutions[k].decision, Some(k))
              && s.gui.resolutions[k].req == k
  {
    forall k | 0 <= k < |s.responses|
      ensures k < |s.gui.resolutions| && s.gui.resolutions[k].req == k
      ensures s.responses[k] == Response(s.gui.resolutions[k].decision, Some(k))
    {
      assert OwnOrDenied(s, k) && s.responses[k].source.Some?;
    }
    assert |s.responses| > 0 ==> OwnOrDenied(s, |s.responses| - 1);
  }

  /** In every run in which the backstop never fires, at most one request is
  outstanding, and the k-th response is the decision made while the k-th request
  was the pending prompt. */
  lemma PromptLockstep(steps: seq<Step>)
    requires Valid(START, steps)
    requires forall i :: 0 <= i < |steps| ==> !steps[i].Backstop?
    ensures var s := Final(START, steps);
            && Outstanding(s) <= 1
            && |s.asked| - 1 <= |s.responses| <= |s.asked|
            && |s.responses| <= |s.gui.resolutions|
            && forall k :: 0 <= k < |s.responses| ==>
                 && s.responses[k] == Response(s.gui.resolutions[k].decision, Some(k))
                 && s.gui.resolutions[k].req == k
  {
    StartCounts();
    RunStaysAbreast(START, steps, []);
    Regroup(Drains(START, steps), [], []);
    CleanDrainsKeepLockstep(steps);
    AllResponsesMatch(Final(START, steps), Drains(START, steps));
  }

  /** The premise is needed: after a backstop, the prompt left on the screen can be
  answered late, and the answer is taken for the next request. */
  lemma BackstopBreaksLockstep() returns (steps: seq<Step>)
    ensures Valid(START, steps)
    ensures var s := Final(START, steps);
            && |s.responses| == 2 && s.responses[1] == Response(AllowOnce, Some(0))
            && |s.gui.resolutions| == 1 && s.gui.resolutions[0].req == 0
            && !Aligned(s)
  {
    var first := FirstPromptTimesOut();
    var second := [Read(1), DrainDone, Send, UserEvent(Decide(AllowOnce), 0), Receive];
    LateClick(second);
    Append(START, first, second);
    steps := first + second;
    assert Final(START, steps).responses[1].source.value == 0;
  }

  const SHOWN := Gui(true, Some(Pending(0, 1)), [], [])

  const TIMED_OUT := State(Idle, [1], [], SHOWN, [Response(DenyOnce, None)])

  lemma FirstPromptTimesOut() returns (steps: seq<Step>)
    ensures Valid(START, steps) && Final(START, steps) == TIMED_OUT
  {
    var sent := State(Waiting(0), [1], [WorkerReady, ShowPrompt(0, 1)], START.gui, []);
    Three(START, Read(1), DrainDone, Send);
    assert Final(START, [Read(1), DrainDone, Send]) == sent;
    assert sent.mailbox[1..] == [ShowPrompt(0, 1)] && [ShowPrompt(0, 1)][1..] == [];
    Three(sent, Deliver(0), Deliver(0), Backstop);
    assert Final(sent, [Deliver(0), Deliver(0), Backstop]) == TIMED_OUT;
    Append(START, [Read(1), DrainDone, Send], [Deliver(0), Deliver(0), Backstop]);
    steps := [Read(1), DrainDone, Send] + [Deliver(0), Deliver(0), Backstop];
  }

  lemma LateClick(steps: seq<Step>)
    requires steps == [Read(1), DrainDone, Send, UserEvent(Decide(AllowOnce), 0), Receive]
    ensures Valid(TIMED_OUT, steps)
    ensures var s := Final(TIMED_OUT, steps);
            && |s.responses| == 2 && s.responses[1] == Response(AllowOnce, Some(0))
            && |s.gui.resolutions| == 1 && s.gui.resolutions[0].req == 0
  {
    var sent := State(Waiting(1), [1, 1], [ShowPrompt(1, 1)], SHOWN, TIMED_OUT.responses);
    Three(TIMED_OUT, Read(1), DrainDone, Send);
    assert Final(TIMED_OUT, [Read(1), DrainDone, Send]) == sent;
    assert [UserEvent(Decide(AllowOnce), 0), Receive][1..] == [Receive] && [Receive][1..] == [];
    var clicked := Apply(sent, UserEvent(Decide(AllowOnce), 0));
    assert clicked.gui.channel == [Sent(AllowOnce, 0)] && clicked.gui.resolutions == [Resolution(0, AllowOnce, Clicked)];
    assert Valid(clicked, [Receive]) && Final(clicked, [Receive]) == Apply(clicked, Receive);
    assert Valid(sent, [UserEvent(Decide(AllowOnce), 0), Receive]);
    Append(TIMED_OUT, [Read(1), DrainDone, Send], [UserEvent(Decide(AllowOnce), 0), Receive]);
    assert steps == [Read(1), DrainDone, Send] + [UserEvent(Decide(AllowOnce), 0), Receive];
  }

  lemma StepThen(s: State, a: Step, rest: seq<Step>)
    requires Enabled(s, a) && Valid(Apply(s, a), rest)
    ensures Valid(s, [a] + rest) && Final(s, [a] + rest) == Final(Apply(s, a), rest)
  {
    assert ([a] + rest)[1..] == rest;
  }

  lemma Three(s: State, a: Step, b: Step, c: Step)
    requires Enabled(s, a) && Enabled(Apply(s, a), b) && Enabled(Apply(Apply(s, a), b), c)
    ensures Valid(s, [a, b, c]) && Final(s, [a, b, c]) == Apply(Apply(Apply(s, a), b), c)
  {
    var s1, s2 := Apply(s, a), Apply(Apply(s, a), b);
    StepThen(s2, c, []);
    StepThen(s1, b, [c] + []);
    StepThen(s, a, [b] + ([c] + []));
    assert [a] + ([b] + ([c] + [])) == [a, b, c];
  }
}
