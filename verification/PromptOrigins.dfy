/** Where decisions come from: every resolution in the history of a run is traced to
the message that made it and to the prompt that was on the screen. */
module PromptOrigins {
  import opened Wrappers
  import opened UiServer
  import opened PromptProtocol

  /** In this state the step resolves the pending prompt like this: a click decides what
  was clicked, and everything else denies once. */
  ghost predicate Resolves(s: State, step: Step, r: Resolution) {
    && s.gui.pending.Some? && r.req == s.gui.pending.value.req
    && match r.cause
       case Clicked => step.UserEvent? && step.msg == Decide(r.decision)
       case Dismissed => step.UserEvent? && step.msg == DenyKey && r.decision == DenyOnce
       case Expired =>
         step.UserEvent? && step.msg == Tick && step.now >= s.gui.pending.value.deadline && r.decision == DenyOnce
       case Replaced => step.Deliver? && s.mailbox != [] && s.mailbox[0].ShowPrompt? && r.decision == DenyOnce
  }

  /** The mailbox holds nothing but the hello and prompts, each with its request's timeout. */
  ghost predicate WorkerMail(s: State) {
    forall i :: 0 <= i < |s.mailbox| ==>
      || s.mailbox[i] == WorkerReady
      || (&& s.mailbox[i].ShowPrompt? && s.mailbox[i].req < |s.asked|
          && s.mailbox[i].timeoutMs == s.asked[s.mailbox[i].req])
  }

  /** Exactly when a step adds to the history, and what: one resolution, namely the one
  that its message makes of the pending prompt; and once the GUI knows the worker,
  the decision goes on the channel. */
  lemma StepResolvesIff(s: State, step: Step, r: Resolution)
    requires Enabled(s, step) && WorkerMail(s)
    ensures var s' := Apply(s, step);
            && (s'.gui.resolutions == s.gui.resolutions + [r] <==> Resolves(s, step, r))
            && (Resolves(s, step, r) ==>
                  s'.gui.channel == s.gui.channel + (if s.gui.ready then [Sent(r.decision, |s.gui.resolutions|)] else []))
  {
    var s' := Apply(s, step);
    assert s'.gui.resolutions != s.gui.resolutions ==> s'.gui.resolutions[|s.gui.resolutions|] in s'.gui.resolutions;
    assert (s.gui.resolutions + [r])[|s.gui.resolutions|] == r;
  }

  lemma StepAddsAtMostOne(s: State, step: Step) returns (r: Resolution)
    requires Enabled(s, step) && WorkerMail(s)
    ensures var s' := Apply(s, step);
            || s'.gui.resolutions == s.gui.resolutions
            || (s'.gui.resolutions == s.gui.resolutions + [r] && Resolves(s, step, r))
  {
    var s' := Apply(s, step);
    if s'.gui.resolutions != s.gui.resolutions {
      r := s'.gui.resolutions[|s.gui.resolutions|];
    } else {
      r := Resolution(0, DenyOnce, Dismissed);
    }
  }

  lemma StepKeepsMail(s: State, step: Step)
    requires Enabled(s, step) && WorkerMail(s)
    ensures WorkerMail(Apply(s, step))
  {
  }

  // ---- The states of a run -------------------------------------------------

  lemma {:induction false} PrefixIsValid(s: State, steps: seq<Step>, k: nat)
    requires Valid(s, steps) && k <= |steps|
    ensures Valid(s, steps[..k])
    decreases k
  {
    if k > 0 {
      PrefixIsValid(Apply(s, steps[0]), steps[1..], k - 1);
      assert steps[..k][1..] == steps[1..][..k - 1];
    }
  }

  /** The state after the first `k` steps of a run. */
  ghost function After(steps: seq<Step>, k: nat): State
    requires Valid(START, steps) && k <= |steps|
  {
    PrefixIsValid(START, steps, k);
    Final(START, steps[..k])
  }

  lemma {:induction false} NextFrom(s: State, steps: seq<Step>, k: nat)
    requires Valid(s, steps) && k < |steps| && Valid(s, steps[..k]) && Valid(s, steps[..k + 1])
    ensures Enabled(Final(s, steps[..k]), steps[k])
    ensures Final(s, steps[..k + 1]) == Apply(Final(s, steps[..k]), steps[k])
    decreases k
  {
    if k == 0 {
      assert steps[..1][1..] == [] && steps[..0] == [];
    } else {
      var s', later := Apply(s, steps[0]), steps[1..];
      assert steps[..k][1..] == later[..k - 1] && steps[..k + 1][1..] == later[..k];
      NextFrom(s', later, k - 1);
    }
  }

  lemma AfterStep(steps: seq<Step>, k: nat)
    requires Valid(START, steps) && k < |steps|
    ensures Enabled(After(steps, k), steps[k]) && After(steps, k + 1) == Apply(After(steps, k), steps[k])
  {
    PrefixIsValid(START, steps, k);
    PrefixIsValid(START, steps, k + 1);
    NextFrom(START, steps, k);
  }

  lemma AfterAll(steps: seq<Step>)
    requires Valid(START, steps)
    ensures After(steps, |steps|) == Final(START, steps)
  {
    assert steps[..|steps|] == steps;
  }

  lemma {:induction false} MailAt(steps: seq<Step>, k: nat)
    requires Valid(START, steps) && k <= |steps|
    ensures WorkerMail(After(steps, k))
  {
    if k > 0 {
      MailAt(steps, k - 1);
      AfterStep(steps, k - 1);
      StepKeepsMail(After(steps, k - 1), steps[k - 1]);
    }
  }

  // ---- Origins -------------------------------------------------------------

  /** The n-th step makes the i-th resolution, and makes it `r`. */
  ghost predicate MadeAt(steps: seq<Step>, n: nat, i: nat, r: Resolution)
    requires Valid(START, steps)
  {
    n < |steps| && |After(steps, n).gui.resolutions| == i && Resolves(After(steps, n), steps[n], r)
  }

  lemma {:induction false} OriginUpTo(steps: seq<Step>, m: nat, i: nat) returns (n: nat)
    requires Valid(START, steps) && m <= |steps| && i < |After(steps, m).gui.resolutions|
    ensures n < m && MadeAt(steps, n, i, After(steps, m).gui.resolutions[i])
    decreases m
  {
    var before := After(steps, m - 1);
    MailAt(steps, m - 1);
    AfterStep(steps, m - 1);
    var r := StepAddsAtMostOne(before, steps[m - 1]);
    if i < |before.gui.resolutions| {
      n := OriginUpTo(steps, m - 1, i);
    } else {
      n := m - 1;
    }
  }

  /** Over every run: the i-th resolution was made by one step, a click, a dismissal, the
  deadline or the next prompt, while its request was the pending prompt; and if it
  was a click, the decision is the one that was clicked. */
  lemma OriginOfResolution(steps: seq<Step>, i: nat) returns (n: nat)
    requires Valid(START, steps) && i < |Final(START, steps).gui.resolutions|
    ensures MadeAt(steps, n, i, Final(START, steps).gui.resolutions[i])
  {
    AfterAll(steps);
    n := OriginUpTo(steps, |steps|, i);
  }

  /** The n-th step shows the prompt `p`, whose deadline is its request's timeout away. */
  ghost predicate ShownAt(steps: seq<Step>, n: nat, p: Pending)
    requires Valid(START, steps)
  {
    && n < |steps| && steps[n].Deliver? && p.req < |After(steps, n).asked|
    && After(steps, n).mailbox != []
    && After(steps, n).mailbox[0] == ShowPrompt(p.req, After(steps, n).asked[p.req])
    && p.deadline == steps[n].now + After(steps, n).asked[p.req]
  }

  /** Over every run: the pending prompt was delivered by one step, and its deadline is
  the time of that plus the timeout of its request. */
  lemma {:induction false} PendingWasShown(steps: seq<Step>, m: nat) returns (n: nat)
    requires Valid(START, steps) && m <= |steps| && After(steps, m).gui.pending.Some?
    ensures n < m && ShownAt(steps, n, After(steps, m).gui.pending.value)
    decreases m
  {
    var before := After(steps, m - 1);
    MailAt(steps, m - 1);
    AfterStep(steps, m - 1);
    if before.gui.pending == After(steps, m).gui.pending && !(steps[m - 1].Deliver? && before.mailbox[0].ShowPrompt?) {
      n := PendingWasShown(steps, m - 1);
    } else {
      n := m - 1;
    }
  }

  /** A prompt expires only when the timeout of its request has passed since it was shown. */
  lemma ExpiredIsLate(steps: seq<Step>, i: nat) returns (shown: nat, expired: nat)
    requires Valid(START, steps) && i < |Final(START, steps).gui.resolutions|
    requires Final(START, steps).gui.resolutions[i].cause.Expired?
    ensures shown < expired < |steps| && steps[shown].Deliver? && steps[expired].UserEvent?
    ensures var req := Final(START, steps).gui.resolutions[i].req;
            && req < |After(steps, shown).asked|
            && steps[expired].now >= steps[shown].now + After(steps, shown).asked[req]
  {
    expired := OriginOfResolution(steps, i);
    shown := PendingWasShown(steps, expired);
  }
}
