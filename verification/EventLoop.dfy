/** The daemon's handling of permission events: decide, ask, learn, answer. */
module EventLoop {
  import opened Wrappers
  import opened FileSystem
  import opened Policy
  import R = Rules
  import U = UiServer

  /** One permission event with what the daemon resolves about it: the path (if
  that works), the process, and the time at which it is handled. */
  datatype Access = Access(openPerm: bool, pid: nat, resolved: Option<Path>,
                           exe: string, cwd: string, cmdline: string, now: u64)
  {
    function Path(): FileSystem.Path {
      if resolved.Some? then resolved.value else ["<unknown>"]
    }
  }

  /** What the helper shows, including what an "Always" answer would cover. */
  datatype PromptRequest = PromptRequest(pid: nat, exe: string, cmdline: string, cwd: string, path: Path,
                                         alwaysObject: Path, alwaysTree: bool, alwaysCwdPinned: bool)

  function Request(policy: Policy, a: Access): PromptRequest {
    var (target, tree, pinned) :=
      match FirstCovering(policy, a.Path())
      case Some(i) =>
        var (object', kind) := policy[i].AlwaysTarget(a.Path());
        (object', kind == R.TreeObject, policy[i].learnCwd)
      case None => (a.Path(), false, false);
    PromptRequest(a.pid, a.exe, a.cmdline, a.cwd, a.Path(), target, tree, pinned)
  }

  /** The configured outcome and the learned rules together. */
  function Judge(policy: Policy, rules: seq<R.LearnedRule>, a: Access): Outcome {
    Combine(Evaluate(policy, a.Path(), a.exe), R.Verdict(rules, a.Path(), a.exe, Some(a.cwd)))
  }

  datatype Verdict = Settled(allow: bool) | Ask(request: PromptRequest)

  function Classify(policy: Policy, rules: seq<R.LearnedRule>, ownPid: nat, a: Access): Verdict {
    if !a.openPerm || a.pid == ownPid then Settled(true)
    else
      var covering := FirstCovering(policy, a.Path());
      if covering.Some? && policy[covering.value].excluded(a.Path()) then Settled(true)
      else if covering.Some? && !policy[covering.value].IsIncluded(a.Path()) then Settled(true)
      else
        match Judge(policy, rules, a)
        case Allow => Settled(true)
        case Deny => Settled(false)
        case Prompt => Ask(Request(policy, a))
  }

  function AlwaysAction(d: U.Decision): Option<R.RuleAction> {
    match d
    case AllowAlways => Some(R.Allow)
    case DenyAlways => Some(R.Deny)
    case _ => None
  }

  /** Use the helper's reply: any failure denies, an "Always" answer is remembered. */
  function Learn(policy: Policy, store: R.Store, a: Access, reply: U.Reply): R.Store {
    if reply.Fail? then store
    else
      match (AlwaysAction(reply.decision), FirstCovering(policy, a.Path()))
      case (Some(action), Some(i)) =>
        R.Pushed(store, policy[i].LearnedRule(action, a.exe, a.Path(), Some(a.cwd), a.now))
      case _ => store
  }

  datatype LoopState = LoopState(policy: Policy, store: R.Store, links: U.Links)

  /** One event: the answer given to the kernel and what changes. */
  function Serve(s: LoopState, ownPid: nat, a: Access): (bool, LoopState) {
    match Classify(s.policy, s.store.rules, ownPid, a)
    case Settled(allow) => (allow, s)
    case Ask(_) =>
      var (reply, links) := U.PromptOnce(s.links);
      (reply.Answer? && reply.decision.Allows(), s.(store := Learn(s.policy, s.store, a, reply), links := links))
  }

  /** The state after a batch of events. */
  function AfterBatch(s: LoopState, ownPid: nat, events: seq<Access>): LoopState
    decreases |events|
  {
    if events == [] then s
    else Serve(AfterBatch(s, ownPid, events[..|events| - 1]), ownPid, events[|events| - 1]).1
  }

  datatype Response = Response(event: Access, allow: bool)

  /** The responses to a batch, each decided in the state the events before it left. */
  function Responses(s: LoopState, ownPid: nat, events: seq<Access>): seq<Response>
    decreases |events|
  {
    if events == [] then []
    else
      var init, last := events[..|events| - 1], events[|events| - 1];
      Responses(s, ownPid, init) + [Response(last, Serve(AfterBatch(s, ownPid, init), ownPid, last).0)]
  }

  lemma BatchStep(s: LoopState, ownPid: nat, events: seq<Access>, i: nat)
    requires i < |events|
    ensures var before := AfterBatch(s, ownPid, events[..i]);
            && AfterBatch(s, ownPid, events[..i + 1]) == Serve(before, ownPid, events[i]).1
            && Responses(s, ownPid, events[..i + 1])
               == Responses(s, ownPid, events[..i]) + [Response(events[i], Serve(before, ownPid, events[i]).0)]
  {
    assert events[..i + 1][..i] == events[..i];
  }

  lemma {:induction false} AsManyResponses(s: LoopState, ownPid: nat, events: seq<Access>)
    ensures |Responses(s, ownPid, events)| == |events|
    decreases |events|
  {
    if events != [] {
      AsManyResponses(s, ownPid, events[..|events| - 1]);
    }
  }

  lemma {:induction false} ResponsesOfPrefix(s: LoopState, ownPid: nat, events: seq<Access>, n: nat)
    requires n <= |events|
    ensures Responses(s, ownPid, events[..n]) <= Responses(s, ownPid, events)
    decreases |events|
  {
    if n == |events| {
      assert events[..n] == events;
    } else {
      var init := events[..|events| - 1];
      ResponsesOfPrefix(s, ownPid, init, n);
      assert init[..n] == events[..n];
    }
  }

  /** Every event of the batch gets exactly one response, in order, and is served in
  the state that serving the events before it, one after the other, has left. */
  lemma OneResponseEach(s: LoopState, ownPid: nat, events: seq<Access>, i: nat)
    requires i < |events|
    ensures |Responses(s, ownPid, events)| == |events|
    ensures Responses(s, ownPid, events)[i]
            == Response(events[i], Serve(AfterBatch(s, ownPid, events[..i]), ownPid, events[i]).0)
    ensures AfterBatch(s, ownPid, []) == s
    ensures AfterBatch(s, ownPid, events[..i + 1])
            == Serve(AfterBatch(s, ownPid, events[..i]), ownPid, events[i]).1
  {
    AsManyResponses(s, ownPid, events);
    AsManyResponses(s, ownPid, events[..i]);
    ResponsesOfPrefix(s, ownPid, events, i + 1);
    BatchStep(s, ownPid, events, i);
  }

  class Daemon {
    var policy: Policy
    const ownPid: nat
    const rules: R.RuleStore
    const server: U.Server
    var responses: seq<Response>

    function Value(): LoopState
      reads this, rules, server
    {
      LoopState(policy, rules.Value(), server.Value())
    }

    constructor (policy: Policy, ownPid: nat, rules: R.RuleStore, server: U.Server)
      ensures this.ownPid == ownPid && this.rules == rules && this.server == server
      ensures this.policy == policy && responses == []
    {
      this.policy, this.ownPid, this.rules, this.server := policy, ownPid, rules, server;
      responses := [];
    }

    method Respond(event: Access, allow: bool)
      modifies this`responses
      ensures responses == old(responses) + [Response(event, allow)]
    {
      responses := responses + [Response(event, allow)];
    }

    /** Ask the helper and learn from its answer. */
    method AskUser(a: Access) returns (allow: bool)
      modifies rules, server
      ensures var (reply, links) := U.PromptOnce(old(server.Value()));
              && server.Value() == links
              && rules.Value() == Learn(policy, old(rules.Value()), a, reply)
              && (reply != U.Answer(U.AllowAlways) && reply != U.Answer(U.DenyAlways) ==>
                    rules.Value() == old(rules.Value()))
              && (allow <==> reply == U.Answer(U.AllowOnce) || reply == U.Answer(U.AllowAlways))
    {
      var covering := FirstCovering(policy, a.Path());
      var reply := server.PromptRecovering();
      match reply {
        case Answer(decision) =>
          var action := AlwaysAction(decision);
          if action.Some? && covering.Some? {
            rules.Push(policy[covering.value].LearnedRule(action.value, a.exe, a.Path(), Some(a.cwd), a.now));
          }
          allow := decision.Allows();
        case Fail(_) =>
          allow := false;
      }
    }

    method Handle(a: Access)
      modifies this`responses, rules, server
      ensures var (allow, s) := Serve(old(Value()), ownPid, a);
              Value() == s && responses == old(responses) + [Response(a, allow)]
    {
      if !a.openPerm || a.pid == ownPid {
        Respond(a, true);
        return;
      }
      var covering := FirstCovering(policy, a.Path());
      if covering.Some? {
        if policy[covering.value].excluded(a.Path()) {
          Respond(a, true);
          return;
        }
        if !policy[covering.value].IsIncluded(a.Path()) {
          Respond(a, true);
          return;
        }
      }
      var learned := rules.Evaluate(a.Path(), a.exe, Some(a.cwd));
      var allow: bool;
      match Combine(Evaluate(policy, a.Path(), a.exe), learned) {
        case Allow => allow := true;
        case Deny => allow := false;
        case Prompt => allow := AskUser(a);
      }
      Respond(a, allow);
    }

    /** Every event of the batch gets one response, in order, each decided in the
    state the events before it left behind. */
    method HandleBatch(events: seq<Access>)
      modifies this`responses, rules, server
      ensures Value() == AfterBatch(old(Value()), ownPid, events)
      ensures responses == old(responses) + Responses(old(Value()), ownPid, events)
    {
      ghost var start := Value();
      for i := 0 to |events|
        invariant Value() == AfterBatch(start, ownPid, events[..i])
        invariant responses == old(responses) + Responses(start, ownPid, events[..i])
      {
        BatchStep(start, ownPid, events, i);
        Handle(events[i]);
      }
      assert events[..|events|] == events;
    }
  }
}
