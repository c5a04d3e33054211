/** The prompt helper: a worker thread that owns the socket and a GUI that owns
the prompt, talking over a mailbox and a decision channel.  Nothing on the wire
or on the channels says which request a decision belongs to. */
module PromptProtocol {
  import opened Wrappers
  import opened UiServer

  /** Requests are numbered in the order the worker reads them. */
  type RequestNo = nat

  datatype Cause = Clicked | Dismissed | Expired | Replaced

  /** History: a decision was made while request `req` was the pending prompt. */
  datatype Resolution = Resolution(req: RequestNo, decision: Decision, cause: Cause)

  /** A decision on its way to the worker; `source` is its place in the history. */
  datatype Sent = Sent(decision: Decision, source: nat)

  datatype Pending = Pending(req: RequestNo, deadline: nat)

  datatype Message =
    | WorkerReady
    | ShowPrompt(req: RequestNo, timeoutMs: nat)
    | WindowOpened
    | Decide(decision: Decision)
    | DenyKey
    | Tick

  // ---- The GUI -------------------------------------------------------------

  datatype Gui = Gui(ready: bool, pending: Option<Pending>, channel: seq<Sent>, resolutions: seq<Resolution>)

  /** At most one decision per prompt: later ones find nothing pending. */
  function Resolve(g: Gui, decision: Decision, cause: Cause): Gui {
    if g.pending.None? then g
    else Gui(g.ready, None,
             if g.ready then g.channel + [Sent(decision, |g.resolutions|)] else g.channel,
             g.resolutions + [Resolution(g.pending.value.req, decision, cause)])
  }

  function Update(g: Gui, msg: Message, now: nat): Gui {
    match msg
    case WorkerReady => g.(ready := true)
    case ShowPrompt(req, timeoutMs) =>
      Resolve(g, DenyOnce, Replaced).(pending := Some(Pending(req, now + timeoutMs)))
    case WindowOpened => g
    case Decide(d) => Resolve(g, d, Clicked)
    case DenyKey => Resolve(g, DenyOnce, Dismissed)
    case Tick => if g.pending.Some? && now >= g.pending.value.deadline then Resolve(g, DenyOnce, Expired) else g
  }

  class App {
    var decisionTx: bool
    var pending: Option<Pending>
    var channel: seq<Sent>
    var resolutions: seq<Resolution>

    function Value(): Gui
      reads this
    {
      Gui(decisionTx, pending, channel, resolutions)
    }

    constructor ()
      ensures Value() == Gui(false, None, [], [])
    {
      decisionTx, pending, channel, resolutions := false, None, [], [];
    }

    method ResolvePending(decision: Decision, cause: Cause)
      modifies this
      ensures Value() == Resolve(old(Value()), decision, cause)
    {
      if pending.None? {
        return;
      }
      var req := pending.value.req;
      pending := None;
      if decisionTx {
        channel := channel + [Sent(decision, |resolutions|)];
      }
      resolutions := resolutions + [Resolution(req, decision, cause)];
    }

    method Process(msg: Message, now: nat)
      modifies this
      ensures Value() == Update(old(Value()), msg, now)
      ensures msg.Decide? && old(pending).Some? ==>
                && pending.None?
                && resolutions == old(resolutions) + [Resolution(old(pending).value.req, msg.decision, Clicked)]
                && (decisionTx ==> channel == old(channel) + [Sent(msg.decision, |old(resolutions)|)])
    {
      match msg {
        case WorkerReady =>
          decisionTx := true;
        case ShowPrompt(req, timeoutMs) =>
          ResolvePending(DenyOnce, Replaced);
          pending := Some(Pending(req, now + timeoutMs));
        case WindowOpened =>
        case Decide(d) =>
          ResolvePending(d, Clicked);
        case DenyKey =>
          ResolvePending(DenyOnce, Dismissed);
        case Tick =>
          if pending.Some? && now >= pending.value.deadline {
            ResolvePending(DenyOnce, Expired);
          }
      }
    }
  }

  // ---- The worker and the whole system --------------------------------------

  /** Where the worker thread is in its read, drain, send, wait, write loop. */
  datatype Phase = Idle | Draining(req: RequestNo) | Sending(req: RequestNo) | Waiting(req: RequestNo)

  /** A response written to the daemon, with the history entry it came from;
  `None` when the worker's own backstop denied. */
  datatype Response = Response(decision: Decision, source: Option<nat>)

  /** `asked` holds the timeout of every request read so far. */
  datatype State = State(phase: Phase, asked: seq<nat>, mailbox: seq<Message>, gui: Gui, responses: seq<Response>)

  datatype Step =
    | Read(timeoutMs: nat)
    | DrainOne
    | DrainDone
    | Send
    | Receive
    | Backstop
    | Deliver(now: nat)
    | UserEvent(msg: Message, now: nat)

  const START := State(Idle, [], [WorkerReady], Gui(false, None, [], []), [])

  predicate Enabled(s: State, step: Step) {
    match step
    case Read(_) => s.phase.Idle?
    case DrainOne => s.phase.Draining? && s.gui.channel != []
    case DrainDone => s.phase.Draining? && s.gui.channel == []
    case Send => s.phase.Sending? && s.phase.req < |s.asked|
    case Receive => s.phase.Waiting? && s.gui.channel != []
    case Backstop => s.phase.Waiting? && s.gui.channel == []
    case Deliver(_) => s.mailbox != []
    case UserEvent(msg, _) => msg.WindowOpened? || msg.Decide? || msg.DenyKey? || msg.Tick?
  }

  function Apply(s: State, step: Step): State
    requires Enabled(s, step)
  {
    match step
    case Read(timeoutMs) => s.(phase := Draining(|s.asked|), asked := s.asked + [timeoutMs])
    case DrainOne => s.(gui := s.gui.(channel := s.gui.channel[1..]))
    case DrainDone => s.(phase := Sending(s.phase.req))
    case Send =>
      s.(phase := Waiting(s.phase.req), mailbox := s.mailbox + [ShowPrompt(s.phase.req, s.asked[s.phase.req])])
    case Receive =>
      s.(phase := Idle, gui := s.gui.(channel := s.gui.channel[1..]),
         responses := s.responses + [Response(s.gui.channel[0].decision, Some(s.gui.channel[0].source))])
    case Backstop => s.(phase := Idle, responses := s.responses + [Response(DenyOnce, None)])
    case Deliver(now) => s.(mailbox := s.mailbox[1..], gui := Update(s.gui, s.mailbox[0], now))
    case UserEvent(msg, now) => s.(gui := Update(s.gui, msg, now))
  }

  predicate Valid(s: State, steps: seq<Step>)
    decreases |steps|
  {
    steps == [] || (Enabled(s, steps[0]) && Valid(Apply(s, steps[0]), steps[1..]))
  }

  function Final(s: State, steps: seq<Step>): State
    requires Valid(s, steps)
    decreases |steps|
  {
    if steps == [] then s else Final(Apply(s, steps[0]), steps[1..])
  }

  lemma {:induction false} Append(s: State, a: seq<Step>, b: seq<Step>)
    requires Valid(s, a) && Valid(Final(s, a), b)
    ensures Valid(s, a + b) && Final(s, a + b) == Final(Final(s, a), b)
    decreases |a|
  {
    if a == [] {
      assert a + b == b;
    } else {
      Append(Apply(s, a[0]), a[1..], b);
      assert (a + b)[1..] == a[1..] + b;
    }
  }

  lemma {:induction false} OneMore(s: State, steps: seq<Step>, step: Step)
    requires Valid(s, steps) && Enabled(Final(s, steps), step)
    ensures Valid(s, steps + [step]) && Final(s, steps + [step]) == Apply(Final(s, steps), step)
    decreases |steps|
  {
    if steps == [] {
      assert [step][1..] == [] && steps + [step] == [step];
    } else {
      OneMore(Apply(s, steps[0]), steps[1..], step);
      assert (steps + [step])[1..] == steps[1..] + [step];
    }
  }

  datatype GuiAct = TakesMessage(now: nat) | Acts(msg: Message, now: nat)

  /** The worker's side, one method per point where the GUI may interleave. */
  class Worker {
    const app: App
    var phase: Phase
    var asked: seq<nat>
    var mailbox: seq<Message>
    var responses: seq<Response>

    function Value(): State
      reads this, app
    {
      State(phase, asked, mailbox, app.Value(), responses)
    }

    constructor (app: App)
      requires app.Value() == Gui(false, None, [], [])
      ensures this.app == app && Value() == START
    {
      this.app := app;
      phase, asked, mailbox, responses := Idle, [], [WorkerReady], [];
    }

    /** `serve`: take the next request, falling back to a default timeout. */
    method ReadRequest(uiTimeoutMs: nat, fallbackMs: nat)
      requires phase.Idle?
      modifies this
      ensures Value() == Apply(old(Value()), Read(if uiTimeoutMs > 0 then uiTimeoutMs else fallbackMs))
      ensures asked == old(asked) + [if uiTimeoutMs > 0 then uiTimeoutMs else fallbackMs]
    {
      phase := Draining(|asked|);
      asked := asked + [if uiTimeoutMs > 0 then uiTimeoutMs else fallbackMs];
    }

    /** `resolve`: one round of draining stale decisions. */
    method Drain()
      requires phase.Draining?
      modifies this, app
      ensures Value() == Apply(old(Value()), if old(app.channel) != [] then DrainOne else DrainDone)
    {
      if app.channel != [] {
        app.channel := app.channel[1..];
      } else {
        phase := Sending(phase.req);
      }
    }

    method SendRequest()
      requires phase.Sending? && phase.req < |asked|
      modifies this
      ensures Value() == Apply(old(Value()), Send)
    {
      mailbox := mailbox + [ShowPrompt(phase.req, asked[phase.req])];
      phase := Waiting(phase.req);
    }

    /** The bounded wait ends with a decision or, if there is none, with a denial. */
    method FinishWait()
      requires phase.Waiting?
      modifies this, app
      ensures Value() == Apply(old(Value()), if old(app.channel) != [] then Receive else Backstop)
    {
      if app.channel != [] {
        responses := responses + [Response(app.channel[0].decision, Some(app.channel[0].source))];
        app.channel := app.channel[1..];
      } else {
        responses := responses + [Response(DenyOnce, None)];
      }
      phase := Idle;
    }

    /** What the GUI does between two actions of the worker; `did` is the step taken,
    if there was anything to do. */
    method LetGuiAct(act: GuiAct) returns (ghost did: seq<Step>)
      modifies this`mailbox, app
      ensures Valid(old(Value()), did) && Value() == Final(old(Value()), did)
      ensures forall step :: step in did ==> step.Deliver? || step.UserEvent?
    {
      did := [];
      match act {
        case TakesMessage(now) =>
          if mailbox != [] {
            did := [Deliver(now)];
            OneMore(Value(), [], Deliver(now));
            var msg := mailbox[0];
            mailbox := mailbox[1..];
            app.Process(msg, now);
          }
        case Acts(msg, now) =>
          if msg.WindowOpened? || msg.Decide? || msg.DenyKey? || msg.Tick? {
            did := [UserEvent(msg, now)];
            OneMore(Value(), [], UserEvent(msg, now));
            app.Process(msg, now);
          }
      }
    }

    /** The drain loop of `resolve`; the GUI may act before each round. */
    method DrainAll(gui: seq<GuiAct>) returns (left: seq<GuiAct>, ghost trace: seq<Step>)
      requires phase.Draining?
      modifies this, app
      ensures Valid(old(Value()), trace) && Value() == Final(old(Value()), trace)
      ensures phase == Sending(old(phase).req)
      ensures asked == old(asked) && responses == old(responses)
    {
      ghost var start := Value();
      trace, left := [], gui;
      while phase.Draining?
        invariant Valid(start, trace) && Value() == Final(start, trace)
        invariant phase == Draining(old(phase).req) || phase == Sending(old(phase).req)
        invariant asked == old(asked) && responses == old(responses)
        decreases |left|, |app.channel|, if phase.Draining? then 1 else 0
      {
        if left != [] {
          ghost var did := LetGuiAct(left[0]);
          Append(start, trace, did);
          trace, left := trace + did, left[1..];
        }
        ghost var step := if app.channel != [] then DrainOne else DrainDone;
        OneMore(start, trace, step);
        Drain();
        trace := trace + [step];
      }
    }

    /** The GUI acts once, if it has anything left to do. */
    method LetGuiGo(gui: seq<GuiAct>) returns (left: seq<GuiAct>, ghost did: seq<Step>)
      modifies this`mailbox, app
      ensures Valid(old(Value()), did) && Value() == Final(old(Value()), did)
    {
      left, did := gui, [];
      if left != [] {
        did := LetGuiAct(left[0]);
        left := left[1..];
      }
    }

    /** One request: read, and `resolve`, that is drain, send, and wait for a decision
    or the backstop.  The GUI may act before each action of the worker and, any
    number of times, during the wait. */
    method ResolveRequest(uiTimeoutMs: nat, fallbackMs: nat, gui: seq<GuiAct>) returns (ghost trace: seq<Step>)
      requires phase.Idle?
      modifies this, app
      ensures Valid(old(Value()), trace) && Value() == Final(old(Value()), trace)
      ensures phase.Idle? && |asked| == |old(asked)| + 1 && |responses| == |old(responses)| + 1
    {
      ghost var start := Value();
      var left: seq<GuiAct>;
      left, trace := LetGuiGo(gui);
      ghost var read := Read(if uiTimeoutMs > 0 then uiTimeoutMs else fallbackMs);
      OneMore(start, trace, read);
      ReadRequest(uiTimeoutMs, fallbackMs);
      trace := trace + [read];
      ghost var did: seq<Step>;
      left, did := DrainAll(left);
      Append(start, trace, did);
      trace := trace + did;
      left, did := LetGuiGo(left);
      Append(start, trace, did);
      trace := trace + did;
      OneMore(start, trace, Send);
      SendRequest();
      trace := trace + [Send];
      while app.channel == [] && left != []
        invariant Valid(start, trace) && Value() == Final(start, trace)
        invariant phase.Waiting? && |asked| == |old(asked)| + 1 && responses == old(responses)
        decreases |left|
      {
        did := LetGuiAct(left[0]);
        Append(start, trace, did);
        trace, left := trace + did, left[1..];
      }
      ghost var last := if app.channel != [] then Receive else Backstop;
      OneMore(start, trace, last);
      FinishWait();
      trace := trace + [last];
    }
  }

  // ---- Every run: allows are clicks ----------------------------------------

  function InMail(mailbox: seq<Message>): seq<RequestNo> {
    if mailbox == [] then []
    else (if mailbox[0].ShowPrompt? then [mailbox[0].req] else []) + InMail(mailbox[1..])
  }

  /** Requests in the mailbox, on the screen, or answered by an unread decision. */
  function Outstanding(s: State): nat {
    |InMail(s.mailbox)| + (if s.gui.pending.Some? then 1 else 0) + |s.gui.channel|
  }

  function Resolved(resolutions: seq<Resolution>): (r: seq<RequestNo>)
    ensures |r| == |resolutions|
    ensures forall i :: 0 <= i < |r| ==> r[i] == resolutions[i].req
  {
    if resolutions == [] then [] else Resolved(resolutions[..|resolutions| - 1]) + [resolutions[|resolutions| - 1].req]
  }

  /** The prompts the GUI has been given, oldest first. */
  function Known(g: Gui): seq<RequestNo> {
    Resolved(g.resolutions) + (if g.pending.Some? then [g.pending.value.req] else [])
  }

  /** All prompts handed over so far: resolved, pending, and still in the mailbox. */
  function AllPrompts(s: State): seq<RequestNo> {
    Known(s.gui) + InMail(s.mailbox)
  }

  /** Requests that are not yet on their way to the GUI. */
  function Unsent(s: State): nat {
    if s.phase.Draining? || s.phase.Sending? then 1 else 0
  }

  /** Every request that was sent is exactly one prompt, in the order of reading. */
  ghost predicate Ordered(s: State) {
    && |AllPrompts(s)| + Unsent(s) == |s.asked|
    && (forall i :: 0 <= i < |AllPrompts(s)| ==> AllPrompts(s)[i] == i)
    && (!s.phase.Idle? ==> s.phase.req == |s.asked| - 1)
  }

  /** A decision that allows was a click; the decisions in flight and those
  delivered come from different resolutions, in order. */
  ghost predicate Sourced(s: State) {
    && (forall i :: 0 <= i < |s.gui.resolutions| && s.gui.resolutions[i].decision.Allows() ==>
          s.gui.resolutions[i].cause.Clicked?)
    && (forall i :: 0 <= i < |s.gui.channel| ==> FromHistory(s, s.gui.channel[i]))
    && (forall i, j :: 0 <= i < j < |s.gui.channel| ==> s.gui.channel[i].source < s.gui.channel[j].source)
    && (forall k :: 0 <= k < |s.responses| ==>
          if s.responses[k].source.Some?
          then FromHistory(s, Sent(s.responses[k].decision, s.responses[k].source.value))
          else s.responses[k].decision == DenyOnce)
    && (forall k, i :: 0 <= k < |s.responses| && s.responses[k].source.Some? && 0 <= i < |s.gui.channel| ==>
          s.responses[k].source.value < s.gui.channel[i].source)
    && (forall k, l :: 0 <= k < l < |s.responses| && s.responses[k].source.Some? && s.responses[l].source.Some? ==>
          s.responses[k].source.value < s.responses[l].source.value)
  }

  predicate FromHistory(s: State, sent: Sent) {
    sent.source < |s.gui.resolutions| && s.gui.resolutions[sent.source].decision == sent.decision
  }

  // ---- Every run: which prompt a response answers --------------------------

  /** How many decisions the worker has taken off the channel. */
  function Taken(g: Gui): int {
    |g.resolutions| - |g.channel|
  }

  /** The channel holds the latest resolutions, in order and without gaps. */
  ghost predicate InOrder(g: Gui) {
    && Taken(g) >= 0
    && forall i :: 0 <= i < |g.channel| ==>
         g.channel[i] == Sent(g.resolutions[Taken(g) + i].decision, Taken(g) + i)
  }

  /** No prompt is shown before the GUI can send decisions. */
  ghost predicate Fed(s: State) {
    && InOrder(s.gui)
    && (s.gui.pending.Some? ==> s.gui.ready)
    && (s.gui.ready || (s.mailbox != [] && s.mailbox[0].WorkerReady?))
  }

  /** Prompts without a decision: shown, or still in the mailbox. */
  function LeftOver(s: State): nat {
    |InMail(s.mailbox)| + (if s.gui.pending.Some? then 1 else 0)
  }

  /** What was left over each time a drain ended, one entry for each request. */
  function Drains(s: State, steps: seq<Step>): seq<nat>
    requires Valid(s, steps)
    decreases |steps|
  {
    if steps == [] then []
    else Drained(s, steps[0]) + Drains(Apply(s, steps[0]), steps[1..])
  }

  function Drained(s: State, step: Step): seq<nat> {
    if step.DrainDone? then [LeftOver(s)] else []
  }

  /** The decision that the worker will take next is that on the oldest prompt left
  over when the last drain ended, and each response took such a decision. */
  ghost predicate Tallied(s: State, drains: seq<nat>) {
    && |drains| + (if s.phase.Draining? then 1 else 0) == |s.asked|
    && |s.responses| + (if s.phase.Idle? then 0 else 1) == |s.asked|
    && (forall k :: 0 <= k < |drains| ==> drains[k] <= k)
    && (s.phase.Sending? || s.phase.Waiting? ==> Taken(s.gui) == |s.responses| - drains[|s.responses|])
    && (|s.responses| > 0 ==> Taken(s.gui) >= |s.responses| - 1 - drains[|s.responses| - 1])
    && (forall k :: 0 <= k < |s.responses| && s.responses[k].source.Some? ==>
          s.responses[k].source.value == k - drains[k])
  }
}
