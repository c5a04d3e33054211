/** The daemon's link to the prompt helper and its recovery after a restart. */
module UiServer {
  import opened Wrappers

  datatype Decision = AllowOnce | DenyOnce | AllowAlways | DenyAlways {
    predicate Allows() {
      AllowOnce? || AllowAlways?
    }
  }

  datatype ErrorKind = BrokenPipe | UnexpectedEof | ConnectionReset | ConnectionAborted | NotConnected
                     | WouldBlock | InvalidData | OtherError

  /** The connection is dead, as opposed to slow. */
  predicate IsDisconnect(kind: ErrorKind) {
    kind in {BrokenPipe, UnexpectedEof, ConnectionReset, ConnectionAborted, NotConnected}
  }

  /** How one write-then-read exchange on a link ends. */
  datatype Reply = Answer(decision: Decision) | Fail(kind: ErrorKind)

  /** A connected helper, by how its coming exchanges end; then it hangs up. */
  datatype Peer = Peer(replies: seq<Reply>) {
    function First(): Reply {
      if replies == [] then Fail(UnexpectedEof) else replies[0]
    }

    function Rest(): Peer {
      if replies == [] then this else Peer(replies[1..])
    }

    predicate Dead() {
      First().Fail? && IsDisconnect(First().kind)
    }
  }

  /** What the next accept call yields. */
  datatype Arrival = Connection(peer: Peer) | AcceptFails(kind: ErrorKind)

  datatype Links = Links(held: Option<Peer>, backlog: seq<Arrival>, attempts: nat)

  /** Non-blocking accept: the error, if any, and whom it connects. */
  function TryAccept(s: Links): (Option<ErrorKind>, Links) {
    if s.backlog == [] then (None, s)
    else
      var rest := s.(backlog := s.backlog[1..]);
      match s.backlog[0]
      case Connection(peer) => (None, rest.(held := Some(peer)))
      case AcceptFails(WouldBlock) => (None, rest)
      case AcceptFails(kind) => (Some(kind), rest)
  }

  /** One exchange on the held link; a dead link is dropped. */
  function Exchange(s: Links): (Reply, Links)
    requires s.held.Some?
  {
    var peer := s.held.value;
    (peer.First(), s.(held := if peer.Dead() then None else Some(peer.Rest()), attempts := s.attempts + 1))
  }

  function AcceptIfNone(s: Links): (Option<ErrorKind>, Links) {
    if s.held.None? then TryAccept(s) else (None, s)
  }

  function SecondTry(s: Links): (Reply, Links) {
    var (error, s1) := AcceptIfNone(s);
    if error.Some? then (Fail(error.value), s1)
    else if s1.held.Some? then Exchange(s1)
    else (Fail(NotConnected), s1)
  }

  /** One prompt: accept if there is no link, try, and retry once after a disconnect. */
  function PromptOnce(s: Links): (Reply, Links) {
    var (error, s1) := AcceptIfNone(s);
    if error.Some? then (Fail(error.value), s1)
    else if s1.held.None? then SecondTry(s1)
    else
      var (reply, s2) := Exchange(s1);
      if s2.held.None? then SecondTry(s2) else (reply, s2)
  }

  class Server {
    var held: Option<Peer>
    var backlog: seq<Arrival>
    var attempts: nat

    function Value(): Links
      reads this
    {
      Links(held, backlog, attempts)
    }

    constructor (arrivals: seq<Arrival>)
      ensures Value() == Links(None, arrivals, 0)
    {
      held, backlog, attempts := None, arrivals, 0;
    }

    method Accept() returns (error: Option<ErrorKind>)
      requires held.None?
      modifies this
      ensures (error, Value()) == TryAccept(old(Value()))
      ensures attempts == old(attempts) && backlog == if old(backlog) == [] then [] else old(backlog)[1..]
      ensures held.Some? <==> old(backlog) != [] && old(backlog)[0].Connection?
      ensures held.Some? ==> held.value == old(backlog)[0].peer
      ensures error.Some? <==> old(backlog) != [] && old(backlog)[0].AcceptFails? && old(backlog)[0].kind != WouldBlock
      ensures error.Some? ==> error.value == old(backlog)[0].kind
    {
      error := None;
      if backlog == [] {
        return;
      }
      var arrival := backlog[0];
      backlog := backlog[1..];
      match arrival {
        case Connection(peer) =>
          held := Some(peer);
        case AcceptFails(kind) =>
          if kind != WouldBlock {
            error := Some(kind);
          }
      }
    }

    method Prompt() returns (reply: Reply)
      requires held.Some?
      modifies this
      ensures reply == old(held).value.First()
      ensures Value() == old(Value()).(held := Some(old(held).value.Rest()), attempts := old(attempts) + 1)
    {
      reply := held.value.First();
      held := Some(held.value.Rest());
      attempts := attempts + 1;
    }

    method PromptRecovering() returns (reply: Reply)
      modifies this
      ensures (reply, Value()) == PromptOnce(old(Value()))
      ensures old(held).Some? && !LinkLost(old(held).value.First()) ==>
                && reply == old(held).value.First()
                && held == Some(old(held).value.Rest()) && backlog == old(backlog)
      ensures old(held).Some? && LinkLost(old(held).value.First()) ==>
                (reply, Value()) == RetryOn(old(backlog), old(attempts) + 1)
    {
      if held.None? {
        var error := Accept();
        if error.Some? {
          return Fail(error.value);
        }
      }
      if held.Some? {
        reply := Prompt();
        if reply.Answer? || !IsDisconnect(reply.kind) {
          return;
        }
        held := None;
      }
      if held.None? {
        var error := Accept();
        if error.Some? {
          return Fail(error.value);
        }
      }
      if held.None? {
        return Fail(NotConnected);
      }
      reply := Prompt();
      if reply.Fail? && IsDisconnect(reply.kind) {
        held := None;
      }
    }
  }

  /** The errors that mean a dead link, by name; a helper that has hung up is one. */
  ghost predicate LinkLost(reply: Reply) {
    || reply == Fail(BrokenPipe) || reply == Fail(UnexpectedEof) || reply == Fail(ConnectionReset)
    || reply == Fail(ConnectionAborted) || reply == Fail(NotConnected)
  }

  /** Exactly when a held link is given up: its exchange fails with one of the five errors
  of a dead connection.  Any other reply is returned as it is, the link is kept, and
  no waiting helper is taken. */
  lemma HeldLinkFate(s: Links, peer: Peer)
    requires s.held == Some(peer)
    ensures var first := if peer.replies == [] then Fail(UnexpectedEof) else peer.replies[0];
            && (!LinkLost(first) ==>
                  && peer.replies != []
                  && PromptOnce(s) == (first, Links(Some(Peer(peer.replies[1..])), s.backlog, s.attempts + 1)))
            && (LinkLost(first) ==>
                  PromptOnce(s) == RetryOn(s.backlog, s.attempts + 1))
  {
  }

  /** The second and last try: with the next waiting helper, if there is one. */
  function RetryOn(backlog: seq<Arrival>, attempts: nat): (Reply, Links) {
    if backlog == [] || backlog[0] == AcceptFails(WouldBlock) then
      (Fail(NotConnected), Links(None, if backlog == [] then [] else backlog[1..], attempts))
    else
      match backlog[0]
      case AcceptFails(kind) => (Fail(kind), Links(None, backlog[1..], attempts))
      case Connection(peer) =>
        (peer.First(), Links(if peer.Dead() then None else Some(peer.Rest()), backlog[1..], attempts + 1))
  }

  /** Without a held link, the next waiting helper is taken and then treated like one;
  a failing accept is returned, and if nobody waits, nothing is tried. */
  lemma NoLinkFate(s: Links)
    requires s.held.None?
    ensures s.backlog == [] ==> PromptOnce(s) == (Fail(NotConnected), s)
    ensures s.backlog != [] ==>
              var rest := s.(backlog := s.backlog[1..]);
              match s.backlog[0]
              case Connection(peer) => PromptOnce(s) == PromptOnce(rest.(held := Some(peer)))
              case AcceptFails(kind) =>
                if kind == WouldBlock then PromptOnce(s) == RetryOn(rest.backlog, s.attempts)
                else PromptOnce(s) == (Fail(kind), rest)
  {
  }

  /** What is kept after the second try: the new link, unless its exchange fails with
  one of the five errors. */
  lemma RetryFate(backlog: seq<Arrival>, attempts: nat, peer: Peer)
    requires backlog != [] && backlog[0] == Connection(peer)
    ensures var (reply, s') := RetryOn(backlog, attempts);
            && reply == (if peer.replies == [] then Fail(UnexpectedEof) else peer.replies[0])
            && s'.backlog == backlog[1..]
            && s'.held == (if LinkLost(reply) then None else Some(Peer(peer.replies[1..])))
  {
  }

  /** Every call tries at most twice, never drops a link that timed out or
  answered, and keeps no link that is known to be dead. */
  lemma RecoveryIsBounded(s: Links)
    ensures var (reply, s') := PromptOnce(s);
            && s.attempts <= s'.attempts <= s.attempts + 2
            && (reply.Answer? || reply == Fail(WouldBlock) ==> s'.held.Some? && s'.attempts > s.attempts)
            && (reply.Fail? && IsDisconnect(reply.kind) ==> s'.held.None?)
            && (s'.held.None? ==> reply.Fail? && reply.kind != WouldBlock)
  {
  }

  function AfterCalls(s: Links, n: nat): Links
    decreases n
  {
    if n == 0 then s else AfterCalls(PromptOnce(s).1, n - 1)
  }

  /** What the call after `n` others returns. */
  function CallResult(s: Links, n: nat): Reply {
    PromptOnce(AfterCalls(s, n)).0
  }

  /** `dead` dead links, the held one first, are ahead of a helper that answers. */
  ghost predicate DeadAhead(s: Links, dead: nat, decision: Decision) {
    if s.held.Some? then s.held.value.Dead() && dead > 0 && DeadInBacklog(s.backlog, dead - 1, decision)
    else DeadInBacklog(s.backlog, dead, decision)
  }

  ghost predicate DeadInBacklog(backlog: seq<Arrival>, dead: nat, decision: Decision) {
    && |backlog| > dead
    && (forall i :: 0 <= i < dead ==> backlog[i].Connection? && backlog[i].peer.Dead())
    && backlog[dead].Connection? && backlog[dead].peer.First() == Answer(decision)
  }

  lemma TwoDeadPerCall(s: Links, dead: nat, decision: Decision)
    requires DeadAhead(s, dead, decision) && dead >= 2
    ensures PromptOnce(s).0.Fail? && IsDisconnect(PromptOnce(s).0.kind)
    ensures DeadAhead(PromptOnce(s).1, dead - 2, decision)
  {
    var used := if s.held.Some? then 1 else 2;
    assert PromptOnce(s).1.backlog == s.backlog[used..];
  }

  lemma AtMostOneDeadAnswers(s: Links, dead: nat, decision: Decision)
    requires DeadAhead(s, dead, decision) && dead < 2
    ensures PromptOnce(s).0 == Answer(decision)
  {
    if s.held.None? && dead == 1 {
      assert s.backlog[1..][0] == s.backlog[1];
    }
  }

  /** With `dead` dead links ahead of a helper that answers, exactly half of that
  many calls, rounded down, fail, and the next one returns the answer. */
  lemma {:induction false} RecoveryBound(s: Links, dead: nat, decision: Decision)
    requires DeadAhead(s, dead, decision)
    ensures forall n :: 0 <= n < dead / 2 ==> CallResult(s, n).Fail? && IsDisconnect(CallResult(s, n).kind)
    ensures CallResult(s, dead / 2) == Answer(decision)
    decreases dead
  {
    if dead >= 2 {
      TwoDeadPerCall(s, dead, decision);
      var s' := PromptOnce(s).1;
      RecoveryBound(s', dead - 2, decision);
      assert forall n :: 0 < n ==> CallResult(s, n) == CallResult(s', n - 1);
    } else {
      AtMostOneDeadAnswers(s, dead, decision);
    }
  }
}
