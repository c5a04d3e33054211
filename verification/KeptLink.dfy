/** Why a reply may be the answer to an older question: after a read timeout the
daemon keeps the link, and the helper's late response stays in the stream. */
module KeptLink {

  /** A reply that was read: the exchange that read it, the exchange whose request it
  answers, and how many exchanges on this link had timed out before. */
  datatype Reply = Reply(exchange: nat, answers: nat, timeouts: nat)

  /** One link.  The helper answers every request once, in order; `stream` holds the
  responses, by request, that the daemon has not read. */
  datatype Link = Link(asked: nat, answered: nat, stream: seq<nat>, waiting: bool, timeouts: nat, replies: seq<Reply>)

  const CONNECTED := Link(0, 0, [], false, 0, [])

  datatype Step = Ask | Respond | ReadReply | TimeOut

  predicate Enabled(l: Link, step: Step) {
    match step
    case Ask => !l.waiting
    case Respond => l.answered < l.asked
    case ReadReply => l.waiting && l.stream != []
    case TimeOut => l.waiting && l.stream == []
  }

  function Apply(l: Link, step: Step): Link
    requires Enabled(l, step)
  {
    match step
    case Ask => l.(asked := l.asked + 1, waiting := true)
    case Respond => l.(answered := l.answered + 1, stream := l.stream + [l.answered])
    case ReadReply =>
      Link(l.asked, l.answered, l.stream[1..], false, l.timeouts,
           l.replies + [Reply(if l.asked > 0 then l.asked - 1 else 0, l.stream[0], l.timeouts)])
    case TimeOut => l.(waiting := false, timeouts := l.timeouts + 1)
  }

  predicate Valid(l: Link, steps: seq<Step>)
    decreases |steps|
  {
    steps == [] || (Enabled(l, steps[0]) && Valid(Apply(l, steps[0]), steps[1..]))
  }

  function Final(l: Link, steps: seq<Step>): Link
    requires Valid(l, steps)
    decreases |steps|
  {
    if steps == [] then l else Final(Apply(l, steps[0]), steps[1..])
  }

  /** The unread responses are the latest ones, and every exchange was read or timed out. */
  ghost predicate Counted(l: Link) {
    && |l.replies| + |l.stream| == l.answered <= l.asked
    && (forall i :: 0 <= i < |l.stream| ==> l.stream[i] == |l.replies| + i)
    && l.asked == |l.replies| + l.timeouts + (if l.waiting then 1 else 0)
    && (forall i :: 0 <= i < |l.replies| ==>
          && l.replies[i].answers == i
          && l.replies[i].exchange == i + l.replies[i].timeouts)
  }

  lemma {:induction false} RunKeepsCount(l: Link, steps: seq<Step>)
    requires Counted(l) && Valid(l, steps)
    ensures Counted(Final(l, steps))
    decreases |steps|
  {
    if steps != [] {
      RunKeepsCount(Apply(l, steps[0]), steps[1..]);
    }
  }

  /** Main theorem: a reply answers the exchange that reads it exactly if no earlier
  exchange on the link timed out; each timeout puts all later replies one behind. */
  lemma OwnReplyIff(steps: seq<Step>, i: nat)
    requires Valid(CONNECTED, steps) && i < |Final(CONNECTED, steps).replies|
    ensures var r := Final(CONNECTED, steps).replies[i];
            && r.answers + r.timeouts == r.exchange
            && (r.answers == r.exchange <==> r.timeouts == 0)
  {
    RunKeepsCount(CONNECTED, steps);
  }

  /** The answer to the first question, given late, is read as the answer to the second. */
  lemma LateReply(steps: seq<Step>)
    requires steps == [Ask, TimeOut, Respond, Ask, ReadReply]
    ensures Valid(CONNECTED, steps) && Final(CONNECTED, steps).replies == [Reply(1, 0, 1)]
  {
    var l1 := Link(1, 0, [], true, 0, []);
    var l2 := Link(1, 0, [], false, 1, []);
    var l3 := Link(1, 1, [0], false, 1, []);
    var l4 := Link(2, 1, [0], true, 1, []);
    assert Apply(CONNECTED, Ask) == l1 && Apply(l1, TimeOut) == l2 && Apply(l2, Respond) == l3 && Apply(l3, Ask) == l4;
    assert [ReadReply][1..] == [] && [Ask, ReadReply][1..] == [ReadReply];
    assert Valid(l4, [ReadReply]) && Final(l4, [ReadReply]) == Apply(l4, ReadReply);
    assert Valid(l3, [Ask, ReadReply]);
    assert [Respond, Ask, ReadReply][1..] == [Ask, ReadReply];
    assert Valid(l2, [Respond, Ask, ReadReply]);
    assert [TimeOut, Respond, Ask, ReadReply][1..] == [Respond, Ask, ReadReply];
    assert Valid(l1, [TimeOut, Respond, Ask, ReadReply]);
    assert steps[1..] == [TimeOut, Respond, Ask, ReadReply];
  }
}
