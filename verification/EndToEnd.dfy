/** From a click to the daemon: the helper's protocol and the daemon's link together. */
module EndToEnd {
  import opened Wrappers
  import opened UiServer
  import K = KeptLink
  import opened PromptProtocol
  import opened PromptRuns

  /** The responses on the daemon's link are those that the helper has written. */
  ghost predicate SameWire(link: K.Link, helper: State) {
    link.answered <= |helper.responses|
  }

  /** Main theorem: over every run of the helper and every use of the link, the i-th
  reply that the daemon reads, in the exchange for event e, is the backstop's denial,
  or the decision made on request e minus the timeouts before it on the link, minus
  the prompts left over when that response's drain ended. */
  lemma OriginOfReply(linkSteps: seq<K.Step>, steps: seq<Step>, i: nat)
    requires K.Valid(K.CONNECTED, linkSteps) && Valid(START, steps)
    requires i < |K.Final(K.CONNECTED, linkSteps).replies|
    requires SameWire(K.Final(K.CONNECTED, linkSteps), Final(START, steps))
    ensures var reply, s := K.Final(K.CONNECTED, linkSteps).replies[i], Final(START, steps);
            && reply.answers < |s.responses| && reply.answers < |Drains(START, steps)|
            && match s.responses[reply.answers].source
               case None => s.responses[reply.answers].decision == DenyOnce
               case Some(j) =>
                 && j == reply.exchange - reply.timeouts - Drains(START, steps)[reply.answers]
                 && j < |s.gui.resolutions| && s.gui.resolutions[j].req == j
                 && s.gui.resolutions[j].decision == s.responses[reply.answers].decision
  {
    K.RunKeepsCount(K.CONNECTED, linkSteps);
    AnswersOldestPrompt(steps, K.Final(K.CONNECTED, linkSteps).replies[i].answers);
  }

  /** So a decision read for an event is the one made while the prompt for that very
  event was pending iff no exchange on the link timed out before and the drain of
  its response left nothing over; and unless it is a one-time denial, it is then what
  the user clicked on that prompt. */
  lemma OwnDecisionIff(linkSteps: seq<K.Step>, steps: seq<Step>, i: nat)
    requires K.Valid(K.CONNECTED, linkSteps) && Valid(START, steps)
    requires i < |K.Final(K.CONNECTED, linkSteps).replies|
    requires SameWire(K.Final(K.CONNECTED, linkSteps), Final(START, steps))
    ensures var reply, s := K.Final(K.CONNECTED, linkSteps).replies[i], Final(START, steps);
            && reply.answers < |s.responses| && reply.answers < |Drains(START, steps)|
            && var own := reply.timeouts == 0 && Drains(START, steps)[reply.answers] == 0;
               var r := s.responses[reply.answers];
               && (r.source.Some? ==> (r.source.value == reply.exchange <==> own))
               && (own && r.decision != DenyOnce ==> exists n :: ClickedAt(steps, n, reply.exchange, r.decision))
  {
    OriginOfReply(linkSteps, steps, i);
    AllowsAreClicks(steps, K.Final(K.CONNECTED, linkSteps).replies[i].answers);
  }
}
