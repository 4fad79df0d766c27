/** What a Paxos node answers to each message, and where the values it holds come
    from. */
module PaxosAnswers {
  import opened Core
  import opened Quorums
  import opened Ballots
  import opened PaxosNodes
  import opened PaxosSafety

  // -------------------------------------------------------------- one event

  /** A ballot the node has not promised to stay above. */
  predicate Open(n: Node, b: Ballot) {
    n.promised.None? || AtMost(n.promised.value, b)
  }

  lemma OpenIsNotAbove(n: Node, b: Ballot)
    ensures Open(n, b) <==> !PromisedAbove(n, b)
  {
    if n.promised.Some? {
      BallotsOrdered(b, n.promised.value);
    }
  }

  /** A Prepare is answered, with everything accepted, exactly when its ballot is
      at least the promised one; it is then promised, and nothing else changes. */
  lemma PrepareAnswer(n: Node, p: Packet)
    requires p.message.Prepare?
    ensures var s, b := StepNode(n, Delivered(p)), p.message.ballot;
            && s.node == n.(promised := if Open(n, b) then Some(b) else n.promised)
            && (!Open(n, b) ==> s.reply == Ok([]))
            && (Open(n, b) ==> s.reply == Ok([Outbound(p.from, Promise(b, AllListed(n.accepted)))]))
  {
    hide AllListed;
    OpenIsNotAbove(n, p.message.ballot);
  }

  /** An Accept is taken under the same condition: the value is stored in its
      slot under the ballot, which is promised, and its proposer is told. */
  lemma AcceptAnswer(n: Node, p: Packet)
    requires p.message.Accept?
    ensures var s, b, v := StepNode(n, Delivered(p)), p.message.ballot, p.message.value;
            && (!Open(n, b) ==> s == Stepped(n, Ok([])))
            && (Open(n, b) ==>
                  && s.reply == Ok([Outbound(b.proposer, Accepted(b, n.id, v))])
                  && s.node == n.(promised := Some(b), accepted := s.node.accepted)
                  && s.node.accepted.Keys == n.accepted.Keys + {v.slot as nat}
                  && s.node.accepted[v.slot] == Proposal(b, v)
                  && forall slot <- n.accepted :: slot != v.slot ==> s.node.accepted[slot] == n.accepted[slot])
  {
    OpenIsNotAbove(n, p.message.ballot);
  }

  /** A Decision is learnt whatever was promised: its value takes its slot, and
      nothing else changes or is said. */
  lemma DecisionAnswer(n: Node, p: Packet)
    requires p.message.Decision?
    ensures var s, b, v := StepNode(n, Delivered(p)), p.message.ballot, p.message.value;
            && s.reply == Ok([]) && s.node == n.(accepted := s.node.accepted)
            && s.node.accepted.Keys == n.accepted.Keys + {v.slot as nat}
            && s.node.accepted[v.slot] == Proposal(b, v)
            && forall slot <- n.accepted :: slot != v.slot ==> s.node.accepted[slot] == n.accepted[slot]
  {
  }

  /** A Promise counts for the current ballot only: its sender joins the promises,
      and every slot keeps the highest proposal. */
  lemma PromiseAnswer(n: Node, p: Packet, slot: nat)
    requires p.message.Promise? && Slotted(n.accepted)
    ensures var s, m := StepNode(n, Delivered(p)), p.message;
            && s.reply == Ok([])
            && (m.ballot != n.ballot ==> s.node == n)
            && (m.ballot == n.ballot ==>
                  && s.node == n.(promises := n.promises + {p.from}, accepted := s.node.accepted)
                  && (slot in s.node.accepted <==> slot in n.accepted || exists x <- m.accepted :: x.value.slot == slot)
                  && (slot in s.node.accepted ==>
                        (slot in n.accepted && s.node.accepted[slot] == n.accepted[slot])
                        || s.node.accepted[slot] in m.accepted)
                  && (slot in n.accepted ==> AtMost(n.accepted[slot].ballot, s.node.accepted[slot].ballot))
                  && (forall x <- m.accepted :: x.value.slot == slot ==>
                        AtMost(x.ballot, s.node.accepted[slot].ballot)))
  {
    hide MergeAll;
    MergeKeepsHighest(n.accepted, p.message.accepted, slot);
  }

  /** Every member, and nobody else, is sent the message. */
  ghost predicate SentToAll(n: Node, packets: seq<Outbound>, m: Message) {
    forall p :: p in packets <==> p.to in n.members && p.message == m
  }

  /** An Accepted counts for the current ballot only: the acceptor joins the votes
      of the slot, no other slot changes, and the Decision goes to every member
      exactly when they are a majority. */
  lemma AcceptedAnswer(n: Node, p: Packet)
    requires p.message.Accepted?
    ensures var s, m := StepNode(n, Delivered(p)), p.message;
            var slot := m.value.slot as nat;
            && s.reply.Ok?
            && (m.ballot != n.ballot ==> s == Stepped(n, Ok([])))
            && (m.ballot == n.ballot ==>
                  && s.node == n.(acceptedVotes := s.node.acceptedVotes)
                  && s.node.acceptedVotes.Keys == n.acceptedVotes.Keys + {slot}
                  && s.node.acceptedVotes[slot]
                     == (if slot in n.acceptedVotes then n.acceptedVotes[slot] else {}) + {m.acceptor}
                  && (forall other <- n.acceptedVotes :: other != slot ==>
                        s.node.acceptedVotes[other] == n.acceptedVotes[other])
                  && (|s.node.acceptedVotes[slot]| < Majority(n.members) ==> s.reply.value == [])
                  && (|s.node.acceptedVotes[slot]| >= Majority(n.members) ==>
                        SentToAll(n, s.reply.value, Decision(m.ballot, m.value))))
  {
    hide ToAll;
  }

  /** Starting a round: the next ballot of the same proposer, its own promise
      only, and a Prepare to every other member; an exhausted counter changes
      nothing. */
  lemma StartAnswer(n: Node, who: NodeId)
    ensures var s := StepNode(n, Started(who));
            && (s.reply.Err? <==> n.ballot.round == U64_MAX)
            && (s.reply.Err? ==> s == Stepped(n, Err(BallotOverflow)))
            && (s.reply.Ok? ==>
                  && s.node == n.(ballot := Ballot(n.ballot.round + 1, n.ballot.proposer), promises := {n.id})
                  && forall p :: p in s.reply.value <==>
                       p.to in n.members && p.to != n.id && p.message == Prepare(s.node.ballot))
  {
    hide ToOthers;
  }

  /** Proposing: slot 0 and a missing majority are refused, in that order;
      otherwise every member is asked under the current ballot.  The proposer's
      state never changes. */
  lemma ProposeAnswer(n: Node, v: Value, who: NodeId)
    ensures var s := StepNode(n, Proposed(who, v));
            && s.node == n
            && (s.reply == Err(InvalidSlot) <==> v.slot == 0)
            && (s.reply == Err(NotProposer) <==> v.slot != 0 && |n.promises| < Majority(n.members))
            && (s.reply.Ok? <==> v.slot != 0 && |n.promises| >= Majority(n.members))
            && (s.reply.Ok? ==> SentToAll(n, s.reply.value, Accept(n.ballot, v)))
  {
    hide ToAll;
  }

  /** Restoring: only slot 0 is refused; the slot takes the proposal when it is
      empty or holds a lower ballot, and nothing else changes. */
  lemma RestoreAnswer(n: Node, x: Proposal, who: NodeId)
    ensures var s := StepNode(n, RestoredAccepted(who, x));
            var slot := x.value.slot as nat;
            && (s.reply == Err(InvalidSlot) <==> slot == 0) && (slot == 0 ==> s.node == n)
            && (slot != 0 ==>
                  && s.reply == Ok([]) && s.node == n.(accepted := s.node.accepted)
                  && s.node.accepted.Keys == n.accepted.Keys + {slot}
                  && s.node.accepted[slot]
                     == (if slot in n.accepted && AtMost(x.ballot, n.accepted[slot].ballot)
                         then n.accepted[slot] else x)
                  && forall other <- n.accepted :: other != slot ==> s.node.accepted[other] == n.accepted[other])
  {
    if x.value.slot as nat in n.accepted {
      BallotsOrdered(n.accepted[x.value.slot].ballot, x.ballot);
    }
  }

  // ------------------------------------------------------------------- runs

  /** The proposal was restored at some node, or its value given to its ballot's
      proposer, in this run. */
  ghost predicate HasSource(events: seq<Event>, x: Proposal) {
    Proposed(x.ballot.proposer, x.value) in events || exists node :: RestoredAccepted(node, x) in events
  }

  ghost predicate AllSourced(members: set<NodeId>, events: seq<Event>) {
    var c := Run(members, events);
    && (forall i, slot | i in c.nodes && slot in c.nodes[i].accepted :: HasSource(events, c.nodes[i].accepted[slot]))
    && (forall p, x | p in c.packets && p.message.Promise? && x in p.message.accepted :: HasSource(events, x))
  }

  lemma SourcesStay(before: seq<Event>, e: Event, x: Proposal)
    requires HasSource(before, x)
    ensures HasSource(before + [e], x)
  {
    if node :| RestoredAccepted(node, x) in before {
      assert RestoredAccepted(node, x) in before + [e];
    }
  }

  /** Where a node's accepted proposals come from, one event at a time. */
  lemma NextAccepted(n: Node, e: Event, slot: nat)
    requires slot in StepNode(n, e).node.accepted && Slotted(n.accepted)
    ensures var x := StepNode(n, e).node.accepted[slot];
            || (slot in n.accepted && x == n.accepted[slot])
            || (e.RestoredAccepted? && x == e.proposal)
            || (e.Delivered? && e.packet.message.Promise? && x in e.packet.message.accepted)
            || (e.Delivered? && (e.packet.message.Accept? || e.packet.message.Decision?)
                && x == Proposal(e.packet.message.ballot, e.packet.message.value))
  {
    if e.Delivered? && e.packet.message.Promise? {
      PromiseAnswer(n, e.packet, slot);
    }
  }

  lemma NextReported(n: Node, e: Event, o: Outbound, x: Proposal)
    requires StepNode(n, e).reply.Ok? && o in StepNode(n, e).reply.value && o.message.Promise?
    requires x in o.message.accepted && Slotted(n.accepted)
    ensures x.value.slot in n.accepted && n.accepted[x.value.slot] == x
  {
    hide Listed;
    ListedIsExact(n.accepted, U64_MAX + 1, x);
  }

  /** Every value a node holds as accepted, or reports in a Promise, was restored
      from storage at some node or proposed under its ballot. */
  lemma {:induction false} AcceptedHasSource(members: set<NodeId>, events: seq<Event>)
    ensures AllSourced(members, events)
  {
    hide StepNode;
    if events != [] {
      var before, e := events[..|events| - 1], events[|events| - 1];
      var c, c' := Run(members, before), Run(members, events);
      assert events == before + [e];
      AcceptedHasSource(members, before);
      RunInv(members, before);
      forall i, slot | i in c'.nodes && slot in c'.nodes[i].accepted
        ensures HasSource(events, c'.nodes[i].accepted[slot])
      {
        NodeSourced(members, before, e, i, slot);
      }
      forall p, x | p in c'.packets && p.message.Promise? && x in p.message.accepted ensures HasSource(events, x) {
        PacketSourced(members, before, e, p, x);
      }
    }
  }

  lemma NodeSourced(members: set<NodeId>, before: seq<Event>, e: Event, i: NodeId, slot: nat)
    requires AllSourced(members, before) && Inv(members, Run(members, before))
    requires i in Next(Run(members, before), e).nodes && slot in Next(Run(members, before), e).nodes[i].accepted
    ensures HasSource(before + [e], Next(Run(members, before), e).nodes[i].accepted[slot])
  {
    hide StepNode, Run, HasSource;
    var c := Run(members, before);
    var x := Next(c, e).nodes[i].accepted[slot];
    if i in c.nodes && slot in c.nodes[i].accepted && x == c.nodes[i].accepted[slot] {
      SourcesStay(before, e, x);
    } else {
      assert GoodNode(c.nodes[i], members, c.packets);
      NextAccepted(c.nodes[i], e, slot);
      if e.RestoredAccepted? {
        RestoredSource(before, e, x);
      } else if e.packet.message.Promise? {
        SourcesStay(before, e, x);
      } else {
        AskedSource(members, before, e.packet, x);
        SourcesStay(before, e, x);
      }
    }
  }

  lemma RestoredSource(before: seq<Event>, e: Event, x: Proposal)
    requires e.RestoredAccepted? && x == e.proposal
    ensures HasSource(before + [e], x)
  {
    assert RestoredAccepted(e.node, x) in before + [e];
  }

  lemma AskedSource(members: set<NodeId>, events: seq<Event>, p: Packet, x: Proposal)
    requires p in Run(members, events).packets && (p.message.Accept? || p.message.Decision?)
    requires x == Proposal(p.message.ballot, p.message.value)
    ensures HasSource(events, x)
  {
    hide Run;
    RunInv(members, events);
    var c := Run(members, events);
    assert GoodPacket(p, members, c.nodes, c.packets);
    if p.message.Accept? {
      AcceptWasProposed(members, events, p);
    } else {
      OnlyProposedDecided(members, events, p);
    }
  }

  lemma PacketSourced(members: set<NodeId>, before: seq<Event>, e: Event, p: Packet, x: Proposal)
    requires AllSourced(members, before) && Inv(members, Run(members, before))
    requires p in Next(Run(members, before), e).packets && p.message.Promise? && x in p.message.accepted
    ensures HasSource(before + [e], x)
  {
    hide StepNode, Run, HasSource;
    var c := Run(members, before);
    if p !in c.packets {
      SentEnabled(c, e, p);
      assert GoodNode(c.nodes[Target(e)], members, c.packets);
      NextReported(c.nodes[Target(e)], e, Outbound(p.to, p.message), x);
    }
    SourcesStay(before, e, x);
  }

  /** A node needs a membership with itself in it, and starts in round 0 of its
      own name with nothing promised, accepted or counted. */
  lemma ConstructionAnswers(id: NodeId, members: set<NodeId>)
    ensures id !in members <==> NewNode(id, members) == Err(InvalidMembership)
    ensures id in members ==> NewNode(id, members) == Ok(Node(id, members, Ballot(0, id), None, map[], {}, map[]))
  {
  }
}
