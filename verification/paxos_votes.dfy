/** What a Decision's majority has accepted.  Votes are counted per slot, so the
    voters need not have accepted the ballot and value decided; this module says
    when they have. */
module PaxosVotes {
  import opened Core
  import opened Quorums
  import opened Ballots
  import opened Names
  import opened PaxosNodes
  import opened PaxosSafety

  /** m has told b's proposer that it accepted exactly v under b. */
  ghost predicate VotedExactly(packets: set<Packet>, m: NodeId, b: Ballot, v: Value) {
    exists p | p in packets :: p.from == m && p.to == b.proposer && p.message == Accepted(b, m, v)
  }

  ghost function ExactVoters(members: set<NodeId>, packets: set<Packet>, b: Ballot, v: Value): set<NodeId> {
    set m | m in members && VotedExactly(packets, m, b, v)
  }

  /** Up to ballot b, its proposer has asked for no ballot and value of the slot
      outside these. */
  ghost predicate AsksWithin(packets: set<Packet>, b: Ballot, slot: nat, asked: set<(Ballot, Value)>) {
    forall q | q in packets && q.from == b.proposer && q.message.Accept?
               && q.message.value.slot == slot && q.message.ballot.round <= b.round ::
      (q.message.ballot, q.message.value) in asked
  }

  ghost predicate Decided(packets: set<Packet>, b: Ballot, v: Value) {
    exists p | p in packets :: p.from == b.proposer && p.message == Decision(b, v)
  }

  /** A proposer that up to a round has asked for one ballot and value only, for
      a slot, decides it on a majority that accepted exactly these, whatever it
      asks for later. */
  lemma SingleAskExact(members: set<NodeId>, events: seq<Event>, b: Ballot, v: Value)
    requires Decided(Run(members, events).packets, b, v)
    requires AsksWithin(Run(members, events).packets, b, v.slot, {(b, v)})
    ensures |ExactVoters(members, Run(members, events).packets, b, v)| >= Majority(members)
  {
    hide Run, GoodNode, Backers;
    var c := Run(members, events);
    RunInv(members, events);
    var p :| p in c.packets && p.from == b.proposer && p.message == Decision(b, v);
    DecisionHasVoters(members, events, p);
    var voters := Voters(members, c.packets, b, v.slot);
    forall m | m in voters ensures m in ExactVoters(members, c.packets, b, v) {
      var q :| q in c.packets && q.from == m && q.to == b.proposer && q.message.Accepted?
               && q.message.value.slot == v.slot && q.message.ballot.proposer == b.proposer
               && q.message.ballot.round <= b.round;
      assert GoodPacket(q, members, c.nodes, c.packets);
      var r :| r in c.packets && r.from == b.proposer && r.message == Accept(q.message.ballot, q.message.value);
      assert (r.message.ballot, r.message.value) in {(b, v)};
    }
    SubsetCardinality(voters, ExactVoters(members, c.packets, b, v));
  }

  /** Some member has accepted exactly what is decided: the one whose vote was
      counted last. */
  lemma {:induction false} DecisionHasExactVoter(members: set<NodeId>, events: seq<Event>, p: Packet)
    returns (m: NodeId)
    requires p in Run(members, events).packets && p.message.Decision?
    ensures p.message.ballot.proposer == p.from
    ensures m in ExactVoters(members, Run(members, events).packets, p.message.ballot, p.message.value)
  {
    hide StepNode, GoodNode, Backers, Voters;
    RunInv(members, events);
    var c := Run(members, events);
    assert GoodPacket(p, members, c.nodes, c.packets);
    var before, e := events[..|events| - 1], events[|events| - 1];
    var c0 := Run(members, before);
    if p in c0.packets {
      m := DecisionHasExactVoter(members, before, p);
    } else {
      DecidedOn(c0, e, p);
      RunInv(members, before);
      assert GoodPacket(e.packet, members, c0.nodes, c0.packets);
      m := e.packet.from;
      assert VotedExactly(c.packets, m, p.message.ballot, p.message.value);
    }
  }

  lemma DecidedOn(c: Cluster, e: Event, p: Packet)
    requires p in Sent(c, e) && p.message.Decision?
    ensures e.Delivered? && e.packet in c.packets && e.packet.message.Accepted?
    ensures e.packet.message.ballot == p.message.ballot && e.packet.message.value == p.message.value
  {
  }

  // ---------------------------------------------------- building a run

  /** Every Accept and every Accepted in the network is listed. */
  ghost predicate Ledger(packets: set<Packet>, asked: set<(Ballot, Value)>, given: set<(NodeId, Ballot, Value)>) {
    && (forall q | q in packets && q.message.Accept? :: (q.message.ballot, q.message.value) in asked)
    && (forall q | q in packets && q.message.Accepted? :: (q.from, q.message.ballot, q.message.value) in given)
  }

  /** Proposer a is in the middle of ballot b, with at least these promises and
      these votes for a slot; nobody has promised anything but ballots of a up to
      b, and the ledger holds. */
  ghost predicate Stage(members: set<NodeId>, c: Cluster, b: Ballot, promises: set<NodeId>, slot: nat,
                        votes: set<NodeId>, asked: set<(Ballot, Value)>, given: set<(NodeId, Ballot, Value)>) {
    && c.nodes.Keys == members && b.proposer in members
    && (forall m | m in members ::
          c.nodes[m].id == m && c.nodes[m].members == members && PromisedWithin(c.nodes[m], b))
    && c.nodes[b.proposer].ballot == b && promises <= c.nodes[b.proposer].promises
    && votes <= VotesOf(c.nodes[b.proposer], slot)
    && Ledger(c.packets, asked, given)
    && (b.round > 0 ==> forall m | m in members && m != b.proposer :: Packet(b.proposer, m, Prepare(b)) in c.packets)
  }

  predicate PromisedWithin(n: Node, b: Ballot) {
    n.promised.None? || (n.promised.value.proposer == b.proposer && n.promised.value.round <= b.round)
  }

  function VotesOf(n: Node, slot: nat): set<NodeId> {
    if slot in n.acceptedVotes then n.acceptedVotes[slot] else {}
  }

  lemma NotAbove(n: Node, b: Ballot)
    requires PromisedWithin(n, b)
    ensures !PromisedAbove(n, b)
  {
    NamesOrdered(b.proposer, b.proposer);
  }

  /** What an event adds to the ledger. */
  ghost predicate Listed(c: Cluster, e: Event, asked: set<(Ballot, Value)>, given: set<(NodeId, Ballot, Value)>) {
    && (e.Proposed? && e.node in c.nodes ==> (c.nodes[e.node].ballot, e.value) in asked)
    && (e.Delivered? && e.packet.message.Accept? ==>
          (e.packet.to, e.packet.message.ballot, e.packet.message.value) in given)
  }

  lemma SentLedger(c: Cluster, e: Event, asked: set<(Ballot, Value)>, given: set<(NodeId, Ballot, Value)>)
    requires Listed(c, e, asked, given)
    ensures Ledger(Sent(c, e), asked, given)
  {
  }

  /** One event appended to a run. */
  lemma Advance(members: set<NodeId>, events: seq<Event>, e: Event, asked: set<(Ballot, Value)>,
                given: set<(NodeId, Ballot, Value)>)
    requires Enabled(Run(members, events), e) && Ledger(Run(members, events).packets, asked, given)
    requires Listed(Run(members, events), e, asked, given)
    ensures var c, c' := Run(members, events), Run(members, events + [e]);
            && c'.nodes == c.nodes[Target(e) := StepNode(c.nodes[Target(e)], e).node]
            && c'.packets == c.packets + Sent(c, e)
            && Ledger(c'.packets, asked, given)
  {
    hide StepNode, Sent, Listed;
    assert (events + [e])[..|events|] == events;
    SentLedger(Run(members, events), e, asked, given);
  }

  /** A change to a node that a stage survives: nothing but a promise of the
      stage's ballot. */
  predicate Mild(n: Node, n': Node, b: Ballot) {
    n'.id == n.id && n'.members == n.members && n'.ballot == n.ballot
    && (n'.promised == n.promised || n'.promised == Some(b))
  }

  lemma StageKept(members: set<NodeId>, c: Cluster, c': Cluster, b: Ballot, promises: set<NodeId>,
                  promises': set<NodeId>, slot: nat, votes: set<NodeId>, votes': set<NodeId>,
                  asked: set<(Ballot, Value)>, given: set<(NodeId, Ballot, Value)>)
    requires Stage(members, c, b, promises, slot, votes, asked, given)
    requires c'.nodes.Keys == members && c.packets <= c'.packets && Ledger(c'.packets, asked, given)
    requires forall i | i in members :: Mild(c.nodes[i], c'.nodes[i], b)
    requires promises' <= c'.nodes[b.proposer].promises && votes' <= VotesOf(c'.nodes[b.proposer], slot)
    ensures Stage(members, c', b, promises', slot, votes', asked, given)
  {
    hide VotesOf, Ledger;
  }

  lemma SentHas(c: Cluster, e: Event, o: Outbound)
    requires Enabled(c, e)
    requires var reply := StepNode(c.nodes[Target(e)], e).reply; reply.Ok? && o in reply.value
    ensures Packet(Target(e), o.to, o.message) in Sent(c, e)
  {
    hide StepNode;
  }

  lemma StartStage(members: set<NodeId>, a: NodeId, slot: nat, asked: set<(Ballot, Value)>,
                   given: set<(NodeId, Ballot, Value)>)
    requires a in members
    ensures Stage(members, Run(members, []), Ballot(0, a), {}, slot, {}, asked, given)
  {
  }

  function Rounds(a: NodeId, k: nat): seq<Event> {
    if k == 0 then [] else Rounds(a, k - 1) + [Started(a)]
  }

  lemma NextRound(members: set<NodeId>, events: seq<Event>, b: Ballot, promises: set<NodeId>, slot: nat,
                  votes: set<NodeId>, asked: set<(Ballot, Value)>, given: set<(NodeId, Ballot, Value)>)
    requires Stage(members, Run(members, events), b, promises, slot, votes, asked, given) && b.round < U64_MAX
    ensures Stage(members, Run(members, events + [Started(b.proposer)]), b.(round := b.round + 1),
                  {b.proposer}, slot, votes, asked, given)
  {
    hide Run, Ledger, Sent, VotesOf, ToOthers;
    var c, e, b' := Run(members, events), Started(b.proposer), b.(round := b.round + 1);
    Advance(members, events, e, asked, given);
    forall m | m in members && m != b.proposer ensures Packet(b.proposer, m, Prepare(b')) in Sent(c, e) {
      assert Outbound(m, Prepare(b')) in StepStartRound(c.nodes[b.proposer]).reply.value;
      SentHas(c, e, Outbound(m, Prepare(b')));
    }
    RoundStage(members, c, Run(members, events + [e]), b, promises, slot, votes, asked, given);
  }

  lemma RoundStage(members: set<NodeId>, c: Cluster, c': Cluster, b: Ballot, promises: set<NodeId>, slot: nat,
                   votes: set<NodeId>, asked: set<(Ballot, Value)>, given: set<(NodeId, Ballot, Value)>)
    requires Stage(members, c, b, promises, slot, votes, asked, given) && Ledger(c'.packets, asked, given)
    requires var b' := b.(round := b.round + 1);
             && c'.nodes == c.nodes[b.proposer := c.nodes[b.proposer].(ballot := b', promises := {b.proposer})]
             && forall m | m in members && m != b.proposer :: Packet(b.proposer, m, Prepare(b')) in c'.packets
    ensures Stage(members, c', b.(round := b.round + 1), {b.proposer}, slot, votes, asked, given)
  {
    hide Ledger;
  }

  /** Starting k rounds in a row. */
  lemma {:induction false} StartRounds(members: set<NodeId>, events: seq<Event>, b: Ballot, promises: set<NodeId>,
                                       slot: nat, votes: set<NodeId>, k: nat, asked: set<(Ballot, Value)>,
                                       given: set<(NodeId, Ballot, Value)>)
    requires Stage(members, Run(members, events), b, promises, slot, votes, asked, given)
    requires k > 0 && b.round + k <= U64_MAX
    ensures Stage(members, Run(members, events + Rounds(b.proposer, k)), b.(round := b.round + k),
                  {b.proposer}, slot, votes, asked, given)
  {
    hide Run, Stage;
    var before := events + Rounds(b.proposer, k - 1);
    assert events + Rounds(b.proposer, k) == before + [Started(b.proposer)];
    if k == 1 {
      assert before == events;
      NextRound(members, events, b, promises, slot, votes, asked, given);
    } else {
      StartRounds(members, events, b, promises, slot, votes, k - 1, asked, given);
      NextRound(members, before, b.(round := b.round + k - 1), {b.proposer}, slot, votes, asked, given);
    }
  }

  /** One acceptor takes the Prepare. */
  lemma TakePrepare(members: set<NodeId>, events: seq<Event>, b: Ballot, promises: set<NodeId>, slot: nat,
                    votes: set<NodeId>, m: NodeId, asked: set<(Ballot, Value)>, given: set<(NodeId, Ballot, Value)>)
    returns (reported: seq<Proposal>)
    requires Stage(members, Run(members, events), b, promises, slot, votes, asked, given)
    requires m in members && m != b.proposer && b.round > 0
    ensures var c' := Run(members, events + [Delivered(Packet(b.proposer, m, Prepare(b)))]);
            && Stage(members, c', b, promises, slot, votes, asked, given)
            && Packet(m, b.proposer, Promise(b, reported)) in c'.packets
  {
    hide Run, Ledger, AllListed, VotesOf, Sent;
    var a, c := b.proposer, Run(members, events);
    var nm := c.nodes[m];
    var e := Delivered(Packet(a, m, Prepare(b)));
    reported := AllListed(nm.accepted);
    NotAbove(nm, b);
    Advance(members, events, e, asked, given);
    assert Outbound(a, Promise(b, reported)) in StepPrepare(nm, a, b).reply.value;
    SentHas(c, e, Outbound(a, Promise(b, reported)));
    StageKept(members, c, Run(members, events + [e]), b, promises, promises, slot, votes, votes, asked, given);
  }

  /** The proposer counts the promise. */
  lemma CountPromise(members: set<NodeId>, events: seq<Event>, b: Ballot, promises: set<NodeId>, slot: nat,
                     votes: set<NodeId>, m: NodeId, reported: seq<Proposal>,
                     asked: set<(Ballot, Value)>, given: set<(NodeId, Ballot, Value)>)
    requires Stage(members, Run(members, events), b, promises, slot, votes, asked, given)
    requires m in members && Packet(m, b.proposer, Promise(b, reported)) in Run(members, events).packets
    ensures Stage(members, Run(members, events + [Delivered(Packet(m, b.proposer, Promise(b, reported)))]),
                  b, promises + {m}, slot, votes, asked, given)
  {
    hide Run, Ledger, MergeAll, Sent;
    var c, e := Run(members, events), Delivered(Packet(m, b.proposer, Promise(b, reported)));
    Advance(members, events, e, asked, given);
    StageKept(members, c, Run(members, events + [e]), b, promises, promises + {m}, slot, votes, votes, asked, given);
  }

  /** One acceptor's promise: the Prepare is delivered, then the Promise. */
  lemma GetPromise(members: set<NodeId>, events: seq<Event>, b: Ballot, promises: set<NodeId>, slot: nat,
                   votes: set<NodeId>, m: NodeId, asked: set<(Ballot, Value)>, given: set<(NodeId, Ballot, Value)>)
    returns (more: seq<Event>)
    requires Stage(members, Run(members, events), b, promises, slot, votes, asked, given)
    requires m in members && m != b.proposer && b.round > 0
    ensures Stage(members, Run(members, events + more), b, promises + {m}, slot, votes, asked, given)
  {
    hide Run, Stage;
    var reported := TakePrepare(members, events, b, promises, slot, votes, m, asked, given);
    var e1, e2 := Delivered(Packet(b.proposer, m, Prepare(b))), Delivered(Packet(m, b.proposer, Promise(b, reported)));
    CountPromise(members, events + [e1], b, promises, slot, votes, m, reported, asked, given);
    more := [e1, e2];
    assert events + more == events + [e1] + [e2];
  }

  lemma {:induction false} GetPromises(members: set<NodeId>, events: seq<Event>, b: Ballot, promises: set<NodeId>,
                                       slot: nat, votes: set<NodeId>, quorum: set<NodeId>,
                                       asked: set<(Ballot, Value)>, given: set<(NodeId, Ballot, Value)>)
    returns (more: seq<Event>)
    requires Stage(members, Run(members, events), b, promises, slot, votes, asked, given)
    requires quorum <= members - {b.proposer} && b.round > 0
    ensures Stage(members, Run(members, events + more), b, promises + quorum, slot, votes, asked, given)
    decreases quorum
  {
    hide Run, Stage;
    if quorum == {} {
      more := [];
      assert events + more == events && promises + quorum == promises;
    } else {
      var m :| m in quorum;
      var first := GetPromise(members, events, b, promises, slot, votes, m, asked, given);
      var rest := GetPromises(members, events + first, b, promises + {m}, slot, votes, quorum - {m}, asked, given);
      more := first + rest;
      assert events + more == events + first + rest && promises + {m} + (quorum - {m}) == promises + quorum;
    }
  }

  /** The proposer asks for a value. */
  lemma Ask(members: set<NodeId>, events: seq<Event>, b: Ballot, promises: set<NodeId>, votes: set<NodeId>,
            v: Value, asked: set<(Ballot, Value)>, given: set<(NodeId, Ballot, Value)>)
    requires Stage(members, Run(members, events), b, promises, v.slot, votes, asked, given)
    requires |promises| >= Majority(members) && v.slot != 0 && (b, v) in asked
    ensures var c' := Run(members, events + [Proposed(b.proposer, v)]);
            && Stage(members, c', b, promises, v.slot, votes, asked, given)
            && forall m | m in members :: Packet(b.proposer, m, Accept(b, v)) in c'.packets
  {
    hide Run, Ledger, Sent, VotesOf, ToAll;
    var c, e := Run(members, events), Proposed(b.proposer, v);
    SubsetCardinality(promises, c.nodes[b.proposer].promises);
    Advance(members, events, e, asked, given);
    forall m | m in members ensures Packet(b.proposer, m, Accept(b, v)) in Sent(c, e) {
      assert Outbound(m, Accept(b, v)) in StepPropose(c.nodes[b.proposer], v).reply.value;
      SentHas(c, e, Outbound(m, Accept(b, v)));
    }
    StageKept(members, c, Run(members, events + [e]), b, promises, promises, v.slot, votes, votes, asked, given);
  }

  /** One acceptor takes the Accept. */
  lemma TakeAccept(members: set<NodeId>, events: seq<Event>, b: Ballot, promises: set<NodeId>, votes: set<NodeId>,
                   v: Value, m: NodeId, asked: set<(Ballot, Value)>, given: set<(NodeId, Ballot, Value)>)
    requires Stage(members, Run(members, events), b, promises, v.slot, votes, asked, given)
    requires m in members && Packet(b.proposer, m, Accept(b, v)) in Run(members, events).packets
    requires (m, b, v) in given
    ensures var c' := Run(members, events + [Delivered(Packet(b.proposer, m, Accept(b, v)))]);
            && Stage(members, c', b, promises, v.slot, votes, asked, given)
            && Run(members, events).packets <= c'.packets
            && Packet(m, b.proposer, Accepted(b, m, v)) in c'.packets
  {
    hide Run, Ledger, Sent;
    var c, e := Run(members, events), Delivered(Packet(b.proposer, m, Accept(b, v)));
    var nm := c.nodes[m];
    NotAbove(nm, b);
    Advance(members, events, e, asked, given);
    assert Outbound(b.proposer, Accepted(b, m, v)) in StepAccept(nm, b, v).reply.value;
    SentHas(c, e, Outbound(b.proposer, Accepted(b, m, v)));
    StageKept(members, c, Run(members, events + [e]), b, promises, promises, v.slot, votes, votes, asked, given);
  }

  /** What counting a vote changes at a node: the votes of the slot only. */
  lemma VoteCounted(n: Node, b: Ballot, v: Value, m: NodeId, slot: nat)
    requires n.ballot == b
    ensures var n' := StepAccepted(n, b, m, v).node;
            && n' == n.(acceptedVotes := n'.acceptedVotes)
            && VotesOf(n, slot) + (if slot == v.slot then {m} else {}) == VotesOf(n', slot)
  {
  }

  /** A vote that completes a majority is answered with the Decision. */
  lemma CountDecides(members: set<NodeId>, c: Cluster, b: Ballot, v: Value, m: NodeId, votes: set<NodeId>)
    requires b.proposer in members && b.proposer in c.nodes
    requires Packet(m, b.proposer, Accepted(b, m, v)) in c.packets
    requires var n := c.nodes[b.proposer];
             n.ballot == b && n.members == members && votes <= VotesOf(n, v.slot)
    requires |votes + {m}| >= Majority(members)
    ensures Decided(Sent(c, Delivered(Packet(m, b.proposer, Accepted(b, m, v)))), b, v)
  {
    var a, n := b.proposer, c.nodes[b.proposer];
    SubsetCardinality(votes + {m}, VotesOf(n, v.slot) + {m});
    assert Outbound(a, Decision(b, v)) in StepAccepted(n, b, m, v).reply.value;
    assert Packet(a, a, Decision(b, v)) in Sent(c, Delivered(Packet(m, a, Accepted(b, m, v))));
  }

  /** The proposer counts the vote, and decides if it completes a majority. */
  lemma CountVote(members: set<NodeId>, events: seq<Event>, b: Ballot, promises: set<NodeId>, votes: set<NodeId>,
                  v: Value, m: NodeId, asked: set<(Ballot, Value)>, given: set<(NodeId, Ballot, Value)>)
    requires Stage(members, Run(members, events), b, promises, v.slot, votes, asked, given)
    requires m in members && Packet(m, b.proposer, Accepted(b, m, v)) in Run(members, events).packets
    ensures var c' := Run(members, events + [Delivered(Packet(m, b.proposer, Accepted(b, m, v)))]);
            && Stage(members, c', b, promises, v.slot, votes + {m}, asked, given)
            && Run(members, events).packets <= c'.packets
            && (|votes + {m}| >= Majority(members) ==> Decided(c'.packets, b, v))
  {
    hide Run, Ledger, Sent, VotesOf, StepAccepted, PromisedWithin;
    var c, e := Run(members, events), Delivered(Packet(m, b.proposer, Accepted(b, m, v)));
    Advance(members, events, e, asked, given);
    VoteCounted(c.nodes[b.proposer], b, v, m, v.slot);
    StageKept(members, c, Run(members, events + [e]), b, promises, promises, v.slot, votes, votes + {m}, asked, given);
    if |votes + {m}| >= Majority(members) {
      CountDecides(members, c, b, v, m, votes);
    }
  }

  /** Votes for one ask, from each of a set of members. */
  lemma {:induction false} GetVotes(members: set<NodeId>, events: seq<Event>, b: Ballot, promises: set<NodeId>,
                                    votes: set<NodeId>, v: Value, voters: set<NodeId>,
                                    asked: set<(Ballot, Value)>, given: set<(NodeId, Ballot, Value)>)
    returns (more: seq<Event>)
    requires Stage(members, Run(members, events), b, promises, v.slot, votes, asked, given)
    requires voters <= members && voters != {} && forall m | m in voters :: (m, b, v) in given
    requires forall m | m in members :: Packet(b.proposer, m, Accept(b, v)) in Run(members, events).packets
    ensures var c' := Run(members, events + more);
            && Stage(members, c', b, promises, v.slot, votes + voters, asked, given)
            && (|votes + voters| >= Majority(members) ==> Decided(c'.packets, b, v))
    decreases voters
  {
    hide Run, Stage, Decided;
    var m :| m in voters;
    var e1, e2 := Delivered(Packet(b.proposer, m, Accept(b, v))), Delivered(Packet(m, b.proposer, Accepted(b, m, v)));
    TakeAccept(members, events, b, promises, votes, v, m, asked, given);
    CountVote(members, events + [e1], b, promises, votes, v, m, asked, given);
    var later := events + [e1] + [e2];
    if voters == {m} {
      more := [e1, e2];
      assert events + more == later;
    } else {
      assert voters - {m} != {};
      var rest := GetVotes(members, later, b, promises, votes + {m}, v, voters - {m}, asked, given);
      more := [e1, e2] + rest;
      assert events + more == later + rest && votes + {m} + (voters - {m}) == votes + voters;
    }
  }

  // -------------------------------------------------- votes for two asks

  function GivenBy(voters: set<NodeId>, b1: Ballot, v1: Value, b2: Ballot, v2: Value): set<(NodeId, Ballot, Value)> {
    (set m | m in voters :: (m, b1, v1)) + {(b2.proposer, b2, v2)}
  }

  /** The first ask: a quorum's promises and, short of one, its votes. */
  lemma FirstAsk(members: set<NodeId>, quorum: set<NodeId>, b1: Ballot, v1: Value,
                 asked: set<(Ballot, Value)>, given: set<(NodeId, Ballot, Value)>)
    returns (events: seq<Event>)
    requires b1.proposer in members && quorum <= members - {b1.proposer} && quorum != {}
    requires |{b1.proposer} + quorum| >= Majority(members)
    requires 1 <= b1.round <= U64_MAX && v1.slot != 0 && (b1, v1) in asked
    requires forall m | m in quorum :: (m, b1, v1) in given
    ensures Stage(members, Run(members, events), b1, {b1.proposer} + quorum, v1.slot, quorum, asked, given)
  {
    hide Run, Stage, Decided;
    var a := b1.proposer;
    StartStage(members, a, v1.slot, asked, given);
    StartRounds(members, [], Ballot(0, a), {}, v1.slot, {}, b1.round, asked, given);
    assert Ballot(0, a).(round := 0 + b1.round) == b1 && [] + Rounds(a, b1.round) == Rounds(a, b1.round);
    var promised := GetPromises(members, Rounds(a, b1.round), b1, {a}, v1.slot, {}, quorum, asked, given);
    var ready := Rounds(a, b1.round) + promised;
    Ask(members, ready, b1, {a} + quorum, {}, v1, asked, given);
    var more := GetVotes(members, ready + [Proposed(a, v1)], b1, {a} + quorum, {}, v1, quorum, asked, given);
    events := ready + [Proposed(a, v1)] + more;
    assert {} + quorum == quorum;
  }

  /** A proposer asks twice for a slot.  One vote short of a majority accept the
      first, the proposer alone accepts the second, and together these votes
      decide the second. */
  lemma MixedVotes(members: set<NodeId>, quorum: set<NodeId>, b1: Ballot, v1: Value, b2: Ballot, v2: Value)
    returns (events: seq<Event>)
    requires b1.proposer == b2.proposer && b1.proposer in members && quorum <= members - {b1.proposer} && quorum != {}
    requires |quorum| == Majority(members) - 1
    requires 1 <= b1.round <= b2.round <= U64_MAX && v1.slot == v2.slot != 0
    ensures var packets := Run(members, events).packets;
            && Decided(packets, b2, v2)
            && Ledger(packets, {(b1, v1), (b2, v2)}, GivenBy(quorum, b1, v1, b2, v2))
  {
    hide Run, Ledger, Decided, Stage;
    var a := b1.proposer;
    var asked, given := {(b1, v1), (b2, v2)}, GivenBy(quorum, b1, v1, b2, v2);
    assert |{a} + quorum| == Majority(members);
    events := FirstAsk(members, quorum, b1, v1, asked, given);
    if b1.round < b2.round {
      var k := b2.round - b1.round;
      StartRounds(members, events, b1, {a} + quorum, v1.slot, quorum, k, asked, given);
      assert b1.(round := b1.round + k) == b2;
      events := events + Rounds(a, k);
      var more := GetPromises(members, events, b2, {a}, v1.slot, quorum, quorum, asked, given);
      events := events + more;
    } else {
      assert b1 == b2;
    }
    Ask(members, events, b2, {a} + quorum, quorum, v2, asked, given);
    events := events + [Proposed(a, v2)];
    var last := GetVotes(members, events, b2, {a} + quorum, quorum, v2, {a}, asked, given);
    events := events + last;
    assert quorum + {a} == {a} + quorum;
    StageLedger(members, Run(members, events), b2, {a} + quorum, v2.slot, quorum + {a}, asked, given);
  }

  lemma StageLedger(members: set<NodeId>, c: Cluster, b: Ballot, promises: set<NodeId>, slot: nat,
                    votes: set<NodeId>, asked: set<(Ballot, Value)>, given: set<(NodeId, Ballot, Value)>)
    requires Stage(members, c, b, promises, slot, votes, asked, given)
    ensures Ledger(c.packets, asked, given)
  {
  }

  lemma OneExactVoter(members: set<NodeId>, quorum: set<NodeId>, b1: Ballot, v1: Value, b2: Ballot, v2: Value,
                      packets: set<Packet>)
    requires (b1, v1) != (b2, v2) && b1.proposer == b2.proposer
    requires Ledger(packets, {(b1, v1), (b2, v2)}, GivenBy(quorum, b1, v1, b2, v2))
    ensures |ExactVoters(members, packets, b2, v2)| <= 1
    ensures AsksWithin(packets, b2, v2.slot, {(b1, v1), (b2, v2)})
  {
    SubsetCardinality(ExactVoters(members, packets, b2, v2), {b2.proposer});
  }

  lemma SubsetOfSize(s: set<NodeId>, k: nat) returns (t: set<NodeId>)
    requires k <= |s|
    ensures t <= s && |t| == k
  {
    if k == |s| {
      t := s;
    } else {
      var x :| x in s;
      t := SubsetOfSize(s - {x}, k);
    }
  }

  /** In every run in which the proposer has asked, up to the second ballot, for
      nothing but two given ballots and values of a slot, a Decision of the
      second rests on a majority that accepted exactly that. */
  ghost predicate AlwaysExact(members: set<NodeId>, b1: Ballot, v1: Value, b2: Ballot, v2: Value) {
    forall events |
      && Decided(Run(members, events).packets, b2, v2)
      && AsksWithin(Run(members, events).packets, b2, v2.slot, {(b1, v1), (b2, v2)}) ::
      |ExactVoters(members, Run(members, events).packets, b2, v2)| >= Majority(members)
  }

  /** When a majority is exact, for every membership and any two asks: that holds
      if and only if the two are one, the proposer is alone, or the other ask
      comes in a later round. */
  lemma ExactMajorityIff(members: set<NodeId>, b1: Ballot, v1: Value, b2: Ballot, v2: Value)
    requires b1.proposer == b2.proposer && b1.proposer in members
    requires 1 <= b1.round <= U64_MAX && 1 <= b2.round <= U64_MAX && v1.slot == v2.slot != 0
    ensures AlwaysExact(members, b1, v1, b2, v2)
       <==> (b1, v1) == (b2, v2) || |members| == 1 || b1.round > b2.round
  {
    hide Run, Decided, ExactVoters;
    if (b1, v1) == (b2, v2) || b1.round > b2.round {
      forall events | Decided(Run(members, events).packets, b2, v2)
                      && AsksWithin(Run(members, events).packets, b2, v2.slot, {(b1, v1), (b2, v2)})
        ensures |ExactVoters(members, Run(members, events).packets, b2, v2)| >= Majority(members)
      {
        SingleAskExact(members, events, b2, v2);
      }
    } else if |members| == 1 {
      forall events | Decided(Run(members, events).packets, b2, v2)
        ensures |ExactVoters(members, Run(members, events).packets, b2, v2)| >= Majority(members)
      {
        SomeExactVoter(members, events, b2, v2);
      }
    } else {
      var a := b1.proposer;
      assert |members - {a}| == |members| - 1;
      var quorum := SubsetOfSize(members - {a}, Majority(members) - 1);
      var events := MixedVotes(members, quorum, b1, v1, b2, v2);
      OneExactVoter(members, quorum, b1, v1, b2, v2, Run(members, events).packets);
    }
  }

  lemma SomeExactVoter(members: set<NodeId>, events: seq<Event>, b: Ballot, v: Value)
    requires Decided(Run(members, events).packets, b, v)
    ensures |ExactVoters(members, Run(members, events).packets, b, v)| >= 1
  {
    hide Run;
    var p :| p in Run(members, events).packets && p.from == b.proposer && p.message == Decision(b, v);
    var m := DecisionHasExactVoter(members, events, p);
  }
}
