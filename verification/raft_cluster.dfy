/** A Raft cluster as a state machine: nodes that share one membership and a
    set of every packet ever returned.  A packet may be delivered any number of
    times, in any order, or never, so loss, duplication and reordering are all
    runs of this machine. */
module RaftClusters {
  import opened Core
  import opened RaftNodes

  datatype Cluster = Cluster(nodes: map<NodeId, Node>, packets: set<Outbound>)

  datatype Event =
    | Ticked(node: NodeId)
    | Proposed(node: NodeId, command: seq<byte>)
    | Delivered(packet: Outbound)

  /** What construction demands of every node: a positive election timeout. */
  predicate Configured(members: set<NodeId>, timeouts: map<NodeId, nat>) {
    members <= timeouts.Keys && forall m <- members :: timeouts[m] > 0
  }

  function Initial(members: set<NodeId>, timeouts: map<NodeId, nat>): Cluster
    requires Configured(members, timeouts)
  {
    Cluster(map m | m in members :: NewNode(m, members, timeouts[m]).value, {})
  }

  function Target(e: Event): NodeId {
    if e.Delivered? then e.packet.to else e.node
  }

  /** An event names a node of the cluster, and a delivered packet was sent. */
  predicate Enabled(c: Cluster, e: Event) {
    Target(e) in c.nodes && (e.Delivered? ==> e.packet in c.packets)
  }

  function StepNode(n: Node, e: Event): Stepped {
    match e
    case Ticked(_) => StepTick(n)
    case Proposed(_, command) => StepPropose(n, command)
    case Delivered(packet) => StepReceive(n, packet.message)
  }

  function Sent(r: Reply): set<Outbound> {
    if r.Ok? then set p | p in r.value else {}
  }

  /** One event; an event that is not enabled changes nothing. */
  function Next(c: Cluster, e: Event): Cluster {
    if !Enabled(c, e) then c
    else
      var s := StepNode(c.nodes[Target(e)], e);
      Cluster(c.nodes[Target(e) := s.node], c.packets + Sent(s.reply))
  }

  /** The cluster after a run of events. */
  function Run(c: Cluster, events: seq<Event>): Cluster {
    if events == [] then c
    else Next(Run(c, events[..|events| - 1]), events[|events| - 1])
  }

  /** Node i is Leader of term t. */
  predicate Leads(c: Cluster, i: NodeId, t: nat) {
    i in c.nodes && c.nodes[i].role.Leader? && c.nodes[i].term == t
  }
}

/** Election safety, log matching and the leader's append-only log, over every
    run of a cluster. */
module RaftSafety {
  import opened Core
  import opened Quorums
  import opened RaftNodes
  import opened RaftClusters

  // ---------------------------------------------------------------- history

  /** The leader of a term and the longest log it has had while leading. */
  datatype Reign = Reign(id: NodeId, log: seq<LogEntry>)

  /** What a run has shown so far: every vote cast, and every leader seen.  The
      nodes never read it; it is a function of the run. */
  datatype History = History(votes: map<(nat, NodeId), NodeId>, reigns: map<nat, Reign>)

  function Observe(h: History, n: Node): History {
    History(
      if n.votedFor.Some? then h.votes[(n.term, n.id) := n.votedFor.value] else h.votes,
      if n.role.Leader? then h.reigns[n.term := Reign(n.id, n.log)] else h.reigns)
  }

  function NextHistory(c: Cluster, h: History, e: Event): History {
    if Enabled(c, e) then Observe(h, Next(c, e).nodes[Target(e)]) else h
  }

  function RunHistory(c: Cluster, events: seq<Event>): History {
    if events == [] then History(map[], map[])
    else
      var before := events[..|events| - 1];
      NextHistory(Run(c, before), RunHistory(c, before), events[|events| - 1])
  }

  /** History only grows: a vote is never changed, a term keeps its leader, and
      that leader's log is only extended. */
  ghost predicate Extends(h: History, h': History) {
    && (forall k | k in h.votes :: k in h'.votes && h'.votes[k] == h.votes[k])
    && (forall t | t in h.reigns ::
          t in h'.reigns && h'.reigns[t].id == h.reigns[t].id && h.reigns[t].log <= h'.reigns[t].log)
  }

  // -------------------------------------------------------------- invariant

  function Supporters(h: History, members: set<NodeId>, t: nat, c: NodeId): set<NodeId> {
    set v | v in members && (t, v) in h.votes && h.votes[(t, v)] == c
  }

  /** Entry i came from the leader of its term, together with everything
      before it. */
  ghost predicate Sourced(log: seq<LogEntry>, i: nat, h: History)
    requires i < |log|
  {
    var t := log[i].term;
    t in h.reigns && i < |h.reigns[t].log| && log[..i + 1] == h.reigns[t].log[..i + 1]
  }

  ghost predicate AllSourced(log: seq<LogEntry>, h: History) {
    forall i | 0 <= i < |log| :: Sourced(log, i, h)
  }

  /** Terms never decrease along the log and never exceed the bound. */
  ghost predicate Ordered(log: seq<LogEntry>, bound: nat) {
    && (forall i | 0 <= i < |log| :: log[i].term <= bound)
    && (forall i, j | 0 <= i < j < |log| :: log[i].term <= log[j].term)
  }

  ghost predicate GoodLog(log: seq<LogEntry>, bound: nat, h: History) {
    AllSourced(log, h) && Ordered(log, bound)
  }

  ghost predicate VotesRecorded(n: Node, h: History) {
    && (n.votedFor.Some? <==> (n.term, n.id) in h.votes)
    && (n.votedFor.Some? ==> h.votes[(n.term, n.id)] == n.votedFor.value)
    && (forall t | t > n.term :: (t, n.id) !in h.votes)
  }

  ghost predicate Campaigning(n: Node, h: History) {
    n.term > 0 && n.votes <= Supporters(h, n.members, n.term, n.id)
  }

  ghost predicate Reigning(n: Node, h: History) {
    && n.term in h.reigns && h.reigns[n.term] == Reign(n.id, n.log)
    && |n.votes| >= Majority(n.members)
  }

  ghost predicate GoodNode(n: Node, members: set<NodeId>, h: History) {
    && n.members == members && n.id in members
    && VotesRecorded(n, h)
    && (!n.role.Follower? ==> Campaigning(n, h))
    && (n.role.Leader? ==> Reigning(n, h))
    && (forall t | t in h.reigns && h.reigns[t].id == n.id ::
          t < n.term || (t == n.term && n.role.Leader?))
    && GoodLog(n.log, n.term, h)
    && n.commitIndex <= |n.log|
  }

  ghost predicate GoodPacket(p: Outbound, members: set<NodeId>, h: History) {
    match p.message
    case Vote(t, voter, granted) =>
      granted ==> voter in Supporters(h, members, t, p.to)
    case AppendEntries(t, leader, prev, _, entries, _) =>
      && t in h.reigns && h.reigns[t].id == leader && p.to != leader
      && prev == 0 && entries <= h.reigns[t].log
    case _ => true
  }

  ghost predicate GoodReign(t: nat, members: set<NodeId>, h: History)
    requires t in h.reigns
  {
    && t > 0 && |Supporters(h, members, t, h.reigns[t].id)| >= Majority(members)
    && GoodLog(h.reigns[t].log, t, h)
  }

  ghost predicate Inv(c: Cluster, members: set<NodeId>, h: History) {
    && c.nodes.Keys == members
    && (forall i | i in c.nodes :: c.nodes[i].id == i && GoodNode(c.nodes[i], members, h))
    && (forall p | p in c.packets :: GoodPacket(p, members, h))
    && (forall t | t in h.reigns :: GoodReign(t, members, h))
  }

  // ----------------------------------------------------- facts about history

  lemma SupportersGrow(h: History, h': History, members: set<NodeId>, t: nat, c: NodeId)
    requires Extends(h, h')
    ensures Supporters(h, members, t, c) <= Supporters(h', members, t, c)
  {
  }

  /** A quorum behind a candidate excludes any other leader of the term. */
  lemma OneQuorumPerTerm(h: History, members: set<NodeId>, t: nat, a: NodeId, b: NodeId)
    requires |Supporters(h, members, t, a)| >= Majority(members)
    requires |Supporters(h, members, t, b)| >= Majority(members)
    ensures a == b
  {
    var v := MajoritiesIntersect(members, Supporters(h, members, t, a), Supporters(h, members, t, b));
  }

  lemma GoodLogGrows(log: seq<LogEntry>, bound: nat, bound': nat, h: History, h': History)
    requires Extends(h, h') && bound <= bound'
    requires GoodLog(log, bound, h)
    ensures GoodLog(log, bound', h')
  {
    forall i | 0 <= i < |log| ensures Sourced(log, i, h') {
      assert Sourced(log, i, h);
      var t := log[i].term;
      assert h'.reigns[t].log[..i + 1] == h.reigns[t].log[..i + 1];
    }
  }

  lemma GoodLogPrefix(log: seq<LogEntry>, k: nat, bound: nat, h: History)
    requires GoodLog(log, bound, h) && k <= |log|
    ensures GoodLog(log[..k], bound, h)
  {
    forall i | 0 <= i < k ensures Sourced(log[..k], i, h) {
      assert Sourced(log, i, h);
      assert log[..k][..i + 1] == log[..i + 1];
    }
  }

  /** Two logs whose entries come from the leaders of their terms agree up to
      any position where their terms agree. */
  lemma SourcedMatch(a: seq<LogEntry>, b: seq<LogEntry>, i: nat, h: History)
    requires AllSourced(a, h) && AllSourced(b, h)
    requires i < |a| && i < |b| && a[i].term == b[i].term
    ensures a[..i + 1] == b[..i + 1]
  {
    assert Sourced(a, i, h) && Sourced(b, i, h);
  }

  /** What the replacement loop leaves when both logs are sourced: the
      leader's entries, or the old log when it already extends them. */
  lemma MergeFullLog(log: seq<LogEntry>, entries: seq<LogEntry>, h: History)
    requires AllSourced(log, h) && AllSourced(entries, h)
    ensures Merge(log, 0, entries) == if entries <= log then log else entries
  {
    var k := Agreement(log, 0, entries, 0);
    if k > 0 {
      assert Agrees(log, 0, entries, k - 1);
      SourcedMatch(log, entries, k - 1, h);
      assert log[..k] == entries[..k];
    }
    if k < |entries| {
      assert !Agrees(log, 0, entries, k);
      assert log[..k] + entries[k..] == entries;
    }
  }

  // ---------------------------------------------------------- preservation

  /** The obligations of one handler, from which the cluster invariant follows.
      Only the stepping node and the history after observing it appear. */
  ghost predicate GoodStep(n: Node, s: Stepped, members: set<NodeId>, h: History) {
    var h' := Observe(h, s.node);
    && s.node.id == n.id
    && Extends(h, h')
    && GoodNode(s.node, members, h')
    && (s.node.role.Leader? ==> s.node.term !in h.reigns || h.reigns[s.node.term].id == n.id)
    && (forall p | p in Sent(s.reply) :: GoodPacket(p, members, h'))
  }

  ghost predicate GoodReigns(members: set<NodeId>, h: History) {
    forall t | t in h.reigns :: GoodReign(t, members, h)
  }

  lemma PacketSurvives(p: Outbound, members: set<NodeId>, h: History, h': History)
    requires Extends(h, h') && GoodPacket(p, members, h)
    ensures GoodPacket(p, members, h')
  {
  }

  lemma BystanderSurvives(m: Node, n': Node, members: set<NodeId>, h: History)
    requires GoodNode(m, members, h) && m.id != n'.id
    requires Extends(h, Observe(h, n'))
    requires n'.role.Leader? ==> n'.term !in h.reigns || h.reigns[n'.term].id == n'.id
    ensures GoodNode(m, members, Observe(h, n'))
  {
    GoodLogGrows(m.log, m.term, m.term, h, Observe(h, n'));
  }

  lemma ReignSurvives(t: nat, n': Node, members: set<NodeId>, h: History)
    requires t in Observe(h, n').reigns
    requires GoodReigns(members, h) && Extends(h, Observe(h, n'))
    requires GoodNode(n', members, Observe(h, n'))
    ensures GoodReign(t, members, Observe(h, n'))
  {
    var h' := Observe(h, n');
    if n'.role.Leader? && t == n'.term {
      SubsetCardinality(n'.votes, Supporters(h', members, t, n'.id));
    } else {
      assert GoodReign(t, members, h);
      SupportersGrow(h, h', members, t, h.reigns[t].id);
      SubsetCardinality(Supporters(h, members, t, h.reigns[t].id), Supporters(h', members, t, h.reigns[t].id));
      GoodLogGrows(h.reigns[t].log, t, t, h, h');
    }
  }

  lemma StepKeepsInv(c: Cluster, members: set<NodeId>, h: History, e: Event)
    requires Inv(c, members, h) && Enabled(c, e)
    requires GoodStep(c.nodes[Target(e)], StepNode(c.nodes[Target(e)], e), members, h)
    ensures Inv(Next(c, e), members, NextHistory(c, h, e))
    ensures Extends(h, NextHistory(c, h, e))
  {
    hide StepNode, GoodNode, GoodPacket, GoodReign, Extends, Observe;
    var n := c.nodes[Target(e)];
    var s := StepNode(n, e);
    var h' := Observe(h, s.node);
    var c' := Next(c, e);
    forall i | i in c'.nodes ensures c'.nodes[i].id == i && GoodNode(c'.nodes[i], members, h') {
      if i != Target(e) {
        BystanderSurvives(c.nodes[i], s.node, members, h);
      }
    }
    forall p | p in c'.packets ensures GoodPacket(p, members, h') {
      if p in c.packets {
        PacketSurvives(p, members, h, h');
      }
    }
    forall t | t in h'.reigns ensures GoodReign(t, members, h') {
      ReignSurvives(t, s.node, members, h);
    }
  }

  // -------------------------------------------------------------- handlers

  /** A step that keeps the role, term, vote, votes and log of the node. */
  lemma QuietStep(n: Node, s: Stepped, members: set<NodeId>, h: History)
    requires GoodNode(n, members, h) && GoodReigns(members, h)
    requires s.node == n.(elapsed := s.node.elapsed, commitIndex := s.node.commitIndex,
                          nextIndex := s.node.nextIndex, acks := s.node.acks)
    requires s.node.commitIndex <= |n.log|
    ensures Observe(h, s.node) == h
    ensures Extends(h, h) && GoodNode(s.node, members, h)
    ensures s.node.role.Leader? ==> h.reigns[s.node.term].id == n.id
    ensures (forall p | p in Sent(s.reply) :: GoodPacket(p, members, h)) ==> GoodStep(n, s, members, h)
  {
    assert n.votedFor.Some? ==> h.votes[(n.term, n.id) := n.votedFor.value] == h.votes;
    assert n.role.Leader? ==> h.reigns[n.term := Reign(n.id, n.log)] == h.reigns;
  }

  /** Stepping down to a higher term. */
  lemma AdoptGood(n: Node, t: nat, members: set<NodeId>, h: History)
    requires GoodNode(n, members, h)
    ensures GoodNode(Adopt(n, t), members, h)
  {
    if t > n.term {
      GoodLogGrows(n.log, n.term, t, h, h);
    }
  }

  lemma StepDownGood(n: Node, t: nat, members: set<NodeId>, h: History)
    requires GoodNode(n, members, h) && t > n.term
    ensures GoodStep(n, Stepped(BecomeFollower(n, t), Ok([])), members, h)
  {
    AdoptGood(n, t, members, h);
  }

  lemma TickGood(n: Node, members: set<NodeId>, h: History)
    requires GoodNode(n, members, h) && GoodReigns(members, h)
    ensures GoodStep(n, StepTick(n), members, h)
  {
    hide Broadcast, AllSourced, Ordered;
    var s := StepTick(n);
    if s.node.term == n.term {
      QuietStep(n, s, members, h);
    } else {
      GoodLogGrows(n.log, n.term, s.node.term, h, Observe(h, s.node));
    }
  }

  lemma ProposeGood(n: Node, command: seq<byte>, members: set<NodeId>, h: History)
    requires GoodNode(n, members, h) && GoodReigns(members, h)
    ensures GoodStep(n, StepPropose(n, command), members, h)
  {
    hide Broadcast;
    var s := StepPropose(n, command);
    if !n.role.Leader? {
      QuietStep(n, s, members, h);
    } else {
      var h' := Observe(h, s.node);
      assert n.votedFor.Some? ==> h.votes[(n.term, n.id) := n.votedFor.value] == h.votes;
      assert Extends(h, h');
      GoodLogGrows(n.log, n.term, n.term, h, h');
      forall i | 0 <= i < |s.node.log| ensures Sourced(s.node.log, i, h') {
        if i < |n.log| {
          assert Sourced(n.log, i, h');
          assert s.node.log[..i + 1] == n.log[..i + 1];
        }
      }
    }
  }

  lemma RequestVoteGood(n: Node, m: Message, members: set<NodeId>, h: History)
    requires GoodNode(n, members, h) && GoodReigns(members, h) && m.RequestVote?
    ensures GoodStep(n, StepRequestVote(n, m), members, h)
  {
    hide UpToDate, AllSourced, Ordered, GoodReign;
    var n1 := Adopt(n, m.term);
    var s := StepRequestVote(n, m);
    var h' := Observe(h, s.node);
    AdoptGood(n, m.term, members, h);
    assert n1.role.Leader? ==> h.reigns[n.term := Reign(n.id, n.log)] == h.reigns;
    assert Extends(h, h');
    GoodLogGrows(n1.log, n1.term, n1.term, h, h');
    assert GoodNode(s.node, members, h');
  }

  /** A candidate that reaches a majority leads a term nobody has led. */
  lemma WinnerIsFirst(n: Node, votes: set<NodeId>, members: set<NodeId>, h: History)
    requires GoodNode(n, members, h) && GoodReigns(members, h) && n.role.Candidate?
    requires votes <= Supporters(h, members, n.term, n.id) && |votes| >= Majority(members)
    ensures n.term !in h.reigns
  {
    if n.term in h.reigns {
      SubsetCardinality(votes, Supporters(h, members, n.term, n.id));
      assert GoodReign(n.term, members, h);
      OneQuorumPerTerm(h, members, n.term, n.id, h.reigns[n.term].id);
      assert false;
    }
  }

  lemma VoteGood(n: Node, p: Outbound, members: set<NodeId>, h: History)
    requires GoodNode(n, members, h) && GoodReigns(members, h)
    requires p.message.Vote? && p.to == n.id && GoodPacket(p, members, h)
    ensures GoodStep(n, StepVote(n, p.message), members, h)
  {
    hide Broadcast, AllSourced, Ordered;
    var m := p.message;
    var s := StepVote(n, m);
    if m.term > n.term {
      StepDownGood(n, m.term, members, h);
    } else if !n.role.Candidate? || m.term != n.term || !m.granted {
      QuietStep(n, s, members, h);
    } else {
      var h' := Observe(h, s.node);
      var votes := n.votes + {m.voter};
      assert votes <= Supporters(h, members, n.term, n.id);
      if s.node.role.Leader? {
        WinnerIsFirst(n, votes, members, h);
      }
      assert n.votedFor.Some? ==> h.votes[(n.term, n.id) := n.votedFor.value] == h.votes;
      assert Extends(h, h');
      GoodLogGrows(n.log, n.term, n.term, h, h');
    }
  }

  lemma AppendGood(n: Node, p: Outbound, members: set<NodeId>, h: History)
    requires GoodNode(n, members, h) && GoodReigns(members, h)
    requires p.message.AppendEntries? && p.to == n.id && GoodPacket(p, members, h)
    ensures GoodStep(n, StepAppend(n, p.message), members, h)
  {
    hide Merge, AllSourced, Ordered;
    var m := p.message;
    var n1 := Adopt(n, m.term);
    var s := StepAppend(n, m);
    AdoptGood(n, m.term, members, h);
    assert GoodReign(m.term, members, h);
    GoodLogGrows(h.reigns[m.term].log, m.term, n1.term, h, h);
    GoodLogPrefix(h.reigns[m.term].log, |m.entries|, n1.term, h);
    assert m.entries == h.reigns[m.term].log[..|m.entries|];
    MergeFullLog(n1.log, m.entries, h);
    assert n1.votedFor.Some? ==> h.votes[(n1.term, n1.id) := n1.votedFor.value] == h.votes;
    assert n1.role.Leader? ==> h.reigns[n1.term := Reign(n1.id, n1.log)] == h.reigns;
    assert n1.role.Leader? ==> s.node == n1;
    assert Observe(h, s.node) == h;
    assert GoodNode(s.node, members, h);
  }

  lemma AppendResponseGood(n: Node, m: Message, members: set<NodeId>, h: History)
    requires GoodNode(n, members, h) && GoodReigns(members, h) && m.AppendResponse?
    ensures GoodStep(n, StepAppendResponse(n, m), members, h)
  {
    if m.term > n.term {
      StepDownGood(n, m.term, members, h);
    } else {
      QuietStep(n, StepAppendResponse(n, m), members, h);
    }
  }

  lemma EveryStepGood(c: Cluster, members: set<NodeId>, h: History, e: Event)
    requires Inv(c, members, h) && Enabled(c, e)
    ensures GoodStep(c.nodes[Target(e)], StepNode(c.nodes[Target(e)], e), members, h)
  {
    var n := c.nodes[Target(e)];
    match e {
      case Ticked(_) => TickGood(n, members, h);
      case Proposed(_, command) => ProposeGood(n, command, members, h);
      case Delivered(p) =>
        match p.message {
          case RequestVote(_, _, _, _) => RequestVoteGood(n, p.message, members, h);
          case Vote(_, _, _) => VoteGood(n, p, members, h);
          case AppendEntries(_, _, _, _, _, _) => AppendGood(n, p, members, h);
          case AppendResponse(_, _, _, _) => AppendResponseGood(n, p.message, members, h);
        }
    }
  }

  // ------------------------------------------------------------------ runs

  /** The invariant holds after every run, of every length. */
  lemma {:induction false} RunKeepsInv(members: set<NodeId>, timeouts: map<NodeId, nat>, events: seq<Event>)
    requires Configured(members, timeouts)
    ensures Inv(Run(Initial(members, timeouts), events), members,
                RunHistory(Initial(members, timeouts), events))
  {
    var c0 := Initial(members, timeouts);
    if events != [] {
      var before := events[..|events| - 1];
      var e := events[|events| - 1];
      RunKeepsInv(members, timeouts, before);
      if Enabled(Run(c0, before), e) {
        EveryStepGood(Run(c0, before), members, RunHistory(c0, before), e);
        StepKeepsInv(Run(c0, before), members, RunHistory(c0, before), e);
      }
    }
  }

  /** History after a run extends history after any of its prefixes. */
  lemma {:induction false} RunExtends(members: set<NodeId>, timeouts: map<NodeId, nat>,
                                      events: seq<Event>, k: nat)
    requires Configured(members, timeouts)
    requires k <= |events|
    ensures Extends(RunHistory(Initial(members, timeouts), events[..k]),
                    RunHistory(Initial(members, timeouts), events))
  {
    var c0 := Initial(members, timeouts);
    if k == |events| {
      assert events[..k] == events;
    } else {
      var before := events[..|events| - 1];
      var e := events[|events| - 1];
      RunExtends(members, timeouts, before, k);
      assert before[..k] == events[..k];
      RunKeepsInv(members, timeouts, before);
      var h1 := RunHistory(c0, before);
      if Enabled(Run(c0, before), e) {
        EveryStepGood(Run(c0, before), members, h1, e);
        StepKeepsInv(Run(c0, before), members, h1, e);
      }
      ExtendsTransitive(RunHistory(c0, events[..k]), h1, RunHistory(c0, events));
    }
  }

  lemma ExtendsTransitive(a: History, b: History, c: History)
    requires Extends(a, b) && Extends(b, c)
    ensures Extends(a, c)
  {
  }

  // --------------------------------------------------------- main results

  /** Two reachable moments, the second no earlier than the first. */
  lemma Moments(members: set<NodeId>, timeouts: map<NodeId, nat>, events: seq<Event>, j: nat, k: nat)
    returns (early: History, late: History)
    requires Configured(members, timeouts) && j <= k <= |events|
    ensures Inv(Run(Initial(members, timeouts), events[..j]), members, early)
    ensures Inv(Run(Initial(members, timeouts), events[..k]), members, late)
    ensures Extends(early, late)
  {
    early := RunHistory(Initial(members, timeouts), events[..j]);
    late := RunHistory(Initial(members, timeouts), events[..k]);
    RunKeepsInv(members, timeouts, events[..j]);
    RunKeepsInv(members, timeouts, events[..k]);
    RunExtends(members, timeouts, events[..k], j);
    assert events[..k][..j] == events[..j];
  }

  /** A leader is the one recorded for its term, with the log recorded. */
  lemma LeaderIsRecorded(c: Cluster, members: set<NodeId>, h: History, a: NodeId, t: nat)
    requires Inv(c, members, h) && Leads(c, a, t)
    ensures t in h.reigns && h.reigns[t] == Reign(a, c.nodes[a].log)
  {
    assert GoodNode(c.nodes[a], members, h);
  }

  /** Election safety: over a whole run, whoever leads a term at one moment is
      the only node that leads that term at any other moment. */
  lemma ElectionSafety(members: set<NodeId>, timeouts: map<NodeId, nat>, events: seq<Event>,
                       j: nat, k: nat, a: NodeId, b: NodeId, t: nat)
    requires Configured(members, timeouts) && j <= k <= |events|
    requires Leads(Run(Initial(members, timeouts), events[..j]), a, t)
    requires Leads(Run(Initial(members, timeouts), events[..k]), b, t)
    ensures a == b
  {
    var early, late := Moments(members, timeouts, events, j, k);
    LeaderIsRecorded(Run(Initial(members, timeouts), events[..j]), members, early, a, t);
    LeaderIsRecorded(Run(Initial(members, timeouts), events[..k]), members, late, b, t);
  }

  /** Leader append-only: between two moments at which a node leads the same
      term, its log is only extended. */
  lemma LeaderAppendOnly(members: set<NodeId>, timeouts: map<NodeId, nat>, events: seq<Event>,
                         j: nat, k: nat, a: NodeId, t: nat)
    requires Configured(members, timeouts) && j <= k <= |events|
    requires Leads(Run(Initial(members, timeouts), events[..j]), a, t)
    requires Leads(Run(Initial(members, timeouts), events[..k]), a, t)
    ensures Run(Initial(members, timeouts), events[..j]).nodes[a].log
         <= Run(Initial(members, timeouts), events[..k]).nodes[a].log
  {
    var early, late := Moments(members, timeouts, events, j, k);
    LeaderIsRecorded(Run(Initial(members, timeouts), events[..j]), members, early, a, t);
    LeaderIsRecorded(Run(Initial(members, timeouts), events[..k]), members, late, a, t);
  }

  /** The entries that a run's proposals at a node make of its commands. */
  function ProposedEntries(events: seq<Event>, a: NodeId, t: nat): seq<LogEntry> {
    if events == [] then []
    else
      var e := events[|events| - 1];
      ProposedEntries(events[..|events| - 1], a, t)
      + if e.Proposed? && e.node == a then [LogEntry(t, e.command)] else []
  }

  lemma TermsRise(n: Node, e: Event)
    ensures StepNode(n, e).node.term >= n.term
  {
  }

  /** Whoever has led a term and leads it after an event led it before. */
  lemma LedBefore(c: Cluster, members: set<NodeId>, h: History, e: Event, a: NodeId, t: nat)
    requires Inv(c, members, h) && t in h.reigns && h.reigns[t].id == a
    requires Leads(Next(c, e), a, t)
    ensures Leads(c, a, t)
  {
    hide StepNode, GoodLog, VotesRecorded, Campaigning, Reigning, GoodReign, GoodPacket;
    assert GoodNode(c.nodes[a], members, h);
    if Enabled(c, e) {
      TermsRise(c.nodes[Target(e)], e);
    }
  }

  /** No append of a leader's own term changes the leader: it never sends one
      to itself. */
  lemma NoOwnAppend(c: Cluster, members: set<NodeId>, h: History, p: Outbound, t: nat)
    requires Inv(c, members, h) && p in c.packets && Leads(c, p.to, t) && p.message.AppendEntries?
    ensures p.message.term != t
  {
    hide GoodLog, VotesRecorded, Campaigning, GoodReign;
    assert GoodPacket(p, members, h) && GoodNode(c.nodes[p.to], members, h);
  }

  lemma LeaderKeepsLog(n: Node, e: Event)
    requires n.role.Leader? && StepNode(n, e).node.role.Leader? && StepNode(n, e).node.term == n.term
    requires e.Delivered? && e.packet.message.AppendEntries? ==> e.packet.message.term != n.term
    ensures StepNode(n, e).node.log == n.log + if e.Proposed? then [LogEntry(n.term, e.command)] else []
  {
    hide Merge;
  }

  /** A leader that stays leader of its term gains an entry from its own
      proposal and from nothing else. */
  lemma LeaderStep(c: Cluster, members: set<NodeId>, h: History, e: Event, a: NodeId, t: nat)
    requires Inv(c, members, h) && Leads(c, a, t) && Leads(Next(c, e), a, t)
    ensures Next(c, e).nodes[a].log
         == c.nodes[a].log + if e.Proposed? && e.node == a then [LogEntry(t, e.command)] else []
  {
    hide StepNode, GoodNode, GoodPacket, GoodReign;
    if Enabled(c, e) && Target(e) == a {
      if e.Delivered? && e.packet.message.AppendEntries? {
        NoOwnAppend(c, members, h, e.packet, t);
      }
      LeaderKeepsLog(c.nodes[a], e);
    } else {
      assert c.nodes[a].log + [] == c.nodes[a].log;
    }
  }

  /** Between two moments at which a node leads the same term, its log grows by
      exactly the commands proposed at it, in order, under that term. */
  lemma {:induction false} LeaderLogIsProposals(members: set<NodeId>, timeouts: map<NodeId, nat>,
                                                events: seq<Event>, j: nat, a: NodeId, t: nat)
    requires Configured(members, timeouts) && j <= |events|
    requires Leads(Run(Initial(members, timeouts), events[..j]), a, t)
    requires Leads(Run(Initial(members, timeouts), events), a, t)
    ensures Run(Initial(members, timeouts), events).nodes[a].log
         == Run(Initial(members, timeouts), events[..j]).nodes[a].log + ProposedEntries(events[j..], a, t)
  {
    hide Next, NextHistory, Inv, Initial;
    var c0 := Initial(members, timeouts);
    if j == |events| {
      assert events[..j] == events && events[j..] == [];
    } else {
      var n := |events| - 1;
      var before, e := events[..n], events[n];
      assert before[..j] == events[..j] && events[j..][..n - j] == before[j..] && events[j..][n - j] == e;
      RunKeepsInv(members, timeouts, before);
      RunKeepsInv(members, timeouts, events[..j]);
      RunExtends(members, timeouts, before, j);
      LeaderIsRecorded(Run(c0, events[..j]), members, RunHistory(c0, events[..j]), a, t);
      var c, h := Run(c0, before), RunHistory(c0, before);
      LedBefore(c, members, h, e, a, t);
      LeaderLogIsProposals(members, timeouts, before, j, a, t);
      LeaderStep(c, members, h, e, a, t);
    }
  }

  /** A log held by a node, or carried by an AppendEntries packet. */
  ghost predicate Visible(c: Cluster, log: seq<LogEntry>) {
    || (exists i | i in c.nodes :: c.nodes[i].log == log)
    || (exists p | p in c.packets :: p.message.AppendEntries? && p.message.entries == log)
  }

  lemma VisibleIsGood(c: Cluster, members: set<NodeId>, h: History, log: seq<LogEntry>)
    requires Inv(c, members, h) && Visible(c, log)
    ensures AllSourced(log, h)
  {
    if p :| p in c.packets && p.message.AppendEntries? && p.message.entries == log {
      var t := p.message.term;
      assert GoodPacket(p, members, h) && GoodReign(t, members, h);
      GoodLogPrefix(h.reigns[t].log, |log|, t, h);
      assert log == h.reigns[t].log[..|log|];
    }
  }

  /** Log matching: whenever two logs, in nodes or in flight, hold an entry of
      the same term at the same index, they are identical up to that index,
      commands included. */
  lemma LogMatching(members: set<NodeId>, timeouts: map<NodeId, nat>, events: seq<Event>,
                    a: seq<LogEntry>, b: seq<LogEntry>, i: nat)
    requires Configured(members, timeouts)
    requires Visible(Run(Initial(members, timeouts), events), a)
    requires Visible(Run(Initial(members, timeouts), events), b)
    requires i < |a| && i < |b| && a[i].term == b[i].term
    ensures a[..i + 1] == b[..i + 1]
  {
    var c := Run(Initial(members, timeouts), events);
    var h := RunHistory(Initial(members, timeouts), events);
    RunKeepsInv(members, timeouts, events);
    VisibleIsGood(c, members, h, a);
    VisibleIsGood(c, members, h, b);
    SourcedMatch(a, b, i, h);
  }

  /** The voting rule compares logs by last term, then length: every log is up
      to date with itself, of two logs one is up to date with the other, and
      only logs of equal length and last term are so both ways. */
  lemma UpToDateIsTotal(a: seq<LogEntry>, b: seq<LogEntry>, c: seq<LogEntry>)
    ensures UpToDate(a, |a|, LastLogTerm(a))
    ensures UpToDate(a, |b|, LastLogTerm(b)) || UpToDate(b, |a|, LastLogTerm(a))
    ensures UpToDate(a, |b|, LastLogTerm(b)) && UpToDate(b, |a|, LastLogTerm(a))
            <==> |a| == |b| && LastLogTerm(a) == LastLogTerm(b)
    ensures UpToDate(a, |b|, LastLogTerm(b)) && UpToDate(b, |c|, LastLogTerm(c))
            ==> UpToDate(a, |c|, LastLogTerm(c))
    ensures a <= b && Ordered(b, LastLogTerm(b)) ==> UpToDate(a, |b|, LastLogTerm(b))
  {
  }

  /** A sourced log is a prefix of the log of the leader of its last term. */
  lemma SourcedBySource(log: seq<LogEntry>, members: set<NodeId>, h: History)
    requires AllSourced(log, h) && GoodReigns(members, h) && log != []
    ensures var t := LastLogTerm(log); t > 0 && t in h.reigns && log <= h.reigns[t].log
  {
    assert Sourced(log, |log| - 1, h);
    assert GoodReign(LastLogTerm(log), members, h);
  }

  /** What the voting rule buys: of two logs in a reachable state that end in
      the same term, the one the rule calls up to date extends the other, so a
      voter never supports a candidate that lacks an entry of that term. */
  lemma UpToDateExtends(members: set<NodeId>, timeouts: map<NodeId, nat>, events: seq<Event>,
                        voter: seq<LogEntry>, candidate: seq<LogEntry>)
    requires Configured(members, timeouts)
    requires Visible(Run(Initial(members, timeouts), events), voter)
    requires Visible(Run(Initial(members, timeouts), events), candidate)
    requires LastLogTerm(voter) == LastLogTerm(candidate)
    ensures UpToDate(voter, |candidate|, LastLogTerm(candidate)) <==> voter <= candidate
  {
    hide Run, AllSourced;
    var c := Run(Initial(members, timeouts), events);
    var h := RunHistory(Initial(members, timeouts), events);
    RunKeepsInv(members, timeouts, events);
    VisibleIsGood(c, members, h, voter);
    VisibleIsGood(c, members, h, candidate);
    if voter != [] {
      SourcedBySource(voter, members, h);
    }
    if candidate != [] {
      SourcedBySource(candidate, members, h);
    }
  }

  /** Log shape: along every log terms never decrease and never exceed the
      node's current term, and the commit index stays inside the log. */
  lemma LogShape(members: set<NodeId>, timeouts: map<NodeId, nat>, events: seq<Event>, i: NodeId)
    requires Configured(members, timeouts)
    requires i in members
    ensures var c := Run(Initial(members, timeouts), events);
            i in c.nodes && Ordered(c.nodes[i].log, c.nodes[i].term)
            && c.nodes[i].commitIndex <= |c.nodes[i].log|
  {
    RunKeepsInv(members, timeouts, events);
  }

  lemma DeliverAppend(c: Cluster, members: set<NodeId>, h: History, p: Outbound)
    requires Inv(c, members, h)
    requires p in c.packets && p.to in c.nodes && p.message.AppendEntries?
    requires p.message.term >= c.nodes[p.to].term
    ensures var after := StepNode(c.nodes[p.to], Delivered(p)).node;
            && after.term == p.message.term
            && after.log == if p.message.entries <= c.nodes[p.to].log then c.nodes[p.to].log
                            else p.message.entries
    ensures p.message.term in h.reigns && p.message.entries <= h.reigns[p.message.term].log
  {
    hide AllSourced, Ordered, Merge;
    assert GoodPacket(p, members, h) && GoodNode(c.nodes[p.to], members, h);
    VisibleIsGood(c, members, h, p.message.entries);
    MergeFullLog(c.nodes[p.to].log, p.message.entries, h);
  }

  /** A delivered AppendEntries whose term is not stale leaves exactly the
      leader's entries, or the old log when that already extends them. */
  lemma FollowerAppend(members: set<NodeId>, timeouts: map<NodeId, nat>, events: seq<Event>, p: Outbound)
    requires Configured(members, timeouts)
    requires var c := Run(Initial(members, timeouts), events);
             p in c.packets && p.to in c.nodes && p.message.AppendEntries?
             && p.message.term >= c.nodes[p.to].term
    ensures var c := Run(Initial(members, timeouts), events);
            var held := c.nodes[p.to].log;
            var after := Next(c, Delivered(p)).nodes[p.to];
            && after.term == p.message.term
            && after.log == if p.message.entries <= held then held else p.message.entries
  {
    var c0 := Initial(members, timeouts);
    RunKeepsInv(members, timeouts, events);
    DeliverAppend(Run(c0, events), members, RunHistory(c0, events), p);
  }

  /** Delivering an append again, or a late one of the same term that carries
      no more entries, removes nothing and adds nothing. */
  lemma AppendIdempotent(members: set<NodeId>, timeouts: map<NodeId, nat>, events: seq<Event>,
                         p: Outbound, late: Outbound)
    requires Configured(members, timeouts)
    requires var c := Run(Initial(members, timeouts), events);
             && p in c.packets && p.to in c.nodes && p.message.AppendEntries?
             && p.message.term >= c.nodes[p.to].term
             && late in c.packets && late.to == p.to && late.message.AppendEntries?
             && late.message.term == p.message.term
             && |late.message.entries| <= |p.message.entries|
    ensures var once := Next(Run(Initial(members, timeouts), events), Delivered(p));
            Next(once, Delivered(late)).nodes[p.to].log == once.nodes[p.to].log
  {
    hide Run, RunHistory, Next;
    var c0 := Initial(members, timeouts);
    RunKeepsInv(members, timeouts, events);
    DeliverTwice(Run(c0, events), members, RunHistory(c0, events), p, late);
  }

  lemma DeliverTwice(c: Cluster, members: set<NodeId>, h: History, p: Outbound, late: Outbound)
    requires Inv(c, members, h)
    requires p in c.packets && p.to in c.nodes && p.message.AppendEntries? && p.message.term >= c.nodes[p.to].term
    requires late in c.packets && late.to == p.to && late.message.AppendEntries?
    requires late.message.term == p.message.term && |late.message.entries| <= |p.message.entries|
    ensures var once := Next(c, Delivered(p));
            && p.to in once.nodes && late.to in Next(once, Delivered(late)).nodes
            && Next(once, Delivered(late)).nodes[p.to].log == once.nodes[p.to].log
  {
    hide StepNode, GoodStep, GoodNode, GoodPacket, GoodReign, NextHistory, Extends;
    DeliverAppend(c, members, h, p);
    EveryStepGood(c, members, h, Delivered(p));
    StepKeepsInv(c, members, h, Delivered(p));
    var once, h1 := Next(c, Delivered(p)), NextHistory(c, h, Delivered(p));
    DeliverAppend(once, members, h1, p);
    DeliverAppend(once, members, h1, late);
  }

  lemma LoneSendsNothing(n: Node, e: Event)
    requires n.members == {n.id} && !n.role.Leader? && !e.Delivered?
    ensures Sent(StepNode(n, e).reply) == {}
  {
    hide Broadcast;
    forall p | p in Sent(StepNode(n, e).reply) ensures false {
    }
  }

  /** Only a received vote promotes, so a cluster of one never has a leader. */
  lemma {:induction false} LoneNodeNeverLeads(me: NodeId, timeout: nat, events: seq<Event>)
    requires timeout > 0
    ensures var c := Run(Initial({me}, map[me := timeout]), events);
            c.nodes.Keys == {me} && c.packets == {} && !c.nodes[me].role.Leader?
            && c.nodes[me].members == {me} && c.nodes[me].id == me
  {
    if events != [] {
      var before := events[..|events| - 1];
      LoneNodeNeverLeads(me, timeout, before);
      var c := Run(Initial({me}, map[me := timeout]), before);
      var e := events[|events| - 1];
      if Enabled(c, e) {
        LoneSendsNothing(c.nodes[me], e);
      }
    }
  }
}
