/** Elections do happen: which clusters can have a leader at all. */
module RaftElection {
  import opened Core
  import opened Quorums
  import opened RaftNodes
  import opened RaftClusters
  import opened RaftSafety

  lemma RunSnoc(c: Cluster, events: seq<Event>, e: Event)
    ensures Run(c, events + [e]) == Next(Run(c, events), e)
  {
    hide Next;
    assert (events + [e])[..|events|] == events;
  }

  function Ticks(a: NodeId, k: nat): seq<Event> {
    if k == 0 then [] else Ticks(a, k - 1) + [Ticked(a)]
  }

  lemma QuietTick(n: Node)
    requires n.role.Follower? && n.elapsed + 1 < n.timeout <= U64_MAX
    ensures StepTick(n) == Stepped(n.(elapsed := n.elapsed + 1), Ok([]))
  {
  }

  lemma TimeoutTick(n: Node)
    requires n.role.Follower? && n.elapsed + 1 == n.timeout <= U64_MAX && n.term == 0
    ensures var n' := n.(term := 1, role := Candidate, votedFor := Some(n.id), votes := {n.id}, elapsed := 0);
            StepTick(n) == Stepped(n', Ok(Broadcast(n', RequestVote(1, n.id, |n.log|, LastLogTerm(n.log)))))
  {
  }

  function Counted(members: set<NodeId>, timeouts: map<NodeId, nat>, a: NodeId, k: nat): Cluster
    requires Configured(members, timeouts) && a in members
  {
    var c := Initial(members, timeouts);
    Cluster(c.nodes[a := NewNode(a, members, timeouts[a]).value.(elapsed := k)], {})
  }

  lemma CountOne(members: set<NodeId>, timeouts: map<NodeId, nat>, a: NodeId, k: nat)
    requires Configured(members, timeouts) && a in members && k + 1 < timeouts[a] <= U64_MAX
    ensures Next(Counted(members, timeouts, a, k), Ticked(a)) == Counted(members, timeouts, a, k + 1)
  {
    hide StepTick;
    QuietTick(Counted(members, timeouts, a, k).nodes[a]);
  }

  lemma CountNone(members: set<NodeId>, timeouts: map<NodeId, nat>, a: NodeId)
    requires Configured(members, timeouts) && a in members
    ensures Counted(members, timeouts, a, 0) == Initial(members, timeouts)
  {
    var c := Initial(members, timeouts);
    assert c.nodes[a := c.nodes[a]] == c.nodes;
  }

  /** Before its timeout a follower only counts ticks. */
  lemma {:induction false} CountTicks(members: set<NodeId>, timeouts: map<NodeId, nat>, a: NodeId, k: nat)
    requires Configured(members, timeouts) && a in members && k < timeouts[a] <= U64_MAX
    ensures Run(Initial(members, timeouts), Ticks(a, k)) == Counted(members, timeouts, a, k)
  {
    hide Next, Counted, Initial;
    if k == 0 {
      CountNone(members, timeouts, a);
    } else {
      CountTicks(members, timeouts, a, k - 1);
      RunSnoc(Initial(members, timeouts), Ticks(a, k - 1), Ticked(a));
      CountOne(members, timeouts, a, k - 1);
    }
  }

  /** Candidate a has the given votes in term 1, too few to lead, and everyone
      else is still as constructed, with a request for its vote on the way. */
  ghost predicate Campaign(c: Cluster, members: set<NodeId>, timeouts: map<NodeId, nat>, a: NodeId, votes: set<NodeId>)
    requires Configured(members, timeouts)
  {
    && c.nodes.Keys == members && a in votes && votes <= members && |votes| < Majority(members)
    && (var n := c.nodes[a];
        n.id == a && n.members == members && n.role.Candidate? && n.term == 1 && n.votes == votes)
    && forall m | m in members - votes ::
         c.nodes[m] == NewNode(m, members, timeouts[m]).value
         && Outbound(m, RequestVote(1, a, 0, 0)) in c.packets
  }

  function Campaigner(members: set<NodeId>, timeout: nat, a: NodeId): Node {
    Node(a, members, Candidate, 1, Some(a), {a}, [], 0, 0, timeout, map[], {})
  }

  /** The cluster once a's timeout has passed. */
  function TimedOut(members: set<NodeId>, timeouts: map<NodeId, nat>, a: NodeId): Cluster
    requires Configured(members, timeouts) && a in members
  {
    var n := Campaigner(members, timeouts[a], a);
    Cluster(Initial(members, timeouts).nodes[a := n], Sent(Ok(Broadcast(n, RequestVote(1, a, 0, 0)))))
  }

  lemma LastTick(members: set<NodeId>, timeouts: map<NodeId, nat>, a: NodeId)
    requires Configured(members, timeouts) && a in members && timeouts[a] <= U64_MAX
    ensures Next(Counted(members, timeouts, a, timeouts[a] - 1), Ticked(a)) == TimedOut(members, timeouts, a)
  {
    hide StepTick, Broadcast;
    var c := Counted(members, timeouts, a, timeouts[a] - 1);
    TimeoutTick(c.nodes[a]);
    var n := Campaigner(members, timeouts[a], a);
    assert StepNode(c.nodes[a], Ticked(a)) == Stepped(n, Ok(Broadcast(n, RequestVote(1, a, 0, 0))));
  }

  lemma CampaignOpens(members: set<NodeId>, timeouts: map<NodeId, nat>, a: NodeId)
    requires Configured(members, timeouts) && a in members && |members| >= 2
    ensures Campaign(TimedOut(members, timeouts, a), members, timeouts, a, {a})
  {
    hide Broadcast;
    var n := Campaigner(members, timeouts[a], a);
    forall m | m in members - {a}
      ensures Outbound(m, RequestVote(1, a, 0, 0)) in Broadcast(n, RequestVote(1, a, 0, 0))
    {
      BroadcastReaches(n, RequestVote(1, a, 0, 0), m);
    }
  }

  lemma BroadcastReaches(n: Node, m: Message, peer: NodeId)
    requires peer in n.members && peer != n.id
    ensures Outbound(peer, m) in Broadcast(n, m)
  {
  }

  lemma StartCampaign(members: set<NodeId>, timeouts: map<NodeId, nat>, a: NodeId)
    requires Configured(members, timeouts) && a in members && |members| >= 2 && timeouts[a] <= U64_MAX
    ensures Campaign(Run(Initial(members, timeouts), Ticks(a, timeouts[a])), members, timeouts, a, {a})
  {
    hide Run, Next, Counted, TimedOut, Campaign;
    CampaignOpens(members, timeouts, a);
    CountTicks(members, timeouts, a, timeouts[a] - 1);
    RunSnoc(Initial(members, timeouts), Ticks(a, timeouts[a] - 1), Ticked(a));
    LastTick(members, timeouts, a);
  }

  /** One more vote: the request is delivered, then the answer. */
  lemma NextVote(c: Cluster, members: set<NodeId>, timeouts: map<NodeId, nat>, a: NodeId, votes: set<NodeId>, m: NodeId)
    requires Configured(members, timeouts) && Campaign(c, members, timeouts, a, votes) && m in members - votes
    ensures var asked := Next(c, Delivered(Outbound(m, RequestVote(1, a, 0, 0))));
            var after := Next(asked, Delivered(Outbound(a, Vote(1, m, true))));
            Leads(after, a, 1) || Campaign(after, members, timeouts, a, votes + {m})
  {
    var asked := Next(c, Delivered(Outbound(m, RequestVote(1, a, 0, 0))));
    assert Outbound(a, Vote(1, m, true)) in asked.packets;
    assert asked.nodes[a] == c.nodes[a];
  }

  lemma {:induction false} WinElection(c0: Cluster, events: seq<Event>, members: set<NodeId>,
                                       timeouts: map<NodeId, nat>, a: NodeId, votes: set<NodeId>)
    returns (more: seq<Event>)
    requires Configured(members, timeouts) && Campaign(Run(c0, events), members, timeouts, a, votes)
    ensures Leads(Run(c0, events + more), a, 1)
    decreases members - votes
  {
    hide Run, Next, Campaign;
    var m := MissingVote(Run(c0, events), members, timeouts, a, votes);
    var e1, e2 := Delivered(Outbound(m, RequestVote(1, a, 0, 0))), Delivered(Outbound(a, Vote(1, m, true)));
    RunSnoc(c0, events, e1);
    RunSnoc(c0, events + [e1], e2);
    NextVote(Run(c0, events), members, timeouts, a, votes, m);
    var later := events + [e1] + [e2];
    if Leads(Run(c0, later), a, 1) {
      more := [e1, e2];
      assert events + more == later;
    } else {
      assert m in members - votes;
      var rest := WinElection(c0, later, members, timeouts, a, votes + {m});
      more := [e1, e2] + rest;
      assert events + more == later + rest;
    }
  }

  lemma MissingVote(c: Cluster, members: set<NodeId>, timeouts: map<NodeId, nat>, a: NodeId, votes: set<NodeId>)
    returns (m: NodeId)
    requires Configured(members, timeouts) && Campaign(c, members, timeouts, a, votes)
    ensures m in members - votes
  {
    assert |members| > 0;
    if members - votes == {} {
      SubsetCardinality(members, votes);
      assert false;
    }
    m :| m in members - votes;
  }

  /** A cluster has a leader in some run if and only if it has at least two
      members: one node never promotes itself, and with more, any of them can win
      term 1 once its election timeout has passed. */
  lemma LeaderPossibleIff(members: set<NodeId>, timeouts: map<NodeId, nat>)
    requires Configured(members, timeouts) && forall m <- members :: timeouts[m] <= U64_MAX
    ensures (exists events, i, t :: Leads(Run(Initial(members, timeouts), events), i, t)) <==> |members| >= 2
  {
    hide Run;
    var c0 := Initial(members, timeouts);
    if |members| >= 2 {
      var a :| a in members;
      StartCampaign(members, timeouts, a);
      var more := WinElection(c0, Ticks(a, timeouts[a]), members, timeouts, a, {a});
      assert Leads(Run(c0, Ticks(a, timeouts[a]) + more), a, 1);
    } else {
      forall events, i, t ensures !Leads(Run(c0, events), i, t) {
        RunKeepsInv(members, timeouts, events);
        if i in members {
          assert members == {i} by {
            assert |members - {i}| == 0;
          }
          assert c0 == Initial({i}, map[i := timeouts[i]]);
          LoneNodeNeverLeads(i, timeouts[i], events);
        }
      }
    }
  }
}
