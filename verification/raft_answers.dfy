/** What each node answers, and when: every reply and state change in terms of
    the packet delivered, the logs and the terms, and over runs where each packet
    comes from. */
module RaftAnswers {
  import opened Core
  import opened Quorums
  import opened RaftNodes
  import opened RaftClusters
  import opened RaftSafety

  function Max(a: nat, b: nat): nat {
    if a >= b then a else b
  }

  /** The packets an event makes its node return. */
  function Said(c: Cluster, e: Event): seq<Outbound> {
    if !Enabled(c, e) then []
    else
      var reply := StepNode(c.nodes[Target(e)], e).reply;
      if reply.Ok? then reply.value else []
  }

  // -------------------------------------------------------------- one event

  /** A candidate's log, given by length and last term, is not behind another. */
  predicate NotBehind(index: nat, term: nat, log: seq<LogEntry>) {
    log != [] ==>
      term > log[|log| - 1].term || (term == log[|log| - 1].term && index >= |log|)
  }

  /** Votes: exactly one answer, granted exactly when the request's term is not
      stale, no one else has the vote of that term, and the candidate's log is
      not behind; the vote is then kept, and the log is never touched. */
  lemma VoteAnswer(n: Node, p: Outbound)
    requires p.message.RequestVote?
    ensures var s, m := StepNode(n, Delivered(p)), p.message;
            var free := m.term > n.term || n.votedFor.None? || n.votedFor.value == m.candidate;
            var granted := m.term >= n.term && free && NotBehind(m.lastLogIndex, m.lastLogTerm, n.log);
            && s.reply == Ok([Outbound(m.candidate, Vote(Max(n.term, m.term), n.id, granted))])
            && s.node.votedFor == (if granted then Some(m.candidate) else if m.term > n.term then None else n.votedFor)
            && s.node.log == n.log && s.node.commitIndex == n.commitIndex
            && s.node.term == Max(n.term, m.term)
            && s.node.role == (if m.term > n.term then Follower else n.role)
            && s.node.elapsed == (if granted || m.term > n.term then 0 else n.elapsed)
  {
  }

  /** Appends: one answer, a success exactly when the term is not stale and the
      log has the entry before; then the log holds all the entries' terms after
      an unchanged beginning, the answer gives its whole length, and the commit
      index is the leader's or the end of the log; else nothing but the term
      changes. */
  lemma AppendAnswer(n: Node, p: Outbound)
    requires p.message.AppendEntries?
    ensures var s, m := StepNode(n, Delivered(p)), p.message;
            var prev := m.prevLogIndex;
            var fits := prev == 0 || (prev <= |n.log| && n.log[prev - 1].term == m.prevLogTerm);
            var success := m.term >= n.term && fits;
            && s.reply == Ok([Outbound(m.leader, AppendResponse(Max(n.term, m.term), n.id, success,
                                                                if success then |s.node.log| else 0))])
            && s.node.term == Max(n.term, m.term)
            && s.node.role == (if m.term > n.term then Follower else n.role)
            && s.node.elapsed == (if success || m.term > n.term then 0 else n.elapsed)
            && (success ==>
                  && s.node.commitIndex <= m.leaderCommit && s.node.commitIndex <= |s.node.log|
                  && (s.node.commitIndex == m.leaderCommit || s.node.commitIndex == |s.node.log|)
                  && prev + |m.entries| <= |s.node.log| && s.node.log[..prev] == n.log[..prev]
                  && (forall i | 0 <= i < |m.entries| :: s.node.log[prev + i].term == m.entries[i].term))
            && (!success ==> s.node.log == n.log && s.node.commitIndex == n.commitIndex)
  {
    hide Merge, Agreement;
    var n1 := Adopt(n, p.message.term);
    if PrevMatches(n1.log, p.message.prevLogIndex, p.message.prevLogTerm) {
      MergeHolds(n1.log, p.message.prevLogIndex, p.message.entries);
    }
  }

  /** What replacing leaves: the beginning, and the entries as far as terms tell. */
  lemma MergeHolds(log: seq<LogEntry>, prev: nat, entries: seq<LogEntry>)
    requires prev <= |log|
    ensures var after := Merge(log, prev, entries);
            && prev + |entries| <= |after| && after[..prev] == log[..prev]
            && forall i | 0 <= i < |entries| :: after[prev + i].term == entries[i].term
  {
    var k := Agreement(log, prev, entries, 0);
    var after := Merge(log, prev, entries);
    assert k > 0 ==> Agrees(log, prev, entries, k - 1);
    forall i | 0 <= i < |entries|
      ensures prev + i < |after| && after[prev + i].term == entries[i].term
    {
      if i < k {
        assert Agrees(log, prev, entries, i);
      }
    }
    assert |entries| > 0 ==> prev + (|entries| - 1) < |after|;
  }

  /** Promotion: a delivered vote makes a leader exactly when it is granted, in
      the candidate's term, and completes a majority; other votes are counted or
      change nothing. */
  lemma VoteCounted(n: Node, p: Outbound)
    requires p.message.Vote? && p.message.term <= n.term
    ensures var s, m := StepNode(n, Delivered(p)), p.message;
            var counts := n.role.Candidate? && m.term == n.term && m.granted;
            var votes := n.votes + {m.voter};
            && (s.node.role.Leader? <==> n.role.Leader? || (counts && |votes| >= Majority(n.members)))
            && s.node.votes == (if counts then votes else n.votes)
            && (s.node.role.Leader? && !n.role.Leader? ==>
                  s.node.elapsed == 0 && s.node.nextIndex == map peer | peer in n.members :: |n.log|)
            && (!s.node.role.Leader? ==> s.reply == Ok([]) && s.node.role == n.role)
            && (!counts ==> s == Stepped(n, Ok([])))
            && s.node.term == n.term && s.node.log == n.log && s.node.votedFor == n.votedFor
            && s.node.commitIndex == n.commitIndex
  {
    hide Broadcast;
  }

  /** Acknowledgements: a leader notes each success, and moves its commit index
      exactly when a majority has acknowledged, to the index reported or the end
      of its log. */
  lemma ResponseCounted(n: Node, p: Outbound)
    requires p.message.AppendResponse? && p.message.term <= n.term
    ensures var s, m := StepNode(n, Delivered(p)), p.message;
            && s.reply == Ok([]) && s.node.log == n.log && s.node.role == n.role && s.node.term == n.term
            && (!(n.role.Leader? && m.success) ==> s.node == n)
            && (n.role.Leader? && m.success ==>
                  && s.node.acks == n.acks + {m.follower} && m.follower in s.node.nextIndex
                  && s.node.nextIndex[m.follower] == m.matchIndex
                  && (|s.node.acks| < Majority(n.members) ==> s.node.commitIndex == n.commitIndex)
                  && (|s.node.acks| >= Majority(n.members) ==>
                        s.node.commitIndex == if m.matchIndex <= |n.log| then m.matchIndex else |n.log|))
  {
  }

  /** A higher term: whatever carries it, the node follows in it; a vote or a
      response is then otherwise ignored. */
  lemma HigherTerm(n: Node, p: Outbound)
    requires p.message.term > n.term
    ensures var s := StepNode(n, Delivered(p));
            && s.node.term == p.message.term && s.node.role.Follower? && s.node.votes == {}
            && (p.message.Vote? || p.message.AppendResponse? ==>
                  s.reply == Ok([]) && s.node.log == n.log && s.node.votedFor.None? && s.node.elapsed == 0)
  {
  }

  /** Every other member, and nobody else, is sent the message. */
  ghost predicate SentToOthers(n: Node, packets: seq<Outbound>, m: Message) {
    forall p :: p in packets <==> p.to in n.members && p.to != n.id && p.message == m
  }

  /** A leader speaks on each of its ticks, on each proposal, and when it is
      promoted: it sends every other member its whole log. */
  lemma LeaderSpeaks(n: Node, e: Event)
    requires var s := StepNode(n, e); s.node.role.Leader?
    requires (e.Ticked? && n.elapsed < U64_MAX) || e.Proposed? || !n.role.Leader?
    ensures var s := StepNode(n, e);
            && s.reply.Ok?
            && SentToOthers(n, s.reply.value,
                 AppendEntries(s.node.term, n.id, 0, 0, s.node.log, s.node.commitIndex))
  {
    hide Broadcast;
  }

  /** Proposing: a leader adds exactly the command under its term and counts only
      itself; anyone else refuses and changes nothing. */
  lemma ProposeAnswer(n: Node, command: seq<byte>, who: NodeId)
    ensures var s := StepNode(n, Proposed(who, command));
            && (s.reply == Err(NotLeader) <==> !n.role.Leader?) && (s.reply.Err? ==> s.node == n)
            && (n.role.Leader? ==>
                  s.node == n.(log := n.log + [LogEntry(n.term, command)], acks := {n.id}))
  {
    hide Broadcast;
  }

  /** Ticking: a leader or a node short of its timeout only counts; otherwise it
      stands in the next term, with its own vote, and asks every other member;
      an exhausted counter is the only error. */
  lemma TickAnswer(n: Node, who: NodeId)
    ensures var s := StepNode(n, Ticked(who));
            var due := !n.role.Leader? && n.elapsed + 1 >= n.timeout;
            && (s.reply.Err? <==> n.elapsed == U64_MAX || (due && n.term == U64_MAX))
            && (s.reply.Err? ==> s.reply.error == IndexOverflow && s.node.term == n.term)
            && (s.reply.Ok? && !due ==> s.node == n.(elapsed := n.elapsed + 1))
            && (s.reply.Ok? && !due && !n.role.Leader? ==> s.reply.value == [])
            && (s.reply.Ok? && due ==>
                  && s.node == n.(term := n.term + 1, role := Candidate, votedFor := Some(n.id),
                                  votes := {n.id}, elapsed := 0)
                  && SentToOthers(n, s.reply.value, RequestVote(n.term + 1, n.id, |n.log|, LastLogTerm(n.log))))
  {
    hide Broadcast;
  }

  /** A node needs a membership with itself in it and a nonzero timeout, and starts
      as a follower in term 0 with no vote, no log and nothing committed. */
  lemma ConstructionAnswers(id: NodeId, members: set<NodeId>, timeout: nat)
    ensures id !in members || timeout == 0 <==> NewNode(id, members, timeout) == Err(EmptyMembership)
    ensures id in members && timeout > 0 ==>
              NewNode(id, members, timeout)
              == Ok(Node(id, members, Follower, 0, None, {}, [], 0, 0, timeout, map[], {}))
  {
  }

  // ------------------------------------------------------- where packets come from

  /** Every packet in the network was returned by some event of the run. */
  lemma {:induction false} SentOnce(members: set<NodeId>, timeouts: map<NodeId, nat>, events: seq<Event>, p: Outbound)
    returns (j: nat)
    requires Configured(members, timeouts) && p in Run(Initial(members, timeouts), events).packets
    ensures j < |events| && p in Said(Run(Initial(members, timeouts), events[..j]), events[j])
  {
    hide StepNode;
    var before := events[..|events| - 1];
    if p in Run(Initial(members, timeouts), before).packets {
      j := SentOnce(members, timeouts, before, p);
      assert before[..j] == events[..j];
    } else {
      j := |events| - 1;
    }
  }

  /** What the sender of each kind of packet was, just after sending it. */
  lemma SenderAfter(n: Node, e: Event, p: Outbound)
    requires StepNode(n, e).reply.Ok? && p in StepNode(n, e).reply.value
    ensures var n', m := StepNode(n, e).node, p.message;
            && n'.term == m.term
            && match m
               case RequestVote(_, candidate, index, lastTerm) =>
                 candidate == n.id && n'.role.Candidate? && n'.votedFor == Some(n.id)
                 && index == |n'.log| && lastTerm == LastLogTerm(n'.log) && p.to in n.members && p.to != n.id
               case Vote(_, voter, granted) =>
                 voter == n.id && (granted ==> n'.votedFor == Some(p.to))
               case AppendEntries(_, leader, prev, prevTerm, entries, commit) =>
                 leader == n.id && n'.role.Leader? && prev == 0 && prevTerm == 0
                 && entries == n'.log && commit == n'.commitIndex && p.to in n.members && p.to != n.id
               case AppendResponse(_, follower, success, matchIndex) =>
                 follower == n.id && matchIndex == if success then |n'.log| else 0
  {
    hide Broadcast, Merge;
  }

  /** Who sends a packet of each kind. */
  function Sender(m: Message): NodeId {
    match m
    case RequestVote(_, candidate, _, _) => candidate
    case Vote(_, voter, _) => voter
    case AppendEntries(_, leader, _, _, _, _) => leader
    case AppendResponse(_, follower, _, _) => follower
  }

  /** Every packet in the network describes its sender truly, at the moment after
      some event of the run: requests and appends give its whole log or its
      length and last term, votes its vote, and responses its log's length. */
  lemma PacketsAreTrue(members: set<NodeId>, timeouts: map<NodeId, nat>, events: seq<Event>, p: Outbound)
    returns (j: nat)
    requires Configured(members, timeouts) && p in Run(Initial(members, timeouts), events).packets
    ensures j < |events|
    ensures var c := Run(Initial(members, timeouts), events[..j + 1]);
            var m := p.message;
            && Sender(m) in c.nodes
            && var n := c.nodes[Sender(m)];
               n.term == m.term
               && match m
                  case RequestVote(_, candidate, index, lastTerm) =>
                    n.role.Candidate? && n.votedFor == Some(candidate)
                    && index == |n.log| && lastTerm == LastLogTerm(n.log)
                  case Vote(_, _, granted) => granted ==> n.votedFor == Some(p.to)
                  case AppendEntries(_, _, prev, _, entries, commit) =>
                    n.role.Leader? && prev == 0 && entries == n.log && commit == n.commitIndex
                  case AppendResponse(_, _, success, matchIndex) =>
                    matchIndex == if success then |n.log| else 0
  {
    hide StepNode, Inv, Initial;
    j := SentOnce(members, timeouts, events, p);
    var c, e := Run(Initial(members, timeouts), events[..j]), events[j];
    assert events[..j + 1][..j] == events[..j];
    RunKeepsInv(members, timeouts, events[..j]);
    NodeKnowsItself(c, members, RunHistory(Initial(members, timeouts), events[..j]), Target(e));
    SenderAfter(c.nodes[Target(e)], e, p);
  }

  lemma NodeKnowsItself(c: Cluster, members: set<NodeId>, h: History, i: NodeId)
    requires Inv(c, members, h) && i in c.nodes
    ensures c.nodes[i].id == i && c.nodes[i].members == members
  {
    hide StepNode;
    assert GoodNode(c.nodes[i], members, h);
  }

  // ------------------------------------------------------------ votes over runs

  /** A vote granted in a run is for a candidate whose log, when it asked, was not
      behind the voter's; and if both end in the same term, it extended it. */
  lemma SupporterExtended(members: set<NodeId>, timeouts: map<NodeId, nat>, events: seq<Event>, p: Outbound, t: nat)
    returns (j: nat)
    requires Configured(members, timeouts) && p.message.RequestVote?
    requires var c := Run(Initial(members, timeouts), events);
             p in c.packets && p.to in c.nodes
             && Outbound(p.message.candidate, Vote(t, p.to, true)) in Said(c, Delivered(p))
    ensures var c := Run(Initial(members, timeouts), events);
            var voter := c.nodes[p.to].log;
            && NotBehind(p.message.lastLogIndex, p.message.lastLogTerm, voter)
            && j <= |events| && p.message.candidate in Run(Initial(members, timeouts), events[..j]).nodes
            && var asked := Run(Initial(members, timeouts), events[..j]).nodes[p.message.candidate].log;
               && |asked| == p.message.lastLogIndex && LastLogTerm(asked) == p.message.lastLogTerm
               && (LastLogTerm(asked) == LastLogTerm(voter) ==> voter <= asked)
  {
    hide StepNode, Run, Inv, AllSourced;
    var c0 := Initial(members, timeouts);
    var c := Run(c0, events);
    var k := PacketsAreTrue(members, timeouts, events, p);
    j := k + 1;
    VoteAnswer(c.nodes[p.to], p);
    var early, late := Moments(members, timeouts, events, j, |events|);
    assert events[..|events|] == events;
    LogStaysSourced(Run(c0, events[..j]), members, early, late, p.message.candidate);
    LogIsSourced(c, members, late, p.to);
    SameLastTerm(c.nodes[p.to].log, Run(c0, events[..j]).nodes[p.message.candidate].log, members, late);
  }

  lemma LogIsSourced(c: Cluster, members: set<NodeId>, h: History, i: NodeId)
    requires Inv(c, members, h) && i in c.nodes
    ensures AllSourced(c.nodes[i].log, h) && GoodReigns(members, h)
  {
    assert GoodNode(c.nodes[i], members, h);
  }

  lemma LogStaysSourced(c: Cluster, members: set<NodeId>, early: History, late: History, i: NodeId)
    requires Inv(c, members, early) && i in c.nodes && Extends(early, late)
    ensures AllSourced(c.nodes[i].log, late)
  {
    hide Extends;
    assert GoodNode(c.nodes[i], members, early);
    GoodLogGrows(c.nodes[i].log, c.nodes[i].term, c.nodes[i].term, early, late);
  }

  /** Of two sourced logs that end in the same term, the longer extends the
      other. */
  lemma SameLastTerm(a: seq<LogEntry>, b: seq<LogEntry>, members: set<NodeId>, h: History)
    requires AllSourced(a, h) && AllSourced(b, h) && GoodReigns(members, h)
    ensures LastLogTerm(a) == LastLogTerm(b) && |a| <= |b| ==> a <= b
  {
    hide AllSourced;
    if a != [] {
      SourcedBySource(a, members, h);
    }
    if b != [] {
      SourcedBySource(b, members, h);
    }
  }
}
