/** One Raft node: the value-level meaning of every handler, and the mutable
    node whose methods are proved against it. */
module RaftNodes {
  import opened Core
  import opened Names
  import opened Quorums

  datatype Role = Follower | Candidate | Leader

  datatype LogEntry = LogEntry(term: nat, command: seq<byte>)

  datatype Message =
    | RequestVote(term: nat, candidate: NodeId, lastLogIndex: nat, lastLogTerm: nat)
    | Vote(term: nat, voter: NodeId, granted: bool)
    | AppendEntries(term: nat, leader: NodeId, prevLogIndex: nat, prevLogTerm: nat,
                    entries: seq<LogEntry>, leaderCommit: nat)
    | AppendResponse(term: nat, follower: NodeId, success: bool, matchIndex: nat)

  datatype Outbound = Outbound(to: NodeId, message: Message)

  datatype RaftError = EmptyMembership | NotLeader | IndexOverflow

  /** What a handler returns: the packets to send, or an error. */
  type Reply = Result<seq<Outbound>, RaftError>

  datatype Node = Node(
    id: NodeId,
    members: set<NodeId>,
    role: Role,
    term: nat,
    votedFor: Option<NodeId>,
    votes: set<NodeId>,
    log: seq<LogEntry>,
    commitIndex: nat,
    elapsed: nat,
    timeout: nat,
    nextIndex: map<NodeId, nat>,
    acks: set<NodeId>)

  /** A node after a handler ran, with what the handler returned. */
  datatype Stepped = Stepped(node: Node, reply: Reply)

  function NewNode(id: NodeId, members: set<NodeId>, timeout: nat): Result<Node, RaftError> {
    if members == {} || id !in members || timeout == 0 then Err(EmptyMembership)
    else Ok(Node(id, members, Follower, 0, None, {}, [], 0, 0, timeout, map[], {}))
  }

  function LastLogTerm(log: seq<LogEntry>): nat {
    if log == [] then 0 else log[|log| - 1].term
  }

  predicate UpToDate(log: seq<LogEntry>, index: nat, term: nat) {
    term > LastLogTerm(log) || (term == LastLogTerm(log) && index >= |log|)
  }

  /** The same message to each of some nodes, in order. */
  function ToEach(names: seq<NodeId>, m: Message): (packets: seq<Outbound>)
    ensures |packets| == |names| && forall i | 0 <= i < |names| :: packets[i] == Outbound(names[i], m)
  {
    seq(|names|, i requires 0 <= i < |names| => Outbound(names[i], m))
  }

  lemma ToEachReaches(names: seq<NodeId>, m: Message)
    ensures forall p :: p in ToEach(names, m) <==> p.to in names && p.message == m
  {
    forall p: Outbound | p.to in names && p.message == m ensures p in ToEach(names, m) {
      var i :| 0 <= i < |names| && names[i] == p.to;
      assert ToEach(names, m)[i] == p;
    }
  }

  /** The same message to every other member, in ascending order of names. */
  function Broadcast(n: Node, m: Message): (packets: seq<Outbound>)
    ensures forall p :: p in packets <==> p.to in n.members && p.to != n.id && p.message == m
  {
    ToEachReaches(Except(InOrder(n.members), n.id), m);
    ToEach(Except(InOrder(n.members), n.id), m)
  }

  /** Every heartbeat carries the whole log, after index 0. */
  function Heartbeats(n: Node): seq<Outbound> {
    Broadcast(n, AppendEntries(n.term, n.id, 0, 0, n.log, n.commitIndex))
  }

  function BecomeFollower(n: Node, term: nat): Node {
    n.(term := term, role := Follower, votedFor := None, votes := {}, elapsed := 0)
  }

  function BecomeLeader(n: Node): Node {
    n.(role := Leader, nextIndex := map peer | peer in n.members :: |n.log|, elapsed := 0)
  }

  function StepTick(n: Node): Stepped {
    if n.elapsed == U64_MAX then Stepped(n, Err(IndexOverflow))
    else
      var n1 := n.(elapsed := n.elapsed + 1);
      if n1.role.Leader? then Stepped(n1, Ok(Heartbeats(n1)))
      else if n1.elapsed < n1.timeout then Stepped(n1, Ok([]))
      else if n1.term == U64_MAX then Stepped(n1, Err(IndexOverflow))
      else
        var n2 := n1.(term := n1.term + 1, role := Candidate, votedFor := Some(n1.id),
                      votes := {n1.id}, elapsed := 0);
        Stepped(n2, Ok(Broadcast(n2, RequestVote(n2.term, n2.id, |n2.log|, LastLogTerm(n2.log)))))
  }

  function StepPropose(n: Node, command: seq<byte>): Stepped {
    if !n.role.Leader? then Stepped(n, Err(NotLeader))
    else
      var n1 := n.(log := n.log + [LogEntry(n.term, command)], acks := {n.id});
      Stepped(n1, Ok(Heartbeats(n1)))
  }

  /** The node after adopting a higher term carried by a message. */
  function Adopt(n: Node, term: nat): Node {
    if term > n.term then BecomeFollower(n, term) else n
  }

  function StepRequestVote(n: Node, m: Message): Stepped
    requires m.RequestVote?
  {
    var n1 := Adopt(n, m.term);
    var granted := m.term == n1.term
                   && (n1.votedFor.None? || n1.votedFor == Some(m.candidate))
                   && UpToDate(n1.log, m.lastLogIndex, m.lastLogTerm);
    var n2 := if granted then n1.(votedFor := Some(m.candidate), elapsed := 0) else n1;
    Stepped(n2, Ok([Outbound(m.candidate, Vote(n2.term, n2.id, granted))]))
  }

  function StepVote(n: Node, m: Message): Stepped
    requires m.Vote?
  {
    if m.term > n.term then Stepped(BecomeFollower(n, m.term), Ok([]))
    else if !n.role.Candidate? || m.term != n.term || !m.granted then Stepped(n, Ok([]))
    else
      var n1 := n.(votes := n.votes + {m.voter});
      if |n1.votes| >= Majority(n1.members) then
        var n2 := BecomeLeader(n1);
        Stepped(n2, Ok(Heartbeats(n2)))
      else Stepped(n1, Ok([]))
  }

  /** Position m of the entries, counted from log position prev, is already in
      the log as far as terms tell. */
  predicate Agrees(log: seq<LogEntry>, prev: nat, entries: seq<LogEntry>, m: nat)
    requires m < |entries|
  {
    prev + m < |log| && log[prev + m].term == entries[m].term
  }

  /** Number of leading entries, from position m on, that the log already
      agrees with; the first disagreement ends the count. */
  function Agreement(log: seq<LogEntry>, prev: nat, entries: seq<LogEntry>, m: nat): (k: nat)
    requires m <= |entries|
    ensures m <= k <= |entries|
    ensures forall i | m <= i < k :: Agrees(log, prev, entries, i)
    ensures k < |entries| ==> !Agrees(log, prev, entries, k)
    decreases |entries| - m
  {
    if m == |entries| || !Agrees(log, prev, entries, m) then m
    else Agreement(log, prev, entries, m + 1)
  }

  /** Closed form of the follower's replacement loop: nothing changes when the
      log agrees with every entry; otherwise everything from the first
      disagreement on is replaced by the remaining entries. */
  function Merge(log: seq<LogEntry>, prev: nat, entries: seq<LogEntry>): seq<LogEntry>
    requires prev <= |log|
  {
    var k := Agreement(log, prev, entries, 0);
    if k == |entries| then log
    else
      assert k > 0 ==> Agrees(log, prev, entries, k - 1);
      log[..prev + k] + entries[k..]
  }

  predicate PrevMatches(log: seq<LogEntry>, prev: nat, prevTerm: nat) {
    prev <= |log| && (prev > 0 ==> log[prev - 1].term == prevTerm)
  }

  function StepAppend(n: Node, m: Message): Stepped
    requires m.AppendEntries?
  {
    var n1 := Adopt(n, m.term);
    var success := m.term == n1.term && PrevMatches(n1.log, m.prevLogIndex, m.prevLogTerm);
    var n2 := if success then
                var log := Merge(n1.log, m.prevLogIndex, m.entries);
                n1.(log := log, commitIndex := Min(m.leaderCommit, |log|), elapsed := 0)
              else n1;
    Stepped(n2, Ok([Outbound(m.leader,
      AppendResponse(n2.term, n2.id, success, if success then |n2.log| else 0))]))
  }

  function StepAppendResponse(n: Node, m: Message): Stepped
    requires m.AppendResponse?
  {
    if m.term > n.term then Stepped(BecomeFollower(n, m.term), Ok([]))
    else if n.role.Leader? && m.success then
      var n1 := n.(nextIndex := n.nextIndex[m.follower := m.matchIndex],
                   acks := n.acks + {m.follower});
      Stepped(if |n1.acks| >= Majority(n1.members)
              then n1.(commitIndex := Min(m.matchIndex, |n1.log|)) else n1,
              Ok([]))
    else Stepped(n, Ok([]))
  }

  function StepReceive(n: Node, m: Message): Stepped {
    match m
    case RequestVote(_, _, _, _) => StepRequestVote(n, m)
    case Vote(_, _, _) => StepVote(n, m)
    case AppendEntries(_, _, _, _, _, _) => StepAppend(n, m)
    case AppendResponse(_, _, _, _) => StepAppendResponse(n, m)
  }

  /** A broadcast addresses each other member once, in strictly ascending order. */
  lemma BroadcastInOrder(n: Node, m: Message, i: nat, j: nat)
    requires i < j < |Broadcast(n, m)|
    ensures NameLess(Broadcast(n, m)[i].to, Broadcast(n, m)[j].to)
  {
    ExceptAscending(InOrder(n.members), n.id);
  }

  /** The mutable node. */
  class RaftNode {
    const id: NodeId
    const members: set<NodeId>
    const timeout: nat
    var role: Role
    var term: nat
    var votedFor: Option<NodeId>
    var votes: set<NodeId>
    var log: seq<LogEntry>
    var commitIndex: nat
    var elapsed: nat
    var nextIndex: map<NodeId, nat>
    var acks: set<NodeId>

    function State(): Node
      reads this
    {
      Node(id, members, role, term, votedFor, votes, log, commitIndex, elapsed, timeout, nextIndex, acks)
    }

    constructor (id: NodeId, members: set<NodeId>, timeout: nat)
      requires id in members && timeout > 0
      ensures Ok(State()) == NewNode(id, members, timeout)
    {
      this.id, this.members, this.timeout := id, members, timeout;
      role, term, votedFor, votes := Follower, 0, None, {};
      log, commitIndex, elapsed, nextIndex, acks := [], 0, 0, map[], {};
    }

    /** Construction, which refuses an invalid membership or a zero timeout. */
    static method Create(id: NodeId, members: set<NodeId>, timeout: nat) returns (r: Result<RaftNode, RaftError>)
      ensures (if r.Ok? then Ok(r.value.State()) else Err(r.error)) == NewNode(id, members, timeout)
      ensures r.Ok? ==> fresh(r.value)
    {
      if members == {} || id !in members || timeout == 0 {
        return Err(EmptyMembership);
      }
      var node := new RaftNode(id, members, timeout);
      r := Ok(node);
    }

    method Tick() returns (r: Reply)
      modifies this
      ensures Stepped(State(), r) == StepTick(old(State()))
    {
      hide Broadcast;
      if elapsed == U64_MAX {
        return Err(IndexOverflow);
      }
      elapsed := elapsed + 1;
      if role == Leader {
        r := HeartbeatPackets();
        return;
      }
      if elapsed < timeout {
        return Ok([]);
      }
      if term == U64_MAX {
        return Err(IndexOverflow);
      }
      term := term + 1;
      role := Candidate;
      votedFor := Some(id);
      votes := {};
      votes := votes + {id};
      elapsed := 0;
      var index, lastTerm := |log|, LastLogTerm(log);
      assert State() == StepTick(old(State())).node;
      var packets := ToPeers(RequestVote(term, id, index, lastTerm));
      r := Ok(packets);
    }

    method Propose(command: seq<byte>) returns (r: Reply)
      modifies this
      ensures Stepped(State(), r) == StepPropose(old(State()), command)
    {
      if role != Leader {
        return Err(NotLeader);
      }
      log := log + [LogEntry(term, command)];
      acks := {};
      acks := acks + {id};
      r := HeartbeatPackets();
    }

    method Receive(m: Message) returns (r: Reply)
      modifies this
      ensures Stepped(State(), r) == StepReceive(old(State()), m)
    {
      match m
      case RequestVote(t, candidate, index, logTerm) =>
        r := OnRequestVote(t, candidate, index, logTerm);
      case Vote(t, voter, granted) =>
        r := OnVote(t, voter, granted);
      case AppendEntries(t, leader, prev, prevTerm, entries, commit) =>
        r := OnAppend(t, leader, prev, prevTerm, entries, commit);
      case AppendResponse(t, follower, success, matchIndex) =>
        r := OnAppendResponse(t, follower, success, matchIndex);
    }

    method OnRequestVote(t: nat, candidate: NodeId, index: nat, logTerm: nat) returns (r: Reply)
      modifies this
      ensures Stepped(State(), r)
           == StepRequestVote(old(State()), RequestVote(t, candidate, index, logTerm))
    {
      if t > term {
        StepDown(t);
      }
      var granted := t == term && (votedFor == None || votedFor == Some(candidate))
                     && UpToDate(log, index, logTerm);
      if granted {
        votedFor := Some(candidate);
        elapsed := 0;
      }
      r := Ok([Outbound(candidate, Vote(term, id, granted))]);
    }

    method OnVote(t: nat, voter: NodeId, granted: bool) returns (r: Reply)
      modifies this
      ensures Stepped(State(), r) == StepVote(old(State()), Vote(t, voter, granted))
    {
      hide Broadcast;
      if t > term {
        StepDown(t);
        return Ok([]);
      }
      if role != Candidate || t != term || !granted {
        return Ok([]);
      }
      votes := votes + {voter};
      if |votes| >= |members| / 2 + 1 {
        role := Leader;
        nextIndex := map peer | peer in members :: |log|;
        elapsed := 0;
        r := HeartbeatPackets();
      } else {
        r := Ok([]);
      }
    }

    method OnAppend(t: nat, leader: NodeId, prev: nat, prevTerm: nat,
                    entries: seq<LogEntry>, leaderCommit: nat) returns (r: Reply)
      modifies this
      ensures Stepped(State(), r)
           == StepAppend(old(State()), AppendEntries(t, leader, prev, prevTerm, entries, leaderCommit))
    {
      if t > term {
        StepDown(t);
      }
      var success := t == term;
      if success && (prev > |log| || (prev > 0 && log[prev - 1].term != prevTerm)) {
        success := false;
      }
      if success {
        Splice(prev, entries);
        commitIndex := if leaderCommit <= |log| then leaderCommit else |log|;
        elapsed := 0;
      }
      r := Ok([Outbound(leader, AppendResponse(term, id, success, if success then |log| else 0))]);
    }

    /** The replacement loop of the append handler. */
    method Splice(prev: nat, entries: seq<LogEntry>)
      requires prev <= |log|
      modifies this`log
      ensures log == Merge(old(log), prev, entries)
    {
      ghost var before := log;
      ghost var k := Agreement(before, prev, entries, 0);
      assert k > 0 ==> Agrees(before, prev, entries, k - 1);
      for offset := 0 to |entries|
        invariant log == if offset <= k then before else before[..prev + k] + entries[k..offset]
      {
        assert offset < k ==> Agrees(before, prev, entries, offset);
        var index := prev + offset;
        if index < |log| && log[index].term != entries[offset].term {
          log := log[..index];
        }
        if index >= |log| {
          log := log + [entries[offset]];
        }
        assert offset >= k ==> entries[k..offset + 1] == entries[k..offset] + [entries[offset]];
      }
    }

    method OnAppendResponse(t: nat, follower: NodeId, success: bool, matchIndex: nat)
      returns (r: Reply)
      modifies this
      ensures Stepped(State(), r)
           == StepAppendResponse(old(State()), AppendResponse(t, follower, success, matchIndex))
    {
      if t > term {
        StepDown(t);
        return Ok([]);
      }
      if role == Leader && success {
        nextIndex := nextIndex[follower := matchIndex];
        acks := acks + {follower};
        if |acks| >= |members| / 2 + 1 {
          commitIndex := if matchIndex <= |log| then matchIndex else |log|;
        }
      }
      r := Ok([]);
    }

    method HeartbeatPackets() returns (r: Reply)
      ensures r == Ok(Heartbeats(State()))
    {
      var packets := ToPeers(AppendEntries(term, id, 0, 0, log, commitIndex));
      r := Ok(packets);
    }

    /** The traversal of the members that addresses everyone but this node. */
    method ToPeers(m: Message) returns (packets: seq<Outbound>)
      ensures packets == Broadcast(State(), m)
    {
      var names := InOrder(members);
      packets := [];
      for i := 0 to |names|
        invariant packets == ToEach(Except(names[..i], id), m)
      {
        assert names[..i + 1][..i] == names[..i];
        if names[i] != id {
          packets := packets + [Outbound(names[i], m)];
        }
      }
      assert names[..|names|] == names;
    }

    method StepDown(t: nat)
      modifies this
      ensures State() == BecomeFollower(old(State()), t)
    {
      term := t;
      role := Follower;
      votedFor := None;
      votes := {};
      elapsed := 0;
    }
  }
}
