/** The total order on ballots: by round, then by proposer name. */
module Ballots {
  import opened Core
  import opened Names

  datatype Ballot = Ballot(round: nat, proposer: NodeId)

  predicate Less(a: Ballot, b: Ballot) {
    a.round < b.round || (a.round == b.round && NameLess(a.proposer, b.proposer))
  }

  predicate AtMost(a: Ballot, b: Ballot) {
    a == b || Less(a, b)
  }

  /** Ballots are totally ordered. */
  lemma BallotsOrdered(a: Ballot, b: Ballot)
    ensures Less(a, b) <==> !AtMost(b, a)
  {
    NamesOrdered(a.proposer, b.proposer);
  }

  lemma AtMostTransitive(a: Ballot, b: Ballot, c: Ballot)
    requires AtMost(a, b) && AtMost(b, c)
    ensures AtMost(a, c)
  {
    if a.round == b.round == c.round && NameLess(a.proposer, b.proposer) && NameLess(b.proposer, c.proposer) {
      NamesTransitive(a.proposer, b.proposer, c.proposer);
    }
  }
}

/** One Paxos node: what each handler means, and the mutable node. */
module PaxosNodes {
  import opened Core
  import opened Quorums
  import opened Ballots
  import opened Names

  /** A slot is a 64-bit number. */
  datatype Value = Value(slot: u64, command: seq<byte>)

  datatype Proposal = Proposal(ballot: Ballot, value: Value)

  datatype Message =
    | Prepare(ballot: Ballot)
    | Promise(ballot: Ballot, accepted: seq<Proposal>)
    | Accept(ballot: Ballot, value: Value)
    | Accepted(ballot: Ballot, acceptor: NodeId, value: Value)
    | Decision(ballot: Ballot, value: Value)

  datatype Outbound = Outbound(to: NodeId, message: Message)

  datatype PaxosError = InvalidMembership | BallotOverflow | NotProposer | InvalidSlot

  type Reply = Result<seq<Outbound>, PaxosError>

  datatype Node = Node(
    id: NodeId, members: set<NodeId>, ballot: Ballot, promised: Option<Ballot>,
    accepted: map<nat, Proposal>, promises: set<NodeId>, acceptedVotes: map<nat, set<NodeId>>)

  datatype Stepped = Stepped(node: Node, reply: Reply)

  function NewNode(id: NodeId, members: set<NodeId>): Result<Node, PaxosError> {
    if members == {} || id !in members then Err(InvalidMembership)
    else Ok(Node(id, members, Ballot(0, id), None, map[], {}, map[]))
  }

  /** The same message to each of some nodes, in order. */
  function ToEach(names: seq<NodeId>, m: Message): (packets: seq<Outbound>)
    ensures |packets| == |names| && forall i | 0 <= i < |names| :: packets[i] == Outbound(names[i], m)
  {
    seq(|names|, i requires 0 <= i < |names| => Outbound(names[i], m))
  }

  lemma ToEachReaches(names: seq<NodeId>, m: Message)
    ensures forall p :: p in ToEach(names, m) <==> p.to in names && p.message == m
  {
    forall p: Outbound | p.to in names && p.message == m ensures p in ToEach(names, m) {
      var i :| 0 <= i < |names| && names[i] == p.to;
      assert ToEach(names, m)[i] == p;
    }
  }

  /** The same message to every member, in ascending order of names. */
  function ToAll(members: set<NodeId>, m: Message): (packets: seq<Outbound>)
    ensures forall p :: p in packets <==> p.to in members && p.message == m
  {
    ToEachReaches(InOrder(members), m);
    ToEach(InOrder(members), m)
  }

  /** The same message to every member but one. */
  function ToOthers(members: set<NodeId>, self: NodeId, m: Message): (packets: seq<Outbound>)
    ensures forall p :: p in packets <==> p.to in members && p.to != self && p.message == m
  {
    ToEachReaches(Except(InOrder(members), self), m);
    ToEach(Except(InOrder(members), self), m)
  }

  /** Both address their nodes once each, in strictly ascending order. */
  lemma AddressedInOrder(members: set<NodeId>, self: NodeId, m: Message, i: nat, j: nat)
    requires i < j
    ensures j < |ToAll(members, m)| ==> NameLess(ToAll(members, m)[i].to, ToAll(members, m)[j].to)
    ensures j < |ToOthers(members, self, m)| ==>
              NameLess(ToOthers(members, self, m)[i].to, ToOthers(members, self, m)[j].to)
  {
    ExceptAscending(InOrder(members), self);
  }

  function StepStartRound(n: Node): Stepped {
    if n.ballot.round == U64_MAX then Stepped(n, Err(BallotOverflow))
    else
      var n1 := n.(ballot := n.ballot.(round := n.ballot.round + 1), promises := {n.id});
      Stepped(n1, Ok(ToOthers(n.members, n.id, Prepare(n1.ballot))))
  }

  function StepPropose(n: Node, v: Value): Stepped {
    if v.slot == 0 then Stepped(n, Err(InvalidSlot))
    else if |n.promises| < Majority(n.members) then Stepped(n, Err(NotProposer))
    else Stepped(n, Ok(ToAll(n.members, Accept(n.ballot, v))))
  }

  /** The stored proposal gives way only to a higher ballot. */
  predicate Replaces(accepted: map<nat, Proposal>, p: Proposal) {
    p.value.slot in accepted ==> Less(accepted[p.value.slot].ballot, p.ballot)
  }

  function MergeOne(accepted: map<nat, Proposal>, p: Proposal): map<nat, Proposal> {
    if Replaces(accepted, p) then accepted[p.value.slot := p] else accepted
  }

  function MergeAll(accepted: map<nat, Proposal>, reported: seq<Proposal>): map<nat, Proposal> {
    if reported == [] then accepted
    else MergeOne(MergeAll(accepted, reported[..|reported| - 1]), reported[|reported| - 1])
  }

  /** Restoring one accepted value from durable storage. */
  function StepRestore(n: Node, p: Proposal): Stepped {
    if p.value.slot == 0 then Stepped(n, Err(InvalidSlot))
    else Stepped(n.(accepted := MergeOne(n.accepted, p)), Ok([]))
  }

  predicate PromisedAbove(n: Node, b: Ballot) {
    n.promised.Some? && Less(b, n.promised.value)
  }

  /** The accepted values in slot order, up to a slot. */
  function Listed(accepted: map<nat, Proposal>, below: nat): seq<Proposal> {
    if below == 0 then []
    else Listed(accepted, below - 1) + if below - 1 in accepted then [accepted[below - 1]] else []
  }

  function AllListed(accepted: map<nat, Proposal>): seq<Proposal> {
    Listed(accepted, U64_MAX + 1)
  }

  function StepPrepare(n: Node, from: NodeId, b: Ballot): Stepped {
    if PromisedAbove(n, b) then Stepped(n, Ok([]))
    else Stepped(n.(promised := Some(b)), Ok([Outbound(from, Promise(b, AllListed(n.accepted)))]))
  }

  function StepPromise(n: Node, from: NodeId, b: Ballot, reported: seq<Proposal>): Stepped {
    if b != n.ballot then Stepped(n, Ok([]))
    else Stepped(n.(promises := n.promises + {from}, accepted := MergeAll(n.accepted, reported)), Ok([]))
  }

  function StepAccept(n: Node, b: Ballot, v: Value): Stepped {
    if PromisedAbove(n, b) then Stepped(n, Ok([]))
    else
      Stepped(n.(promised := Some(b), accepted := n.accepted[v.slot := Proposal(b, v)]),
              Ok([Outbound(b.proposer, Accepted(b, n.id, v))]))
  }

  function StepAccepted(n: Node, b: Ballot, acceptor: NodeId, v: Value): Stepped {
    if b != n.ballot then Stepped(n, Ok([]))
    else
      var votes := (if v.slot in n.acceptedVotes then n.acceptedVotes[v.slot] else {}) + {acceptor};
      Stepped(n.(acceptedVotes := n.acceptedVotes[v.slot := votes]),
              Ok(if |votes| >= Majority(n.members) then ToAll(n.members, Decision(b, v)) else []))
  }

  function StepReceive(n: Node, from: NodeId, m: Message): Stepped {
    match m
    case Prepare(b) => StepPrepare(n, from, b)
    case Promise(b, reported) => StepPromise(n, from, b, reported)
    case Accept(b, v) => StepAccept(n, b, v)
    case Accepted(b, acceptor, v) => StepAccepted(n, b, acceptor, v)
    case Decision(b, v) => Stepped(n.(accepted := n.accepted[v.slot := Proposal(b, v)]), Ok([]))
  }

  class PaxosNode {
    const id: NodeId
    const members: set<NodeId>
    var ballot: Ballot
    var promised: Option<Ballot>
    var accepted: map<nat, Proposal>
    var promises: set<NodeId>
    var acceptedVotes: map<nat, set<NodeId>>

    function State(): Node
      reads this
    {
      Node(id, members, ballot, promised, accepted, promises, acceptedVotes)
    }

    constructor (id: NodeId, members: set<NodeId>)
      requires id in members
      ensures Ok(State()) == NewNode(id, members)
    {
      this.id, this.members := id, members;
      ballot, promised, accepted, promises, acceptedVotes := Ballot(0, id), None, map[], {}, map[];
    }

    /** Construction, which refuses a membership without this node. */
    static method Create(id: NodeId, members: set<NodeId>) returns (r: Result<PaxosNode, PaxosError>)
      ensures (if r.Ok? then Ok(r.value.State()) else Err(r.error)) == NewNode(id, members)
      ensures r.Ok? ==> fresh(r.value)
    {
      if members == {} || id !in members {
        return Err(InvalidMembership);
      }
      var node := new PaxosNode(id, members);
      r := Ok(node);
    }

    method StartRound() returns (r: Reply)
      modifies this
      ensures Stepped(State(), r) == StepStartRound(old(State()))
    {
      if ballot.round == U64_MAX {
        return Err(BallotOverflow);
      }
      ballot := ballot.(round := ballot.round + 1);
      promises := {};
      promises := promises + {id};
      var packets := [];
      var names := InOrder(members);
      for i := 0 to |names|
        invariant packets == ToEach(Except(names[..i], id), Prepare(ballot))
      {
        assert names[..i + 1][..i] == names[..i];
        if names[i] != id {
          packets := packets + [Outbound(names[i], Prepare(ballot))];
        }
      }
      assert names[..|names|] == names;
      r := Ok(packets);
    }

    method Propose(v: Value) returns (r: Reply)
      ensures Stepped(State(), r) == StepPropose(State(), v)
    {
      if v.slot == 0 {
        return Err(InvalidSlot);
      }
      if |promises| < |members| / 2 + 1 {
        return Err(NotProposer);
      }
      var packets := ToEveryone(Accept(ballot, v));
      r := Ok(packets);
    }

    method RestoreAccepted(p: Proposal) returns (r: Reply)
      modifies this
      ensures Stepped(State(), r) == StepRestore(old(State()), p)
    {
      if p.value.slot == 0 {
        return Err(InvalidSlot);
      }
      MergeInto(p);
      r := Ok([]);
    }

    method Receive(from: NodeId, m: Message) returns (r: Reply)
      modifies this
      ensures Stepped(State(), r) == StepReceive(old(State()), from, m)
    {
      match m
      case Prepare(b) =>
        if promised.Some? && Less(b, promised.value) {
          return Ok([]);
        }
        promised := Some(b);
        r := Ok([Outbound(from, Promise(b, AllListed(accepted)))]);
      case Promise(b, reported) =>
        r := OnPromise(from, b, reported);
      case Accept(b, v) =>
        if promised.Some? && Less(b, promised.value) {
          return Ok([]);
        }
        promised := Some(b);
        accepted := accepted[v.slot := Proposal(b, v)];
        r := Ok([Outbound(b.proposer, Accepted(b, id, v))]);
      case Accepted(b, acceptor, v) =>
        r := OnAccepted(b, acceptor, v);
      case Decision(b, v) =>
        accepted := accepted[v.slot := Proposal(b, v)];
        r := Ok([]);
    }

    method OnPromise(from: NodeId, b: Ballot, reported: seq<Proposal>) returns (r: Reply)
      modifies this
      ensures Stepped(State(), r) == StepPromise(old(State()), from, b, reported)
    {
      if b != ballot {
        return Ok([]);
      }
      promises := promises + {from};
      ghost var before := State();
      for i := 0 to |reported|
        invariant State() == before.(accepted := MergeAll(before.accepted, reported[..i]))
      {
        assert reported[..i + 1][..i] == reported[..i];
        MergeInto(reported[i]);
      }
      assert reported[..|reported|] == reported;
      r := Ok([]);
    }

    method OnAccepted(b: Ballot, acceptor: NodeId, v: Value) returns (r: Reply)
      modifies this
      ensures Stepped(State(), r) == StepAccepted(old(State()), b, acceptor, v)
    {
      if b != ballot {
        return Ok([]);
      }
      var votes := if v.slot in acceptedVotes then acceptedVotes[v.slot] else {};
      votes := votes + {acceptor};
      acceptedVotes := acceptedVotes[v.slot := votes];
      if |votes| >= |members| / 2 + 1 {
        var packets := ToEveryone(Decision(b, v));
        return Ok(packets);
      }
      r := Ok([]);
    }

    /** The traversal of the members that addresses each of them. */
    method ToEveryone(m: Message) returns (packets: seq<Outbound>)
      ensures packets == ToAll(members, m)
    {
      var names := InOrder(members);
      packets := [];
      for i := 0 to |names|
        invariant packets == ToEach(names[..i], m)
      {
        packets := packets + [Outbound(names[i], m)];
      }
      assert names[..|names|] == names;
    }

    /** Keeps the higher ballot for the proposal's slot. */
    method MergeInto(p: Proposal)
      modifies this`accepted
      ensures accepted == MergeOne(old(accepted), p)
    {
      var slot := p.value.slot;
      if slot !in accepted || Less(accepted[slot].ballot, p.ballot) {
        accepted := accepted[slot := p];
      }
    }
  }

  /** Every accepted value is stored under its own slot. */
  ghost predicate Slotted(accepted: map<nat, Proposal>) {
    forall s <- accepted :: accepted[s].value.slot == s
  }

  /** Merging keeps, for every slot, a proposal of the highest ballot among the
      stored one and those reported, and nothing else. */
  lemma {:induction false} MergeKeepsHighest(accepted: map<nat, Proposal>, reported: seq<Proposal>, slot: nat)
    requires Slotted(accepted)
    ensures var merged := MergeAll(accepted, reported);
            && Slotted(merged)
            && (slot in merged <==> slot in accepted || exists p <- reported :: p.value.slot == slot)
            && (slot in merged ==>
                  (slot in accepted && merged[slot] == accepted[slot]) || merged[slot] in reported)
            && (slot in accepted ==> AtMost(accepted[slot].ballot, merged[slot].ballot))
            && (forall p <- reported :: p.value.slot == slot ==> AtMost(p.ballot, merged[slot].ballot))
  {
    if reported != [] {
      var front, p := reported[..|reported| - 1], reported[|reported| - 1];
      MergeKeepsHighest(accepted, front, slot);
      var before := MergeAll(accepted, front);
      if p.value.slot == slot && slot in before {
        BallotsOrdered(before[slot].ballot, p.ballot);
        BallotsOrdered(p.ballot, before[slot].ballot);
        forall q | q in front && q.value.slot == slot && Replaces(before, p)
          ensures AtMost(q.ballot, p.ballot)
        {
          AtMostTransitive(q.ballot, before[slot].ballot, p.ballot);
        }
        if slot in accepted && Replaces(before, p) {
          AtMostTransitive(accepted[slot].ballot, before[slot].ballot, p.ballot);
        }
      }
      assert forall q :: q in reported <==> q in front || q == p;
    }
  }

  /** A report lists exactly the accepted values. */
  lemma {:induction false} ListedIsExact(accepted: map<nat, Proposal>, below: nat, p: Proposal)
    requires Slotted(accepted)
    ensures p in Listed(accepted, below)
       <==> p.value.slot < below && p.value.slot in accepted && accepted[p.value.slot] == p
  {
    if below > 0 {
      ListedIsExact(accepted, below - 1, p);
    }
  }
}

/** The acceptors' discipline and the proposers' quorums, over every run. */
module PaxosSafety {
  import opened Core
  import opened Quorums
  import opened Ballots
  import opened Names
  import opened PaxosNodes

  datatype Packet = Packet(from: NodeId, to: NodeId, message: Message)

  /** Packets are never removed: loss, duplication and reordering are runs. */
  datatype Cluster = Cluster(nodes: map<NodeId, Node>, packets: set<Packet>)

  datatype Event =
    | Started(node: NodeId)
    | Proposed(node: NodeId, value: Value)
    | RestoredAccepted(node: NodeId, proposal: Proposal)
    | Delivered(packet: Packet)

  function Initial(members: set<NodeId>): Cluster {
    Cluster(map m | m in members :: NewNode(m, members).value, {})
  }

  function Target(e: Event): NodeId {
    if e.Delivered? then e.packet.to else e.node
  }

  predicate Enabled(c: Cluster, e: Event) {
    Target(e) in c.nodes && (e.Delivered? ==> e.packet in c.packets)
  }

  function StepNode(n: Node, e: Event): Stepped {
    match e
    case Started(_) => StepStartRound(n)
    case Proposed(_, v) => StepPropose(n, v)
    case RestoredAccepted(_, p) => StepRestore(n, p)
    case Delivered(p) => StepReceive(n, p.from, p.message)
  }

  /** The packets a node sends in one event, each marked with its sender. */
  function Sent(c: Cluster, e: Event): set<Packet> {
    if !Enabled(c, e) then {}
    else
      var reply := StepNode(c.nodes[Target(e)], e).reply;
      if reply.Ok? then set o | o in reply.value :: Packet(Target(e), o.to, o.message) else {}
  }

  function Next(c: Cluster, e: Event): Cluster {
    if !Enabled(c, e) then c
    else Cluster(c.nodes[Target(e) := StepNode(c.nodes[Target(e)], e).node], c.packets + Sent(c, e))
  }

  function Run(members: set<NodeId>, events: seq<Event>): Cluster {
    if events == [] then Initial(members)
    else Next(Run(members, events[..|events| - 1]), events[|events| - 1])
  }

  // -------------------------------------------------------------- invariant

  predicate PromisedAtLeast(n: Node, b: Ballot) {
    n.promised.Some? && AtMost(b, n.promised.value)
  }

  /** A packet that binds its sender as an acceptor to ballot b. */
  predicate Binds(p: Packet, b: Ballot) {
    (p.message.Promise? || p.message.Accepted?) && p.message.ballot == b
  }

  /** m is b's proposer, or has promised b to it. */
  ghost predicate Backs(packets: set<Packet>, m: NodeId, b: Ballot) {
    m == b.proposer
    || exists p | p in packets ::
         p.from == m && p.to == b.proposer && p.message.Promise? && p.message.ballot == b
  }

  ghost function Backers(members: set<NodeId>, packets: set<Packet>, b: Ballot): set<NodeId> {
    set m | m in members && Backs(packets, m, b)
  }

  /** m has told b's proposer that it accepted a value for the slot, under b or
      an earlier ballot of the same proposer. */
  ghost predicate Voted(packets: set<Packet>, m: NodeId, b: Ballot, slot: nat) {
    exists p | p in packets ::
      p.from == m && p.to == b.proposer && p.message.Accepted? && p.message.value.slot == slot
      && p.message.ballot.proposer == b.proposer && p.message.ballot.round <= b.round
  }

  ghost function Voters(members: set<NodeId>, packets: set<Packet>, b: Ballot, slot: nat): set<NodeId> {
    set m | m in members && Voted(packets, m, b, slot)
  }

  ghost predicate GoodVotes(n: Node, members: set<NodeId>, packets: set<Packet>) {
    forall slot <- n.acceptedVotes :: n.acceptedVotes[slot] <= Voters(members, packets, n.ballot, slot)
  }

  /** b's proposer has asked for the value to be accepted under b. */
  ghost predicate Asked(packets: set<Packet>, b: Ballot, v: Value) {
    exists q | q in packets :: q.from == b.proposer && q.message == Accept(b, v)
  }

  ghost predicate GoodNode(n: Node, members: set<NodeId>, packets: set<Packet>) {
    && n.members == members && n.id in members && n.ballot.proposer == n.id
    && n.promises <= Backers(members, packets, n.ballot)
    && GoodVotes(n, members, packets) && Slotted(n.accepted)
  }

  ghost predicate GoodPacket(p: Packet, members: set<NodeId>, nodes: map<NodeId, Node>, packets: set<Packet>) {
    && p.from in members && p.from in nodes
    && (Binds(p, p.message.ballot) ==> PromisedAtLeast(nodes[p.from], p.message.ballot))
    && (p.message.Accept? ==>
          p.message.ballot.proposer == p.from && |Backers(members, packets, p.message.ballot)| >= Majority(members))
    && (p.message.Accepted? || p.message.Decision? ==> Asked(packets, p.message.ballot, p.message.value))
    && (p.message.Accepted? ==> p.message.acceptor == p.from && p.to == p.message.ballot.proposer)
    && (p.message.Decision? ==>
          p.message.ballot.proposer == p.from
          && |Voters(members, packets, p.message.ballot, p.message.value.slot)| >= Majority(members))
  }

  ghost predicate Inv(members: set<NodeId>, c: Cluster) {
    && c.nodes.Keys == members
    && (forall i | i in c.nodes :: c.nodes[i].id == i && GoodNode(c.nodes[i], members, c.packets))
    && (forall p | p in c.packets :: GoodPacket(p, members, c.nodes, c.packets))
  }

  lemma BackersGrow(members: set<NodeId>, packets: set<Packet>, more: set<Packet>, b: Ballot)
    requires packets <= more
    ensures Backers(members, packets, b) <= Backers(members, more, b)
    ensures |Backers(members, packets, b)| <= |Backers(members, more, b)|
  {
    SubsetCardinality(Backers(members, packets, b), Backers(members, more, b));
  }

  /** Votes for a ballot also count for a later one of the same proposer. */
  lemma VotersGrow(members: set<NodeId>, packets: set<Packet>, more: set<Packet>, b: Ballot, b': Ballot, slot: nat)
    requires packets <= more && b.proposer == b'.proposer && b.round <= b'.round
    ensures Voters(members, packets, b, slot) <= Voters(members, more, b', slot)
    ensures |Voters(members, packets, b, slot)| <= |Voters(members, more, b', slot)|
  {
    SubsetCardinality(Voters(members, packets, b, slot), Voters(members, more, b', slot));
  }

  lemma VotesStayGood(n: Node, members: set<NodeId>, packets: set<Packet>, more: set<Packet>, b': Ballot)
    requires packets <= more && n.ballot.proposer == b'.proposer && n.ballot.round <= b'.round
    requires GoodVotes(n, members, packets)
    ensures GoodVotes(n.(ballot := b'), members, more)
  {
    hide Voters;
    forall slot | slot in n.acceptedVotes
      ensures n.acceptedVotes[slot] <= Voters(members, more, b', slot)
    {
      VotersGrow(members, packets, more, n.ballot, b', slot);
    }
  }

  /** Promises only rise, whatever a node does. */
  lemma PromiseRises(n: Node, e: Event, b: Ballot)
    requires PromisedAtLeast(n, b)
    ensures PromisedAtLeast(StepNode(n, e).node, b)
  {
    var n' := StepNode(n, e).node;
    if n'.promised != n.promised {
      BallotsOrdered(n'.promised.value, n.promised.value);
      AtMostTransitive(b, n.promised.value, n'.promised.value);
    }
  }

  /** A binding packet carries the sender's promise of that moment. */
  lemma BoundWhenSent(c: Cluster, e: Event, p: Packet)
    requires Enabled(c, e) && p in Sent(c, e) && Binds(p, p.message.ballot)
    ensures p.from == Target(e) && StepNode(c.nodes[p.from], e).node.promised == Some(p.message.ballot)
    ensures !PromisedAbove(c.nodes[p.from], p.message.ballot)
  {
  }

  lemma BallotRises(n: Node, e: Event)
    ensures var n' := StepNode(n, e).node;
            && n'.id == n.id && n'.members == n.members
            && n'.ballot.proposer == n.ballot.proposer && n'.ballot.round >= n.ballot.round
  {
  }

  lemma SenderPromises(members: set<NodeId>, c: Cluster, e: Event)
    requires Inv(members, c) && Enabled(c, e)
    ensures var n' := StepNode(c.nodes[Target(e)], e).node;
            n'.promises <= Backers(members, Next(c, e).packets, n'.ballot)
  {
    hide GoodVotes, Voters;
    var n := c.nodes[Target(e)];
    assert GoodNode(n, members, c.packets);
    BackersGrow(members, c.packets, Next(c, e).packets, n.ballot);
    if e.Delivered? {
      assert GoodPacket(e.packet, members, c.nodes, c.packets);
    }
  }

  /** The slot and acceptor whose vote an event counts at a node, if any. */
  predicate Counts(n: Node, e: Event) {
    e.Delivered? && e.packet.message.Accepted? && e.packet.message.ballot == n.ballot
  }

  lemma VotesAfter(n: Node, e: Event, slot: nat, m: NodeId)
    ensures var votes := StepNode(n, e).node.acceptedVotes;
            slot in votes && m in votes[slot] ==>
              (slot in n.acceptedVotes && m in n.acceptedVotes[slot])
              || (Counts(n, e) && slot == e.packet.message.value.slot && m == e.packet.message.acceptor)
    ensures Counts(n, e) ==> StepNode(n, e).node.ballot == n.ballot
  {
  }

  lemma SenderVotes(members: set<NodeId>, c: Cluster, e: Event)
    requires Inv(members, c) && Enabled(c, e)
    ensures GoodVotes(StepNode(c.nodes[Target(e)], e).node, members, Next(c, e).packets)
  {
    hide StepNode, Backers;
    var n, n' := c.nodes[Target(e)], StepNode(c.nodes[Target(e)], e).node;
    var more := Next(c, e).packets;
    assert GoodNode(n, members, c.packets);
    BallotRises(n, e);
    VotesStayGood(n, members, c.packets, more, n'.ballot);
    forall slot, m | slot in n'.acceptedVotes && m in n'.acceptedVotes[slot]
      ensures m in Voters(members, more, n'.ballot, slot)
    {
      VotesAfter(n, e, slot, m);
      if Counts(n, e) && slot == e.packet.message.value.slot && m == e.packet.message.acceptor {
        assert GoodPacket(e.packet, members, c.nodes, c.packets);
        assert Voted(more, m, n'.ballot, slot);
      }
    }
  }

  lemma SenderSlotted(n: Node, e: Event)
    requires Slotted(n.accepted)
    ensures Slotted(StepNode(n, e).node.accepted)
  {
    if e.Delivered? && e.packet.message.Promise? {
      MergeSlotted(n.accepted, e.packet.message.accepted);
    }
  }

  lemma {:induction false} MergeSlotted(accepted: map<nat, Proposal>, reported: seq<Proposal>)
    requires Slotted(accepted)
    ensures Slotted(MergeAll(accepted, reported))
  {
    if reported != [] {
      MergeSlotted(accepted, reported[..|reported| - 1]);
    }
  }

  lemma SenderStaysGood(members: set<NodeId>, c: Cluster, e: Event)
    requires Inv(members, c) && Enabled(c, e)
    ensures var n' := StepNode(c.nodes[Target(e)], e).node;
            n'.id == Target(e) && GoodNode(n', members, Next(c, e).packets)
  {
    hide StepNode, Backers, Voters, GoodVotes;
    assert GoodNode(c.nodes[Target(e)], members, c.packets);
    BallotRises(c.nodes[Target(e)], e);
    SenderPromises(members, c, e);
    SenderVotes(members, c, e);
    SenderSlotted(c.nodes[Target(e)], e);
  }

  lemma NextKeepsInv(members: set<NodeId>, c: Cluster, e: Event)
    requires Inv(members, c) && Enabled(c, e)
    ensures Inv(members, Next(c, e))
  {
    hide StepNode, Backers, Voters, GoodPacket;
    var c' := Next(c, e);
    SenderStaysGood(members, c, e);
    forall i | i in c'.nodes ensures c'.nodes[i].id == i && GoodNode(c'.nodes[i], members, c'.packets) {
      if i != Target(e) {
        BackersGrow(members, c.packets, c'.packets, c.nodes[i].ballot);
        VotesStayGood(c.nodes[i], members, c.packets, c'.packets, c.nodes[i].ballot);
      }
    }
    forall p | p in c'.packets ensures GoodPacket(p, members, c'.nodes, c'.packets) {
      if p in c.packets {
        OldPacketStaysGood(members, c, e, p);
      } else {
        NewPacketIsGood(members, c, e, p);
      }
    }
  }

  lemma OldPacketStaysGood(members: set<NodeId>, c: Cluster, e: Event, p: Packet)
    requires Inv(members, c) && Enabled(c, e) && p in c.packets
    ensures GoodPacket(p, members, Next(c, e).nodes, Next(c, e).packets)
  {
    hide StepNode, Backers, Voters, GoodNode;
    assert GoodPacket(p, members, c.nodes, c.packets);
    BackersGrow(members, c.packets, Next(c, e).packets, p.message.ballot);
    if p.message.Decision? {
      VotersGrow(members, c.packets, Next(c, e).packets, p.message.ballot, p.message.ballot, p.message.value.slot);
    }
    if p.from == Target(e) && Binds(p, p.message.ballot) {
      PromiseRises(c.nodes[p.from], e, p.message.ballot);
    }
  }

  /** What the sender of each kind of packet knew at that moment. */
  lemma SentFacts(n: Node, e: Event, o: Outbound)
    requires StepNode(n, e).reply.Ok? && o in StepNode(n, e).reply.value
    ensures var n' := StepNode(n, e).node;
            && (o.message.Promise? || o.message.Accepted? ==> n'.promised == Some(o.message.ballot))
            && (o.message.Accept? ==>
                  o.message.ballot == n'.ballot && |n'.promises| >= Majority(n.members))
            && (o.message.Accepted? ==> o.message.acceptor == n.id && o.to == o.message.ballot.proposer)
            && (o.message.Decision? ==>
                  && o.message.ballot == n'.ballot && o.message.value.slot in n'.acceptedVotes
                  && |n'.acceptedVotes[o.message.value.slot]| >= Majority(n.members))
            && (o.message.Accepted? || o.message.Decision? ==>
                  e.Delivered? && (e.packet.message.Accept? || e.packet.message.Accepted?)
                  && e.packet.message.ballot == o.message.ballot && e.packet.message.value == o.message.value)
  {
  }

  lemma NewPacketIsGood(members: set<NodeId>, c: Cluster, e: Event, p: Packet)
    requires Inv(members, c) && Enabled(c, e) && p in Sent(c, e)
    ensures GoodPacket(p, members, Next(c, e).nodes, Next(c, e).packets)
  {
    hide StepNode, Backers, Voters;
    var n, more := c.nodes[Target(e)], Next(c, e).packets;
    assert GoodNode(n, members, c.packets);
    SenderStaysGood(members, c, e);
    var n' := StepNode(n, e).node;
    assert GoodNode(n', members, more);
    SentFacts(n, e, Outbound(p.to, p.message));
    if p.message.Accepted? || p.message.Decision? {
      assert GoodPacket(e.packet, members, c.nodes, c.packets);
    }
    if p.message.Accept? {
      SubsetCardinality(n'.promises, Backers(members, more, n'.ballot));
    }
    if p.message.Decision? {
      var slot := p.message.value.slot;
      SubsetCardinality(n'.acceptedVotes[slot], Voters(members, more, n'.ballot, slot));
    }
  }

  lemma {:induction false} RunInv(members: set<NodeId>, events: seq<Event>)
    ensures Inv(members, Run(members, events))
  {
    hide Next;
    if events != [] {
      var before := events[..|events| - 1];
      RunInv(members, before);
      NextInv(members, Run(members, before), events[|events| - 1]);
    }
  }

  lemma NextInv(members: set<NodeId>, c: Cluster, e: Event)
    requires Inv(members, c)
    ensures Inv(members, Next(c, e))
  {
    hide StepNode, Inv;
    if Enabled(c, e) {
      NextKeepsInv(members, c, e);
    }
  }

  lemma {:induction false} PacketsStay(members: set<NodeId>, events: seq<Event>, j: nat)
    requires j <= |events|
    ensures Run(members, events[..j]).packets <= Run(members, events).packets
  {
    hide StepNode;
    if j == |events| {
      assert events[..j] == events;
    } else {
      var before := events[..|events| - 1];
      assert before[..j] == events[..j];
      PacketsStay(members, before, j);
    }
  }

  /** Promise discipline: an acceptor that has sent Promise(b), or Accepted for
      b, never again sends a Promise or an Accepted for a lower ballot. */
  lemma PromiseDiscipline(members: set<NodeId>, events: seq<Event>, j: nat, k: nat, earlier: Packet, later: Packet)
    requires j <= k < |events|
    requires earlier in Run(members, events[..j]).packets && Binds(earlier, earlier.message.ballot)
    requires later in Sent(Run(members, events[..k]), events[k]) && Binds(later, later.message.ballot)
    requires earlier.from == later.from
    ensures AtMost(earlier.message.ballot, later.message.ballot)
  {
    hide StepNode, Run, Sent;
    var c := Run(members, events[..k]);
    RunInv(members, events[..k]);
    PacketsStay(members, events[..k], j);
    assert events[..k][..j] == events[..j];
    assert GoodPacket(earlier, members, c.nodes, c.packets);
    SentEnabled(c, events[k], later);
    BoundWhenSent(c, events[k], later);
    var promised := c.nodes[earlier.from].promised.value;
    BallotsOrdered(later.message.ballot, promised);
    AtMostTransitive(earlier.message.ballot, promised, later.message.ballot);
  }

  lemma SentEnabled(c: Cluster, e: Event, p: Packet)
    requires p in Sent(c, e)
    ensures Enabled(c, e)
  {
  }

  /** Every Accept in the network was preceded by a quorum: a majority of the
      members, each of which is the ballot's proposer or has promised that
      ballot to it and has promised at least that ballot ever since. */
  lemma AcceptHasQuorum(members: set<NodeId>, events: seq<Event>, p: Packet)
    requires p in Run(members, events).packets && p.message.Accept?
    ensures var c := Run(members, events);
            var b := p.message.ballot;
            var quorum := Backers(members, c.packets, b);
            && quorum <= members && |quorum| >= Majority(members)
            && forall m | m in quorum && m != b.proposer :: m in c.nodes && PromisedAtLeast(c.nodes[m], b)
  {
    hide Run;
    RunInv(members, events);
    var c := Run(members, events);
    var b := p.message.ballot;
    assert GoodPacket(p, members, c.nodes, c.packets);
    forall m | m in Backers(members, c.packets, b) && m != b.proposer
      ensures m in c.nodes && PromisedAtLeast(c.nodes[m], b)
    {
      var q :| q in c.packets && q.from == m && q.to == b.proposer && q.message.Promise? && q.message.ballot == b;
      assert GoodPacket(q, members, c.nodes, c.packets);
    }
  }

  /** Every Decision in the network was preceded by a majority of the members
      that each accepted some value for its slot from the deciding proposer, in
      the deciding round or an earlier one. */
  lemma DecisionHasVoters(members: set<NodeId>, events: seq<Event>, p: Packet)
    requires p in Run(members, events).packets && p.message.Decision?
    ensures var voters := Voters(members, Run(members, events).packets, p.message.ballot, p.message.value.slot);
            && p.message.ballot.proposer == p.from
            && voters <= members && |voters| >= Majority(members)
  {
    hide Run;
    RunInv(members, events);
    assert GoodPacket(p, members, Run(members, events).nodes, Run(members, events).packets);
  }

  /** Every Accept in the network was sent because its proposer was asked to
      propose exactly that value. */
  lemma {:induction false} AcceptWasProposed(members: set<NodeId>, events: seq<Event>, p: Packet)
    requires p in Run(members, events).packets && p.message.Accept?
    ensures Proposed(p.from, p.message.value) in events
  {
    hide StepNode;
    if events != [] {
      var before, e := events[..|events| - 1], events[|events| - 1];
      if p in Run(members, before).packets {
        AcceptWasProposed(members, before, p);
      } else {
        AcceptSent(Run(members, before), e, p);
      }
    }
  }

  lemma AcceptSent(c: Cluster, e: Event, p: Packet)
    requires p in Sent(c, e) && p.message.Accept?
    ensures e == Proposed(p.from, p.message.value)
  {
  }

  /** Only proposed values are decided: every value accepted or decided under a
      ballot was given to that ballot's proposer in this run, which asked for it
      under that very ballot. */
  lemma OnlyProposedDecided(members: set<NodeId>, events: seq<Event>, p: Packet)
    requires p in Run(members, events).packets && (p.message.Accepted? || p.message.Decision?)
    ensures Asked(Run(members, events).packets, p.message.ballot, p.message.value)
    ensures Proposed(p.message.ballot.proposer, p.message.value) in events
  {
    hide Run;
    RunInv(members, events);
    var packets := Run(members, events).packets;
    assert GoodPacket(p, members, Run(members, events).nodes, packets);
    var q :| q in packets && q.from == p.message.ballot.proposer
             && q.message == Accept(p.message.ballot, p.message.value);
    AcceptWasProposed(members, events, q);
  }

  /** Over every run, a Promise reports exactly what its sender has accepted at
      that moment: each slot's proposal, and nothing else. */
  lemma PromiseReportsAccepted(members: set<NodeId>, events: seq<Event>, k: nat, p: Packet, x: Proposal)
    requires k < |events| && p in Sent(Run(members, events[..k]), events[k]) && p.message.Promise?
    ensures var c := Run(members, events[..k]);
            p.from in c.nodes
            && (x in p.message.accepted <==>
                  x.value.slot in c.nodes[p.from].accepted && c.nodes[p.from].accepted[x.value.slot] == x)
  {
    hide Run, Listed;
    var c := Run(members, events[..k]);
    RunInv(members, events[..k]);
    assert GoodNode(c.nodes[p.from], members, c.packets);
    ListedIsExact(c.nodes[p.from].accepted, U64_MAX + 1, x);
  }

  /** A proposer that takes such a report holds, in every slot, a proposal of the
      highest ballot among its own and those reported. */
  lemma ProposerLearnsHighest(members: set<NodeId>, events: seq<Event>, p: Packet, slot: nat)
    requires p in Run(members, events).packets && p.message.Promise? && p.to in members
    requires p.to in Run(members, events).nodes && Run(members, events).nodes[p.to].ballot == p.message.ballot
    ensures var before := Run(members, events).nodes[p.to].accepted;
            var after := Next(Run(members, events), Delivered(p)).nodes[p.to].accepted;
            && (slot in after <==> slot in before || exists x <- p.message.accepted :: x.value.slot == slot)
            && (slot in after ==>
                  (slot in before && after[slot] == before[slot]) || after[slot] in p.message.accepted)
            && (slot in before ==> AtMost(before[slot].ballot, after[slot].ballot))
            && (forall x <- p.message.accepted :: x.value.slot == slot ==> AtMost(x.ballot, after[slot].ballot))
  {
    hide Run, MergeAll;
    RunInv(members, events);
    var c := Run(members, events);
    assert GoodNode(c.nodes[p.to], members, c.packets);
    MergeKeepsHighest(c.nodes[p.to].accepted, p.message.accepted, slot);
  }
}
