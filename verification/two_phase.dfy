/** Two-phase commit: the two state machines, their mutable forms, and one
    coordinator with any number of participants over an unreliable network. */
module TwoPhase {
  import opened Core

  datatype Decision = Commit | Abort

  datatype CoordinatorPhase = Idle | Preparing | Decided(decision: Decision)

  datatype ParticipantPhase = Working | Prepared | Committed | Aborted

  datatype CoordinatorAction = SendPrepare | SendCommit | SendAbort

  datatype ParticipantAction = ReplyPrepared | ReplyVoteAbort | ReplyCommitted | ReplyAborted

  datatype TwoPcError = AlreadyDecided | UnknownParticipant | InvalidTransition

  datatype Coordinator = Coordinator(
    participants: set<NodeId>, prepared: set<NodeId>, aborted: bool, phase: CoordinatorPhase)

  datatype CoordinatorStep = CoordinatorStep(
    after: Coordinator, result: Result<Option<CoordinatorAction>, TwoPcError>)

  datatype ParticipantStep = ParticipantStep(
    after: ParticipantPhase, result: Result<ParticipantAction, TwoPcError>)

  function NewCoordinator(participants: set<NodeId>): Result<Coordinator, TwoPcError> {
    if participants == {} then Err(InvalidTransition)
    else Ok(Coordinator(participants, {}, false, Idle))
  }

  function Begin(c: Coordinator): CoordinatorStep {
    if !c.phase.Idle? then CoordinatorStep(c, Err(AlreadyDecided))
    else CoordinatorStep(c.(phase := Preparing), Ok(Some(SendPrepare)))
  }

  function VotePrepared(c: Coordinator, p: NodeId): CoordinatorStep {
    if p !in c.participants then CoordinatorStep(c, Err(UnknownParticipant))
    else if !c.phase.Preparing? then CoordinatorStep(c, Err(AlreadyDecided))
    else
      var c1 := c.(prepared := c.prepared + {p});
      if c1.prepared == c1.participants
      then CoordinatorStep(c1.(phase := Decided(Commit)), Ok(Some(SendCommit)))
      else CoordinatorStep(c1, Ok(None))
  }

  function VoteAbort(c: Coordinator, p: NodeId): CoordinatorStep {
    if p !in c.participants then CoordinatorStep(c, Err(UnknownParticipant))
    else if !c.phase.Preparing? then CoordinatorStep(c, Err(AlreadyDecided))
    else CoordinatorStep(c.(aborted := true, phase := Decided(Abort)), Ok(Some(SendAbort)))
  }

  function Prepare(p: ParticipantPhase, canCommit: bool): ParticipantStep {
    match p
    case Prepared => ParticipantStep(p, Ok(ReplyPrepared))
    case Committed => ParticipantStep(p, Ok(ReplyCommitted))
    case Aborted => ParticipantStep(p, Ok(ReplyAborted))
    case Working =>
      if canCommit then ParticipantStep(Prepared, Ok(ReplyPrepared))
      else ParticipantStep(Aborted, Ok(ReplyVoteAbort))
  }

  function DoCommit(p: ParticipantPhase): ParticipantStep {
    if p.Prepared? then ParticipantStep(Committed, Ok(ReplyCommitted))
    else ParticipantStep(p, Err(InvalidTransition))
  }

  function DoAbort(p: ParticipantPhase): ParticipantStep {
    if p.Committed? then ParticipantStep(p, Err(InvalidTransition))
    else ParticipantStep(Aborted, Ok(ReplyAborted))
  }

  class CoordinatorNode {
    const participants: set<NodeId>
    var prepared: set<NodeId>
    var aborted: bool
    var phase: CoordinatorPhase

    function State(): Coordinator
      reads this
    {
      Coordinator(participants, prepared, aborted, phase)
    }

    constructor (participants: set<NodeId>)
      requires participants != {}
      ensures Ok(State()) == NewCoordinator(participants)
    {
      this.participants, prepared, aborted, phase := participants, {}, false, Idle;
    }

    /** Construction, which refuses an empty set of participants. */
    static method Create(participants: set<NodeId>) returns (r: Result<CoordinatorNode, TwoPcError>)
      ensures (if r.Ok? then Ok(r.value.State()) else Err(r.error)) == NewCoordinator(participants)
      ensures r.Ok? ==> fresh(r.value)
    {
      if participants == {} {
        return Err(InvalidTransition);
      }
      var node := new CoordinatorNode(participants);
      r := Ok(node);
    }

    method Start() returns (r: Result<Option<CoordinatorAction>, TwoPcError>)
      modifies this
      ensures CoordinatorStep(State(), r) == Begin(old(State()))
    {
      if phase != Idle {
        return Err(AlreadyDecided);
      }
      phase := Preparing;
      r := Ok(Some(SendPrepare));
    }

    method OnPrepared(p: NodeId) returns (r: Result<Option<CoordinatorAction>, TwoPcError>)
      modifies this
      ensures CoordinatorStep(State(), r) == VotePrepared(old(State()), p)
    {
      if p !in participants {
        return Err(UnknownParticipant);
      }
      if phase != Preparing {
        return Err(AlreadyDecided);
      }
      prepared := prepared + {p};
      if prepared == participants {
        phase := Decided(Commit);
        return Ok(Some(SendCommit));
      }
      r := Ok(None);
    }

    method OnVoteAbort(p: NodeId) returns (r: Result<Option<CoordinatorAction>, TwoPcError>)
      modifies this
      ensures CoordinatorStep(State(), r) == VoteAbort(old(State()), p)
    {
      if p !in participants {
        return Err(UnknownParticipant);
      }
      if phase != Preparing {
        return Err(AlreadyDecided);
      }
      aborted := true;
      phase := Decided(Abort);
      r := Ok(Some(SendAbort));
    }
  }

  class ParticipantNode {
    var phase: ParticipantPhase

    constructor ()
      ensures phase == Working
    {
      phase := Working;
    }

    method OnPrepare(canCommit: bool) returns (r: Result<ParticipantAction, TwoPcError>)
      modifies this
      ensures ParticipantStep(phase, r) == Prepare(old(phase), canCommit)
    {
      match phase {
        case Prepared => return Ok(ReplyPrepared);
        case Committed => return Ok(ReplyCommitted);
        case Aborted => return Ok(ReplyAborted);
        case Working =>
      }
      if canCommit {
        phase := Prepared;
        r := Ok(ReplyPrepared);
      } else {
        phase := Aborted;
        r := Ok(ReplyVoteAbort);
      }
    }

    method OnCommit() returns (r: Result<ParticipantAction, TwoPcError>)
      modifies this
      ensures ParticipantStep(phase, r) == DoCommit(old(phase))
    {
      if phase != Prepared {
        return Err(InvalidTransition);
      }
      phase := Committed;
      r := Ok(ReplyCommitted);
    }

    method OnAbort() returns (r: Result<ParticipantAction, TwoPcError>)
      modifies this
      ensures ParticipantStep(phase, r) == DoAbort(old(phase))
    {
      if phase == Committed {
        return Err(InvalidTransition);
      }
      phase := Aborted;
      r := Ok(ReplyAborted);
    }
  }
}

/** Atomicity of two-phase commit over every run with lost, duplicated and
    reordered messages. */
module TwoPhaseSafety {
  import opened Core
  import opened TwoPhase

  datatype Packet =
    | Order(to: NodeId, order: CoordinatorAction)
    | Answer(from: NodeId, answer: ParticipantAction)

  /** Packets are never removed, so each may be delivered any number of times,
      in any order, or never. */
  datatype World = World(
    coordinator: Coordinator, participants: map<NodeId, ParticipantPhase>, packets: set<Packet>)

  /** `canCommit` is the participant's own verdict when asked to prepare. */
  datatype Event = Started | Delivered(packet: Packet, canCommit: bool)

  function Initial(members: set<NodeId>): World
    requires members != {}
  {
    World(NewCoordinator(members).value, map m | m in members :: Working, {})
  }

  function Orders(members: set<NodeId>, result: Result<Option<CoordinatorAction>, TwoPcError>): set<Packet> {
    if result.Ok? && result.value.Some? then set m | m in members :: Order(m, result.value.value) else {}
  }

  function AfterCoordinator(w: World, s: CoordinatorStep): World {
    w.(coordinator := s.after, packets := w.packets + Orders(w.coordinator.participants, s.result))
  }

  function AfterParticipant(w: World, p: NodeId, s: ParticipantStep): World {
    w.(participants := w.participants[p := s.after],
       packets := w.packets + if s.result.Ok? then {Answer(p, s.result.value)} else {})
  }

  /** One event.  The coordinator has no handler for acknowledgements. */
  function Next(w: World, e: Event): World {
    match e
    case Started => AfterCoordinator(w, Begin(w.coordinator))
    case Delivered(packet, canCommit) =>
      if packet !in w.packets then w
      else
        match packet
        case Order(p, order) =>
          if p !in w.participants then w
          else
            (match order
             case SendPrepare => AfterParticipant(w, p, Prepare(w.participants[p], canCommit))
             case SendCommit => AfterParticipant(w, p, DoCommit(w.participants[p]))
             case SendAbort => AfterParticipant(w, p, DoAbort(w.participants[p])))
        case Answer(p, answer) =>
          (match answer
           case ReplyPrepared => AfterCoordinator(w, VotePrepared(w.coordinator, p))
           case ReplyVoteAbort => AfterCoordinator(w, VoteAbort(w.coordinator, p))
           case ReplyCommitted => w
           case ReplyAborted => w)
  }

  function Run(members: set<NodeId>, events: seq<Event>): World
    requires members != {}
  {
    if events == [] then Initial(members)
    else Next(Run(members, events[..|events| - 1]), events[|events| - 1])
  }

  predicate Voted(w: World, p: NodeId) {
    Answer(p, ReplyPrepared) in w.packets
  }

  ghost predicate Inv(members: set<NodeId>, w: World) {
    var c := w.coordinator;
    && c.participants == members == w.participants.Keys
    && (c.phase == Decided(Commit) <==> c.prepared == members)
    && (c.aborted <==> c.phase == Decided(Abort))
    && (forall p | p in c.prepared :: Voted(w, p))
    && (forall p | Order(p, SendCommit) in w.packets :: c.phase == Decided(Commit))
    && (forall p | Order(p, SendAbort) in w.packets :: c.phase == Decided(Abort))
    && (forall p | p in members ::
          match w.participants[p]
          case Working => !Voted(w, p)
          case Prepared => true
          case Committed => c.phase == Decided(Commit)
          case Aborted => Voted(w, p) ==> c.phase == Decided(Abort))
  }

  lemma OrderKeepsInv(members: set<NodeId>, w: World, p: NodeId, order: CoordinatorAction, canCommit: bool)
    requires members != {} && Inv(members, w)
    ensures Inv(members, Next(w, Delivered(Order(p, order), canCommit)))
  {
  }

  lemma AnswerKeepsInv(members: set<NodeId>, w: World, p: NodeId, answer: ParticipantAction, canCommit: bool)
    requires members != {} && Inv(members, w)
    ensures Inv(members, Next(w, Delivered(Answer(p, answer), canCommit)))
  {
  }

  lemma NextKeepsInv(members: set<NodeId>, w: World, e: Event)
    requires members != {} && Inv(members, w)
    ensures Inv(members, Next(w, e))
  {
    match e {
      case Started =>
      case Delivered(Order(p, order), canCommit) => OrderKeepsInv(members, w, p, order, canCommit);
      case Delivered(Answer(p, answer), canCommit) => AnswerKeepsInv(members, w, p, answer, canCommit);
    }
  }

  lemma {:induction false} RunInv(members: set<NodeId>, events: seq<Event>)
    requires members != {}
    ensures Inv(members, Run(members, events))
  {
    hide Next;
    if events != [] {
      RunInv(members, events[..|events| - 1]);
      NextKeepsInv(members, Run(members, events[..|events| - 1]), events[|events| - 1]);
    }
  }

  /** What can no longer change: a decision, and a participant's outcome. */
  ghost predicate Settles(w: World, w': World) {
    && w.participants.Keys == w'.participants.Keys && w.packets <= w'.packets
    && (w.coordinator.phase.Decided? ==> w'.coordinator.phase == w.coordinator.phase)
    && (forall p | p in w.participants && (w.participants[p].Committed? || w.participants[p].Aborted?) ::
          w'.participants[p] == w.participants[p])
  }

  /** A decision never changes, nor does the outcome at any participant. */
  lemma {:induction false} DecisionsAreFinal(members: set<NodeId>, events: seq<Event>, j: nat)
    requires members != {} && j <= |events|
    ensures Settles(Run(members, events[..j]), Run(members, events))
  {
    hide Next;
    if j == |events| {
      assert events[..j] == events;
    } else {
      var before := events[..|events| - 1];
      assert before[..j] == events[..j];
      DecisionsAreFinal(members, before, j);
      NextSettles(Run(members, before), events[|events| - 1]);
    }
  }

  lemma NextSettles(w: World, e: Event)
    ensures Settles(w, Next(w, e))
  {
  }

  /** Atomicity: over a whole run, if some participant is ever Committed then
      none is ever Aborted, at the same moment or any other; the coordinator
      has decided Commit, and every participant has voted Prepared. */
  lemma Atomicity(members: set<NodeId>, events: seq<Event>, j: nat, k: nat, p: NodeId, q: NodeId)
    requires members != {} && p in members && q in members && j <= |events| && k <= |events|
    requires p in Run(members, events[..j]).participants && Run(members, events[..j]).participants[p].Committed?
    ensures q in Run(members, events[..k]).participants && !Run(members, events[..k]).participants[q].Aborted?
    ensures Run(members, events[..j]).coordinator.phase == Decided(Commit)
    ensures forall m <- members :: Voted(Run(members, events[..j]), m)
  {
    hide Next, Run;
    RunInv(members, events[..j]);
    RunInv(members, events[..k]);
    RunInv(members, events);
    DecisionsAreFinal(members, events, j);
    DecisionsAreFinal(members, events, k);
  }
}
