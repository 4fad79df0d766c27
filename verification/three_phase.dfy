/** Three-phase commit: the two phase machines and their timeouts. */
module ThreePhase {
  import opened Core

  datatype Phase = Idle | Preparing | PreCommit | Committed | Aborted

  datatype Action = DoPrepare | DoPreCommit | DoCommit | DoAbort

  datatype ThreePcError = InvalidPhase | UnknownParticipant | PartitionMayBlock

  datatype Coordinator = Coordinator(
    participants: set<NodeId>, prepared: set<NodeId>, precommitted: set<NodeId>, phase: Phase)

  datatype CoordinatorStep = CoordinatorStep(after: Coordinator, result: Result<Option<Action>, ThreePcError>)

  datatype ParticipantStep = ParticipantStep(after: Phase, result: Result<Action, ThreePcError>)

  function NewCoordinator(participants: set<NodeId>): Result<Coordinator, ThreePcError> {
    if participants == {} then Err(InvalidPhase) else Ok(Coordinator(participants, {}, {}, Idle))
  }

  function Begin(c: Coordinator): CoordinatorStep {
    if !c.phase.Idle? then CoordinatorStep(c, Err(InvalidPhase))
    else CoordinatorStep(c.(phase := Preparing), Ok(Some(DoPrepare)))
  }

  function OnPrepared(c: Coordinator, p: NodeId): CoordinatorStep {
    if p !in c.participants then CoordinatorStep(c, Err(UnknownParticipant))
    else if !c.phase.Preparing? then CoordinatorStep(c, Err(InvalidPhase))
    else
      var c1 := c.(prepared := c.prepared + {p});
      if c1.prepared == c1.participants then CoordinatorStep(c1.(phase := PreCommit), Ok(Some(DoPreCommit)))
      else CoordinatorStep(c1, Ok(None))
  }

  function OnPreCommitted(c: Coordinator, p: NodeId): CoordinatorStep {
    if p !in c.participants then CoordinatorStep(c, Err(UnknownParticipant))
    else if !c.phase.PreCommit? then CoordinatorStep(c, Err(InvalidPhase))
    else
      var c1 := c.(precommitted := c.precommitted + {p});
      if c1.precommitted == c1.participants then CoordinatorStep(c1.(phase := Committed), Ok(Some(DoCommit)))
      else CoordinatorStep(c1, Ok(None))
  }

  function CoordinatorTimeout(c: Coordinator): CoordinatorStep {
    match c.phase
    case Preparing => CoordinatorStep(c.(phase := Aborted), Ok(Some(DoAbort)))
    case PreCommit => CoordinatorStep(c, Err(PartitionMayBlock))
    case _ => CoordinatorStep(c, Err(InvalidPhase))
  }

  function Prepare(p: Phase, canCommit: bool): ParticipantStep {
    if !p.Idle? then ParticipantStep(p, Err(InvalidPhase))
    else if canCommit then ParticipantStep(Preparing, Ok(DoPrepare))
    else ParticipantStep(Aborted, Ok(DoAbort))
  }

  function EnterPreCommit(p: Phase): ParticipantStep {
    if p.Preparing? then ParticipantStep(PreCommit, Ok(DoPreCommit)) else ParticipantStep(p, Err(InvalidPhase))
  }

  function EnterCommit(p: Phase): ParticipantStep {
    if p.PreCommit? then ParticipantStep(Committed, Ok(DoCommit)) else ParticipantStep(p, Err(InvalidPhase))
  }

  function ParticipantTimeout(p: Phase): ParticipantStep {
    match p
    case Preparing => ParticipantStep(Aborted, Ok(DoAbort))
    case PreCommit => ParticipantStep(p, Err(PartitionMayBlock))
    case _ => ParticipantStep(p, Err(InvalidPhase))
  }

  class CoordinatorNode {
    const participants: set<NodeId>
    var prepared: set<NodeId>
    var precommitted: set<NodeId>
    var phase: Phase

    function State(): Coordinator
      reads this
    {
      Coordinator(participants, prepared, precommitted, phase)
    }

    constructor (participants: set<NodeId>)
      requires participants != {}
      ensures Ok(State()) == NewCoordinator(participants)
    {
      this.participants, prepared, precommitted, phase := participants, {}, {}, Idle;
    }

    /** Construction, which refuses an empty set of participants. */
    static method Create(participants: set<NodeId>) returns (r: Result<CoordinatorNode, ThreePcError>)
      ensures (if r.Ok? then Ok(r.value.State()) else Err(r.error)) == NewCoordinator(participants)
      ensures r.Ok? ==> fresh(r.value)
    {
      if participants == {} {
        return Err(InvalidPhase);
      }
      var node := new CoordinatorNode(participants);
      r := Ok(node);
    }

    method Start() returns (r: Result<Option<Action>, ThreePcError>)
      modifies this
      ensures CoordinatorStep(State(), r) == Begin(old(State()))
    {
      if phase != Idle {
        return Err(InvalidPhase);
      }
      phase := Preparing;
      r := Ok(Some(DoPrepare));
    }

    method CountPrepared(p: NodeId) returns (r: Result<Option<Action>, ThreePcError>)
      modifies this
      ensures CoordinatorStep(State(), r) == OnPrepared(old(State()), p)
    {
      if p !in participants {
        return Err(UnknownParticipant);
      }
      if phase != Preparing {
        return Err(InvalidPhase);
      }
      prepared := prepared + {p};
      if prepared == participants {
        phase := PreCommit;
        return Ok(Some(DoPreCommit));
      }
      r := Ok(None);
    }

    method CountPreCommitted(p: NodeId) returns (r: Result<Option<Action>, ThreePcError>)
      modifies this
      ensures CoordinatorStep(State(), r) == OnPreCommitted(old(State()), p)
    {
      if p !in participants {
        return Err(UnknownParticipant);
      }
      if phase != PreCommit {
        return Err(InvalidPhase);
      }
      precommitted := precommitted + {p};
      if precommitted == participants {
        phase := Committed;
        return Ok(Some(DoCommit));
      }
      r := Ok(None);
    }

    method Timeout() returns (r: Result<Option<Action>, ThreePcError>)
      modifies this
      ensures CoordinatorStep(State(), r) == CoordinatorTimeout(old(State()))
    {
      match phase {
        case Preparing =>
          phase := Aborted;
          r := Ok(Some(DoAbort));
        case PreCommit => r := Err(PartitionMayBlock);
        case _ => r := Err(InvalidPhase);
      }
    }
  }

  class ParticipantNode {
    var phase: Phase

    constructor ()
      ensures phase == Idle
    {
      phase := Idle;
    }

    method AnswerPrepare(canCommit: bool) returns (r: Result<Action, ThreePcError>)
      modifies this
      ensures ParticipantStep(phase, r) == Prepare(old(phase), canCommit)
    {
      if phase != Idle {
        return Err(InvalidPhase);
      }
      if canCommit {
        phase := Preparing;
        r := Ok(DoPrepare);
      } else {
        phase := Aborted;
        r := Ok(DoAbort);
      }
    }

    method AnswerPreCommit() returns (r: Result<Action, ThreePcError>)
      modifies this
      ensures ParticipantStep(phase, r) == EnterPreCommit(old(phase))
    {
      if phase != Preparing {
        return Err(InvalidPhase);
      }
      phase := PreCommit;
      r := Ok(DoPreCommit);
    }

    method AnswerCommit() returns (r: Result<Action, ThreePcError>)
      modifies this
      ensures ParticipantStep(phase, r) == EnterCommit(old(phase))
    {
      if phase != PreCommit {
        return Err(InvalidPhase);
      }
      phase := Committed;
      r := Ok(DoCommit);
    }

    method Timeout() returns (r: Result<Action, ThreePcError>)
      modifies this
      ensures ParticipantStep(phase, r) == ParticipantTimeout(old(phase))
    {
      match phase {
        case Preparing =>
          phase := Aborted;
          r := Ok(DoAbort);
        case PreCommit => r := Err(PartitionMayBlock);
        case _ => r := Err(InvalidPhase);
      }
    }
  }
}

/** Separation of commit from every undecided or aborted state, over every run
    with arbitrary timeouts and lost, duplicated and reordered messages. */
module ThreePhaseSafety {
  import opened Core
  import opened ThreePhase

  datatype Packet = Order(to: NodeId, order: Action) | Answer(from: NodeId, answer: Action)

  datatype World = World(
    coordinator: Coordinator, participants: map<NodeId, Phase>, packets: set<Packet>)

  datatype Event =
    | Started
    | CoordinatorTimedOut
    | ParticipantTimedOut(node: NodeId)
    | Delivered(packet: Packet, canCommit: bool)

  function Initial(members: set<NodeId>): World
    requires members != {}
  {
    World(NewCoordinator(members).value, map m | m in members :: Idle, {})
  }

  function Orders(members: set<NodeId>, result: Result<Option<Action>, ThreePcError>): set<Packet> {
    if result.Ok? && result.value.Some? then set m | m in members :: Order(m, result.value.value) else {}
  }

  function AfterCoordinator(w: World, s: CoordinatorStep): World {
    w.(coordinator := s.after, packets := w.packets + Orders(w.coordinator.participants, s.result))
  }

  function AfterParticipant(w: World, p: NodeId, s: ParticipantStep): World {
    w.(participants := w.participants[p := s.after],
       packets := w.packets + if s.result.Ok? then {Answer(p, s.result.value)} else {})
  }

  /** One event.  A participant has no handler for an abort order: it leaves the
      transaction only by its own timeout. */
  function Next(w: World, e: Event): World {
    match e
    case Started => AfterCoordinator(w, Begin(w.coordinator))
    case CoordinatorTimedOut => AfterCoordinator(w, CoordinatorTimeout(w.coordinator))
    case ParticipantTimedOut(p) =>
      if p in w.participants then AfterParticipant(w, p, ParticipantTimeout(w.participants[p])) else w
    case Delivered(packet, canCommit) =>
      if packet !in w.packets then w
      else
        match packet
        case Order(p, order) =>
          if p !in w.participants then w
          else
            (match order
             case DoPrepare => AfterParticipant(w, p, Prepare(w.participants[p], canCommit))
             case DoPreCommit => AfterParticipant(w, p, EnterPreCommit(w.participants[p]))
             case DoCommit => AfterParticipant(w, p, EnterCommit(w.participants[p]))
             case DoAbort => w)
        case Answer(p, answer) =>
          (match answer
           case DoPrepare => AfterCoordinator(w, OnPrepared(w.coordinator, p))
           case DoPreCommit => AfterCoordinator(w, OnPreCommitted(w.coordinator, p))
           case DoCommit => w
           case DoAbort => w)
  }

  function Run(members: set<NodeId>, events: seq<Event>): World
    requires members != {}
  {
    if events == [] then Initial(members)
    else Next(Run(members, events[..|events| - 1]), events[|events| - 1])
  }

  predicate PastVote(phase: Phase) {
    phase.PreCommit? || phase.Committed?
  }

  ghost predicate Inv(members: set<NodeId>, w: World) {
    var c := w.coordinator;
    && c.participants == members == w.participants.Keys
    && (PastVote(c.phase) <==> c.prepared == members)
    && (c.phase.Committed? <==> c.precommitted == members)
    && (forall p | p in c.prepared :: Answer(p, DoPrepare) in w.packets)
    && (forall p | p in c.precommitted :: Answer(p, DoPreCommit) in w.packets)
    && (forall p | Order(p, DoPreCommit) in w.packets :: PastVote(c.phase))
    && (forall p | Order(p, DoCommit) in w.packets :: c.phase.Committed?)
    && (forall p | Answer(p, DoPreCommit) in w.packets && p in members :: PastVote(w.participants[p]))
    && (forall p | p in members && w.participants[p].Idle? :: Answer(p, DoPrepare) !in w.packets)
    && (forall p | p in members && PastVote(w.participants[p]) :: PastVote(c.phase))
    && (forall p | p in members && w.participants[p].Committed? :: c.phase.Committed?)
  }

  lemma OrderKeepsInv(members: set<NodeId>, w: World, p: NodeId, order: Action, canCommit: bool)
    requires members != {} && Inv(members, w)
    ensures Inv(members, Next(w, Delivered(Order(p, order), canCommit)))
  {
  }

  lemma AnswerKeepsInv(members: set<NodeId>, w: World, p: NodeId, answer: Action)
    requires members != {} && Inv(members, w) && Answer(p, answer) in w.packets
    ensures Inv(members, Next(w, Delivered(Answer(p, answer), true)))
  {
  }

  lemma NextKeepsInv(members: set<NodeId>, w: World, e: Event)
    requires members != {} && Inv(members, w)
    ensures Inv(members, Next(w, e))
  {
    match e {
      case Started =>
      case CoordinatorTimedOut =>
      case ParticipantTimedOut(_) =>
      case Delivered(packet, canCommit) =>
        if packet in w.packets {
          match packet {
            case Order(p, order) => OrderKeepsInv(members, w, p, order, canCommit);
            case Answer(p, answer) => AnswerKeepsInv(members, w, p, answer);
          }
        }
    }
  }

  lemma {:induction false} RunInv(members: set<NodeId>, events: seq<Event>)
    requires members != {}
    ensures Inv(members, Run(members, events))
  {
    hide Next;
    if events != [] {
      RunInv(members, events[..|events| - 1]);
      NextKeepsInv(members, Run(members, events[..|events| - 1]), events[|events| - 1]);
    }
  }

  /** A node that holds a commit: the coordinator or a participant. */
  predicate SomeoneCommitted(w: World) {
    w.coordinator.phase.Committed? || exists p <- w.participants :: w.participants[p].Committed?
  }

  /** Commit separation: whenever anyone is Committed, every participant is in
      PreCommit or Committed, so a commit never coexists with an abort or with
      an undecided participant; and every participant has voted. */
  lemma CommitSeparation(members: set<NodeId>, events: seq<Event>, p: NodeId)
    requires members != {} && p in members && SomeoneCommitted(Run(members, events))
    ensures p in Run(members, events).participants && PastVote(Run(members, events).participants[p])
    ensures Answer(p, DoPrepare) in Run(members, events).packets
    ensures PastVote(Run(members, events).coordinator.phase)
  {
    hide Run;
    RunInv(members, events);
  }

  /** Abort separation: a coordinator that aborted leaves no participant past
      its vote. */
  lemma AbortSeparation(members: set<NodeId>, events: seq<Event>, p: NodeId)
    requires members != {} && p in members && Run(members, events).coordinator.phase.Aborted?
    ensures p in Run(members, events).participants && !PastVote(Run(members, events).participants[p])
  {
    hide Run;
    RunInv(members, events);
  }

  /** What an event cannot undo. */
  ghost predicate Settles(w: World, w': World) {
    && w.participants.Keys == w'.participants.Keys
    && w.coordinator.participants == w'.coordinator.participants
    && (w.coordinator.phase.Committed? ==> w'.coordinator.phase.Committed?)
    && (w.coordinator.phase.Aborted? ==> w'.coordinator.phase.Aborted?)
    && (PastVote(w.coordinator.phase) ==> PastVote(w'.coordinator.phase))
    && (forall p | p in w.participants ::
          && (w.participants[p].Committed? ==> w'.participants[p].Committed?)
          && (w.participants[p].Aborted? ==> w'.participants[p].Aborted?)
          && (PastVote(w.participants[p]) ==> PastVote(w'.participants[p])))
  }

  lemma NextSettles(w: World, e: Event)
    ensures Settles(w, Next(w, e))
  {
  }

  /** Outcomes are final: Committed and Aborted are never left, and no node
      falls back behind PreCommit. */
  lemma {:induction false} OutcomesAreFinal(members: set<NodeId>, events: seq<Event>, j: nat)
    requires members != {} && j <= |events|
    ensures Settles(Run(members, events[..j]), Run(members, events))
  {
    hide Next;
    if j == |events| {
      assert events[..j] == events;
    } else {
      var before := events[..|events| - 1];
      assert before[..j] == events[..j];
      OutcomesAreFinal(members, before, j);
      NextSettles(Run(members, before), events[|events| - 1]);
    }
  }

  /** Atomicity over the whole run: a commit anywhere at one moment excludes an
      abort anywhere at any other. */
  lemma Atomicity(members: set<NodeId>, events: seq<Event>, j: nat, k: nat, q: NodeId)
    requires members != {} && j <= |events| && k <= |events| && q in members
    requires SomeoneCommitted(Run(members, events[..j]))
    ensures !Run(members, events[..k]).coordinator.phase.Aborted?
    ensures q in Run(members, events[..k]).participants && !Run(members, events[..k]).participants[q].Aborted?
  {
    hide Run;
    RunInv(members, events[..k]);
    RunInv(members, events[..j]);
    OutcomesAreFinal(members, events, j);
    OutcomesAreFinal(members, events, k);
    RunInv(members, events);
  }

  /** The price of an abort before PreCommit: once a participant has aborted
      while the coordinator is in PreCommit, the coordinator stays there for
      every continuation, and its timeout always reports a possible block. */
  lemma BlockedForever(members: set<NodeId>, events: seq<Event>, j: nat, q: NodeId)
    requires members != {} && j <= |events| && q in members
    requires q in Run(members, events[..j]).participants && Run(members, events[..j]).participants[q].Aborted?
    requires Run(members, events[..j]).coordinator.phase.PreCommit?
    ensures Run(members, events).coordinator.phase.PreCommit?
    ensures CoordinatorTimeout(Run(members, events).coordinator).result == Err(PartitionMayBlock)
  {
    hide Run, Next;
    RunInv(members, events);
    OutcomesAreFinal(members, events, j);
  }

  lemma RunSnoc(members: set<NodeId>, events: seq<Event>, e: Event)
    requires members != {}
    ensures Run(members, events + [e]) == Next(Run(members, events), e)
  {
    hide Next;
    assert (events + [e])[..|events|] == events;
  }

  predicate NoneAborted(w: World) {
    forall p <- w.participants :: !w.participants[p].Aborted?
  }

  /** What a coordinator past the vote still needs has been sent: the order to
      everyone, and the acknowledgement of everyone past its vote. */
  ghost predicate Pending(members: set<NodeId>, w: World) {
    && w.coordinator.participants == members == w.participants.Keys
    && w.coordinator.precommitted <= members
    && (PastVote(w.coordinator.phase) ==> forall p | p in members :: Order(p, DoPreCommit) in w.packets)
    && (forall p | p in members && PastVote(w.participants[p]) :: Answer(p, DoPreCommit) in w.packets)
    && (w.coordinator.phase.Committed? ==> forall p | p in members :: Order(p, DoCommit) in w.packets)
  }

  lemma NextKeepsPending(members: set<NodeId>, w: World, e: Event)
    requires Pending(members, w)
    ensures Pending(members, Next(w, e))
  {
  }

  lemma {:induction false} RunPending(members: set<NodeId>, events: seq<Event>)
    requires members != {}
    ensures Pending(members, Run(members, events))
  {
    hide Next;
    if events != [] {
      RunPending(members, events[..|events| - 1]);
      NextKeepsPending(members, Run(members, events[..|events| - 1]), events[|events| - 1]);
    }
  }

  /** A coordinator in PreCommit that still waits for p, which has not aborted,
      gets p's acknowledgement by delivering two packets already sent. */
  lemma Acknowledge(members: set<NodeId>, w: World, p: NodeId)
    requires members != {} && Inv(members, w) && Pending(members, w) && NoneAborted(w)
    requires w.coordinator.phase.PreCommit? && p in members && p !in w.coordinator.precommitted
    ensures var ordered := Next(w, Delivered(Order(p, DoPreCommit), true));
            var after := Next(ordered, Delivered(Answer(p, DoPreCommit), true));
            && NoneAborted(after)
            && after.coordinator.precommitted == w.coordinator.precommitted + {p}
            && (after.coordinator.phase.PreCommit? || after.coordinator.phase.Committed?)
  {
    var ordered := Next(w, Delivered(Order(p, DoPreCommit), true));
    NextKeepsPending(members, w, Delivered(Order(p, DoPreCommit), true));
    assert PastVote(ordered.participants[p]);
    assert Answer(p, DoPreCommit) in ordered.packets;
  }

  /** From PreCommit with no participant aborted, the coordinator reaches
      Committed by acknowledgements alone. */
  lemma {:induction false} FinishCommit(members: set<NodeId>, events: seq<Event>) returns (more: seq<Event>)
    requires members != {}
    requires Run(members, events).coordinator.phase.PreCommit? && NoneAborted(Run(members, events))
    ensures Run(members, events + more).coordinator.phase.Committed?
    decreases members - Run(members, events).coordinator.precommitted
  {
    hide Next, Run;
    var w := Run(members, events);
    RunInv(members, events);
    RunPending(members, events);
    var p := Waiting(members, w);
    var e1, e2 := Delivered(Order(p, DoPreCommit), true), Delivered(Answer(p, DoPreCommit), true);
    RunSnoc(members, events, e1);
    RunSnoc(members, events + [e1], e2);
    Acknowledge(members, w, p);
    var later := events + [e1] + [e2];
    if Run(members, later).coordinator.phase.Committed? {
      more := [e1, e2];
      assert events + more == later;
    } else {
      assert p in members - w.coordinator.precommitted;
      var rest := FinishCommit(members, later);
      more := [e1, e2] + rest;
      assert events + more == later + rest;
    }
  }

  /** Someone whose acknowledgement a coordinator in PreCommit still lacks. */
  lemma Waiting(members: set<NodeId>, w: World) returns (p: NodeId)
    requires Inv(members, w) && Pending(members, w) && w.coordinator.phase.PreCommit?
    ensures p in members && p !in w.coordinator.precommitted
  {
    if forall m | m in members :: m in w.coordinator.precommitted {
      assert false;
    }
    p :| p in members && p !in w.coordinator.precommitted;
  }

  /** Blocking, exactly: a coordinator in PreCommit can still reach Committed, by
      some continuation of the run, if and only if no participant has aborted. */
  lemma CommitReachableIff(members: set<NodeId>, events: seq<Event>)
    requires members != {} && Run(members, events).coordinator.phase.PreCommit?
    ensures (exists more :: Run(members, events + more).coordinator.phase.Committed?)
       <==> NoneAborted(Run(members, events))
  {
    hide Run, Next;
    RunInv(members, events);
    if NoneAborted(Run(members, events)) {
      var more := FinishCommit(members, events);
    } else {
      var q :| q in Run(members, events).participants && Run(members, events).participants[q].Aborted?;
      forall more ensures !Run(members, events + more).coordinator.phase.Committed? {
        assert (events + more)[..|events|] == events;
        BlockedForever(members, events + more, |events|, q);
      }
    }
  }

  /** A participant in PreCommit is blocked with its coordinator: once anyone has
      aborted it stays there in every continuation, and its timeout always
      reports a possible block. */
  lemma ParticipantBlockedForever(members: set<NodeId>, events: seq<Event>, j: nat, p: NodeId, q: NodeId)
    requires members != {} && j <= |events| && p in members && q in members
    requires var w := Run(members, events[..j]);
             p in w.participants && q in w.participants
             && w.participants[p].PreCommit? && w.participants[q].Aborted?
    ensures p in Run(members, events).participants && Run(members, events).participants[p].PreCommit?
    ensures ParticipantTimeout(Run(members, events).participants[p]).result == Err(PartitionMayBlock)
  {
    hide Run, Next;
    RunInv(members, events[..j]);
    RunInv(members, events);
    OutcomesAreFinal(members, events, j);
    BlockedForever(members, events, j, q);
  }

  /** From a coordinator that has committed, one delivery commits a participant
      in PreCommit. */
  lemma CommitParticipant(members: set<NodeId>, events: seq<Event>, p: NodeId)
    requires members != {} && p in members && Run(members, events).coordinator.phase.Committed?
    ensures var w := Run(members, events + [Delivered(Order(p, DoCommit), true)]);
            p in w.participants && w.participants[p].Committed?
  {
    hide Run;
    RunInv(members, events);
    RunPending(members, events);
    RunSnoc(members, events, Delivered(Order(p, DoCommit), true));
  }

  /** The same exactly: a participant in PreCommit can still reach Committed, by
      some continuation, if and only if no participant has aborted. */
  lemma ParticipantCommitIff(members: set<NodeId>, events: seq<Event>, p: NodeId)
    requires members != {} && p in members
    requires p in Run(members, events).participants && Run(members, events).participants[p].PreCommit?
    ensures (exists more ::
               var w := Run(members, events + more);
               p in w.participants && w.participants[p].Committed?)
       <==> NoneAborted(Run(members, events))
  {
    hide Run, Next;
    RunInv(members, events);
    if NoneAborted(Run(members, events)) {
      var more := [];
      assert events + more == events;
      if !Run(members, events).coordinator.phase.Committed? {
        more := FinishCommit(members, events);
      }
      CommitParticipant(members, events + more, p);
      var e := Delivered(Order(p, DoCommit), true);
      assert events + (more + [e]) == events + more + [e];
    } else {
      var q :| q in Run(members, events).participants && Run(members, events).participants[q].Aborted?;
      forall more
        ensures var w := Run(members, events + more); !(p in w.participants && w.participants[p].Committed?)
      {
        assert (events + more)[..|events|] == events;
        ParticipantBlockedForever(members, events + more, |events|, p, q);
      }
    }
  }

  /** Such a state is reachable: a participant votes, times out, and its vote
      then arrives. */
  lemma BlockIsReachable(a: NodeId)
    ensures var events := [Started, Delivered(Order(a, DoPrepare), true), ParticipantTimedOut(a),
                           Delivered(Answer(a, DoPrepare), true)];
            var w := Run({a}, events);
            w.coordinator.phase.PreCommit? && w.participants == map[a := Aborted]
  {
    var e1, e2, e3, e4 := Started, Delivered(Order(a, DoPrepare), true), ParticipantTimedOut(a),
                          Delivered(Answer(a, DoPrepare), true);
    RunSnoc({a}, [], e1);
    RunSnoc({a}, [e1], e2);
    RunSnoc({a}, [e1, e2], e3);
    RunSnoc({a}, [e1, e2, e3], e4);
    assert [] + [e1] == [e1] && [e1] + [e2] == [e1, e2] && [e1, e2] + [e3] == [e1, e2, e3]
      && [e1, e2, e3] + [e4] == [e1, e2, e3, e4];
    assert Order(a, DoPrepare) in Run({a}, [e1]).packets;
    assert Answer(a, DoPrepare) in Run({a}, [e1, e2]).packets;
  }
}
