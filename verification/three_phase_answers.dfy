/** Three-phase commit, what is said and why: which orders and answers are in the
    network in each state, whose verdict a vote is, who aborts, and when a commit
    can still be reached. */
module ThreePhaseAnswers {
  import opened Core
  import opened ThreePhase
  import opened ThreePhaseSafety

  // ------------------------------------------------------- state and network

  /** The orders in the network are exactly those the coordinator's phase calls
      for, one for every member. */
  ghost predicate OrdersMatch(members: set<NodeId>, w: World) {
    forall p, order ::
      Order(p, order) in w.packets <==>
        p in members && match order
                        case DoPrepare => !w.coordinator.phase.Idle?
                        case DoPreCommit => PastVote(w.coordinator.phase)
                        case DoCommit => w.coordinator.phase.Committed?
                        case DoAbort => w.coordinator.phase.Aborted?
  }

  predicate Says(w: World, p: NodeId, answer: Action) {
    Answer(p, answer) in w.packets
  }

  /** A participant has said what its phase means, and nothing else; one that
      aborted may have voted before its timeout. */
  predicate AnswersOf(w: World, p: NodeId)
    requires p in w.participants
  {
    match w.participants[p]
    case Idle => !Says(w, p, DoPrepare) && !Says(w, p, DoPreCommit) && !Says(w, p, DoCommit) && !Says(w, p, DoAbort)
    case Preparing => Says(w, p, DoPrepare) && !Says(w, p, DoPreCommit) && !Says(w, p, DoCommit) && !Says(w, p, DoAbort)
    case PreCommit => Says(w, p, DoPrepare) && Says(w, p, DoPreCommit) && !Says(w, p, DoCommit) && !Says(w, p, DoAbort)
    case Committed => Says(w, p, DoPrepare) && Says(w, p, DoPreCommit) && Says(w, p, DoCommit) && !Says(w, p, DoAbort)
    case Aborted => Says(w, p, DoAbort) && !Says(w, p, DoPreCommit) && !Says(w, p, DoCommit)
  }

  ghost predicate AnswersMatch(members: set<NodeId>, w: World) {
    forall p | p in members && p in w.participants :: AnswersOf(w, p)
  }

  ghost predicate Tidy(members: set<NodeId>, w: World) {
    && w.coordinator.participants == members == w.participants.Keys
    && w.coordinator.prepared <= members
    && OrdersMatch(members, w) && AnswersMatch(members, w)
  }

  lemma NextKeepsOrders(members: set<NodeId>, w: World, e: Event)
    requires Tidy(members, w)
    ensures OrdersMatch(members, Next(w, e))
  {
    hide AnswersMatch;
  }

  lemma NextKeepsAnswers(members: set<NodeId>, w: World, e: Event)
    requires Tidy(members, w)
    ensures AnswersMatch(members, Next(w, e))
  {
    hide OrdersMatch, Next;
    forall p | p in members ensures p in Next(w, e).participants && AnswersOf(Next(w, e), p) {
      NextKeepsAnswersOf(w, e, p);
    }
  }

  lemma NextKeepsAnswersOf(w: World, e: Event, p: NodeId)
    requires p in w.participants && AnswersOf(w, p)
    ensures p in Next(w, e).participants && AnswersOf(Next(w, e), p)
  {
  }

  lemma NextKeepsTidy(members: set<NodeId>, w: World, e: Event)
    requires Tidy(members, w)
    ensures Tidy(members, Next(w, e))
  {
    hide OrdersMatch, AnswersMatch;
    NextKeepsOrders(members, w, e);
    NextKeepsAnswers(members, w, e);
  }

  lemma StartTidy(members: set<NodeId>)
    requires members != {}
    ensures Tidy(members, Initial(members))
  {
  }

  /** State and network match in every reachable state. */
  lemma {:induction false} RunTidy(members: set<NodeId>, events: seq<Event>)
    requires members != {}
    ensures Tidy(members, Run(members, events))
  {
    hide Next;
    if events == [] {
      StartTidy(members);
    } else {
      RunTidy(members, events[..|events| - 1]);
      NextKeepsTidy(members, Run(members, events[..|events| - 1]), events[|events| - 1]);
    }
  }

  // ------------------------------------------------------- verdicts and aborts

  /** The event in which a participant is asked to prepare, with its verdict. */
  function Asked(p: NodeId, canCommit: bool): Event {
    Delivered(Order(p, DoPrepare), canCommit)
  }

  lemma NextSays(w: World, e: Event, p: NodeId)
    ensures Says(Next(w, e), p, DoPrepare) && !Says(w, p, DoPrepare) ==> e == Asked(p, true)
    ensures Says(Next(w, e), p, DoAbort) && !Says(w, p, DoAbort) ==>
              e == Asked(p, false) || e == ParticipantTimedOut(p)
    ensures Next(w, e).coordinator.phase.Aborted? && !w.coordinator.phase.Aborted? ==> e == CoordinatorTimedOut
  {
  }

  /** A vote is the participant's own verdict, and an abort has a cause: a
      participant has voted only after being asked while it could commit, has
      aborted only on its own refusal or timeout, and the coordinator only on its
      timeout. */
  lemma {:induction false} EverythingHasACause(members: set<NodeId>, events: seq<Event>, p: NodeId)
    requires members != {}
    ensures Says(Run(members, events), p, DoPrepare) ==> Asked(p, true) in events
    ensures Says(Run(members, events), p, DoAbort) ==> Asked(p, false) in events || ParticipantTimedOut(p) in events
    ensures Run(members, events).coordinator.phase.Aborted? ==> CoordinatorTimedOut in events
  {
    hide Next;
    if events == [] {
    } else {
      var before, e := events[..|events| - 1], events[|events| - 1];
      EverythingHasACause(members, before, p);
      NextSays(Run(members, before), e, p);
      assert e in events && forall x | x in before :: x in events;
    }
  }

  /** A coordinator past the vote, and so every commit, had every participant
      asked while it could commit. */
  lemma CommitIsVerdict(members: set<NodeId>, events: seq<Event>, p: NodeId)
    requires members != {} && p in members && PastVote(Run(members, events).coordinator.phase)
    ensures Asked(p, true) in events
  {
    hide Run, Asked;
    RunInv(members, events);
    assert p in Run(members, events).coordinator.prepared;
    EverythingHasACause(members, events, p);
  }

  lemma RunSplit(members: set<NodeId>, events: seq<Event>, j: nat)
    requires members != {} && j < |events|
    ensures Run(members, events[..j + 1]) == Next(Run(members, events[..j]), events[j])
  {
    hide Next;
    assert events[..j + 1][..j] == events[..j];
  }

  lemma AskedNow(w: World, p: NodeId, canCommit: bool)
    requires Order(p, DoPrepare) in w.packets && p in w.participants && w.participants[p].Idle?
    ensures var after := Next(w, Asked(p, canCommit));
            && p in after.participants && after.participants[p] == (if canCommit then Preparing else Aborted)
            && Says(after, p, if canCommit then DoPrepare else DoAbort)
  {
  }

  lemma {:induction false} PacketsStay(members: set<NodeId>, events: seq<Event>, j: nat)
    requires members != {} && j <= |events|
    ensures Run(members, events[..j]).packets <= Run(members, events).packets
  {
    if j == |events| {
      assert events[..j] == events;
    } else {
      var before := events[..|events| - 1];
      assert before[..j] == events[..j];
      PacketsStay(members, before, j);
    }
  }

  /** A participant asked for the first time answers its verdict at once, and for
      good: the answer stays in the network, and a refusal stays Aborted. */
  lemma FirstAnswer(members: set<NodeId>, events: seq<Event>, j: nat, p: NodeId, canCommit: bool)
    requires members != {} && p in members && j < |events| && events[j] == Asked(p, canCommit)
    requires Order(p, DoPrepare) in Run(members, events[..j]).packets
    requires p in Run(members, events[..j]).participants && Run(members, events[..j]).participants[p].Idle?
    ensures var w := Run(members, events);
            && Says(w, p, if canCommit then DoPrepare else DoAbort)
            && p in w.participants && !w.participants[p].Idle? && (!canCommit ==> w.participants[p].Aborted?)
  {
    hide Run, OrdersMatch;
    RunSplit(members, events, j);
    AskedNow(Run(members, events[..j]), p, canCommit);
    OutcomesAreFinal(members, events, j + 1);
    PacketsStay(members, events, j + 1);
    RunTidy(members, events);
  }

  // ------------------------------------------------------ what can still happen

  /** One more vote: p is asked, if need be, and its answer counted. */
  lemma TakeVote(members: set<NodeId>, w: World, p: NodeId)
    requires members != {} && Inv(members, w) && Tidy(members, w) && NoneAborted(w)
    requires w.coordinator.phase.Preparing? && p in members
    ensures var asked := Next(w, Asked(p, true));
            var after := Next(asked, Delivered(Answer(p, DoPrepare), true));
            && NoneAborted(after) && after.coordinator.prepared == w.coordinator.prepared + {p}
            && (after.coordinator.phase.Preparing? || after.coordinator.phase.PreCommit?)
  {
    var asked := Next(w, Asked(p, true));
    assert Order(p, DoPrepare) in w.packets;
    assert AnswersOf(w, p);
    assert Answer(p, DoPrepare) in asked.packets;
  }

  lemma {:induction false} GatherVotes(members: set<NodeId>, events: seq<Event>) returns (more: seq<Event>)
    requires members != {}
    requires Run(members, events).coordinator.phase.Preparing? && NoneAborted(Run(members, events))
    ensures Run(members, events + more).coordinator.phase.PreCommit? && NoneAborted(Run(members, events + more))
    decreases members - Run(members, events).coordinator.prepared
  {
    hide Next, Run, OrdersMatch, AnswersMatch;
    var w := Run(members, events);
    RunInv(members, events);
    RunTidy(members, events);
    if forall m | m in members :: m in w.coordinator.prepared {
      assert false;
    }
    var p :| p in members && p !in w.coordinator.prepared;
    var e1, e2 := Asked(p, true), Delivered(Answer(p, DoPrepare), true);
    RunSnoc(members, events, e1);
    RunSnoc(members, events + [e1], e2);
    TakeVote(members, w, p);
    var later := events + [e1] + [e2];
    if Run(members, later).coordinator.phase.PreCommit? {
      more := [e1, e2];
      assert events + more == later;
    } else {
      assert p in members - w.coordinator.prepared;
      var rest := GatherVotes(members, later);
      more := [e1, e2] + rest;
      assert events + more == later + rest;
    }
  }

  predicate NobodyAborted(w: World) {
    !w.coordinator.phase.Aborted? && NoneAborted(w)
  }

  lemma StartsPreparing(w: World)
    requires w.coordinator.phase.Idle?
    ensures Next(w, Started).coordinator.phase.Preparing? && Next(w, Started).participants == w.participants
  {
  }

  lemma ReachCommit(members: set<NodeId>, events: seq<Event>) returns (more: seq<Event>)
    requires members != {} && NobodyAborted(Run(members, events))
    ensures Run(members, events + more).coordinator.phase.Committed?
  {
    hide Run, Next;
    more := [];
    assert events + more == events;
    if Run(members, events + more).coordinator.phase.Idle? {
      RunSnoc(members, events, Started);
      StartsPreparing(Run(members, events));
      more := [Started];
    }
    if Run(members, events + more).coordinator.phase.Preparing? {
      var votes := GatherVotes(members, events + more);
      assert events + more + votes == events + (more + votes);
      more := more + votes;
    }
    if Run(members, events + more).coordinator.phase.PreCommit? {
      var rest := FinishCommit(members, events + more);
      assert events + more + rest == events + (more + rest);
      more := more + rest;
    }
  }

  /** In every reachable state, a commit can still be reached if and only if
      neither the coordinator nor any participant has aborted. */
  lemma CommitPossibleIff(members: set<NodeId>, events: seq<Event>)
    requires members != {}
    ensures (exists more :: Run(members, events + more).coordinator.phase.Committed?)
       <==> NobodyAborted(Run(members, events))
  {
    hide Run, Next;
    if NobodyAborted(Run(members, events)) {
      var more := ReachCommit(members, events);
    } else {
      forall more ensures !Run(members, events + more).coordinator.phase.Committed? {
        assert (events + more)[..|events|] == events;
        OutcomesAreFinal(members, events + more, |events|);
        RunInv(members, events + more);
      }
    }
  }

  // --------------------------------------------------------------- refusals

  /** The coordinator refuses strangers, then anything out of phase, and a refusal
      changes nothing; its timeout aborts only while votes are missing. */
  lemma CoordinatorRefuses(c: Coordinator, p: NodeId)
    ensures var s, v, k, t := Begin(c), OnPrepared(c, p), OnPreCommitted(c, p), CoordinatorTimeout(c);
            && (s.result.Err? <==> !c.phase.Idle?) && (s.result.Err? ==> s == CoordinatorStep(c, Err(InvalidPhase)))
            && (v.result.Err? <==> p !in c.participants || !c.phase.Preparing?)
            && (k.result.Err? <==> p !in c.participants || !c.phase.PreCommit?)
            && (v.result.Err? ==> v.after == c
                                  && v.result.error == if p in c.participants then InvalidPhase else UnknownParticipant)
            && (k.result.Err? ==> k.after == c
                                  && k.result.error == if p in c.participants then InvalidPhase else UnknownParticipant)
            && (t.result.Err? <==> !c.phase.Preparing?) && (t.result.Err? ==> t.after == c)
            && (t.result == Err(PartitionMayBlock) <==> c.phase.PreCommit?)
            && (t.result.Ok? ==> t == CoordinatorStep(c.(phase := Aborted), Ok(Some(DoAbort))))
  {
  }

  /** A participant moves only from the phase before, and a refusal changes
      nothing; its timeout aborts only between its vote and PreCommit. */
  lemma ParticipantRefuses(p: Phase, canCommit: bool)
    ensures var a, b, d, t := Prepare(p, canCommit), EnterPreCommit(p), EnterCommit(p), ParticipantTimeout(p);
            && (a.result.Err? <==> !p.Idle?) && (a.result.Err? ==> a == ParticipantStep(p, Err(InvalidPhase)))
            && (b.result.Err? <==> !p.Preparing?) && (b.result.Err? ==> b == ParticipantStep(p, Err(InvalidPhase)))
            && (d.result.Err? <==> !p.PreCommit?) && (d.result.Err? ==> d == ParticipantStep(p, Err(InvalidPhase)))
            && (t.result.Err? <==> !p.Preparing?) && (t.result.Err? ==> t.after == p)
            && (t.result == Err(PartitionMayBlock) <==> p.PreCommit?)
            && (t.result.Ok? ==> t == ParticipantStep(Aborted, Ok(DoAbort)))
  {
  }

  /** A coordinator needs a participant, and starts idle with no votes. */
  lemma ConstructionAnswers(members: set<NodeId>)
    ensures members == {} <==> NewCoordinator(members) == Err(InvalidPhase)
    ensures members != {} ==> NewCoordinator(members) == Ok(Coordinator(members, {}, {}, Idle))
  {
  }
}
