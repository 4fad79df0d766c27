/** Two-phase commit, what is said and what can still happen: which orders and
    answers are in the network in each state, whose verdict a vote is, and when
    each outcome can still be reached. */
module TwoPhaseAnswers {
  import opened Core
  import opened TwoPhase
  import opened TwoPhaseSafety

  // ------------------------------------------------------- state and network

  /** The orders in the network are exactly those the coordinator's phase calls
      for, one for every member. */
  ghost predicate OrdersMatch(members: set<NodeId>, w: World) {
    forall p, order ::
      Order(p, order) in w.packets <==>
        p in members && match order
                        case SendPrepare => !w.coordinator.phase.Idle?
                        case SendCommit => w.coordinator.phase == Decided(Commit)
                        case SendAbort => w.coordinator.phase == Decided(Abort)
  }

  predicate Says(w: World, p: NodeId, answer: ParticipantAction) {
    Answer(p, answer) in w.packets
  }

  /** A participant has said what its phase means, and nothing else. */
  predicate AnswersOf(w: World, p: NodeId)
    requires p in w.participants
  {
    match w.participants[p]
    case Working =>
      !Says(w, p, ReplyPrepared) && !Says(w, p, ReplyVoteAbort)
      && !Says(w, p, ReplyCommitted) && !Says(w, p, ReplyAborted)
    case Prepared =>
      Says(w, p, ReplyPrepared) && !Says(w, p, ReplyVoteAbort)
      && !Says(w, p, ReplyCommitted) && !Says(w, p, ReplyAborted)
    case Committed =>
      Says(w, p, ReplyPrepared) && !Says(w, p, ReplyVoteAbort)
      && Says(w, p, ReplyCommitted) && !Says(w, p, ReplyAborted)
    case Aborted =>
      (Says(w, p, ReplyVoteAbort) || Says(w, p, ReplyAborted)) && !Says(w, p, ReplyCommitted)
      && !(Says(w, p, ReplyVoteAbort) && Says(w, p, ReplyPrepared))
  }

  ghost predicate AnswersMatch(members: set<NodeId>, w: World) {
    forall p | p in members && p in w.participants :: AnswersOf(w, p)
  }

  ghost predicate Tidy(members: set<NodeId>, w: World) {
    && w.coordinator.participants == members == w.participants.Keys && w.coordinator.prepared <= members
    && OrdersMatch(members, w) && AnswersMatch(members, w)
  }

  lemma NextKeepsOrders(members: set<NodeId>, w: World, e: Event)
    requires Tidy(members, w)
    ensures OrdersMatch(members, Next(w, e))
  {
    hide AnswersMatch;
  }

  lemma NextKeepsAnswers(members: set<NodeId>, w: World, e: Event)
    requires Tidy(members, w)
    ensures AnswersMatch(members, Next(w, e))
  {
    hide OrdersMatch, Next;
    forall p | p in members ensures p in Next(w, e).participants && AnswersOf(Next(w, e), p) {
      NextKeepsAnswersOf(w, e, p);
    }
  }

  lemma NextKeepsAnswersOf(w: World, e: Event, p: NodeId)
    requires p in w.participants && AnswersOf(w, p)
    ensures p in Next(w, e).participants && AnswersOf(Next(w, e), p)
  {
  }

  lemma NextKeepsTidy(members: set<NodeId>, w: World, e: Event)
    requires Tidy(members, w)
    ensures Tidy(members, Next(w, e))
  {
    hide OrdersMatch, AnswersMatch;
    NextKeepsOrders(members, w, e);
    NextKeepsAnswers(members, w, e);
  }

  /** State and network match in every reachable state. */
  lemma {:induction false} RunTidy(members: set<NodeId>, events: seq<Event>)
    requires members != {}
    ensures Tidy(members, Run(members, events))
  {
    hide Next;
    if events == [] {
      StartTidy(members);
    } else {
      RunTidy(members, events[..|events| - 1]);
      NextKeepsTidy(members, Run(members, events[..|events| - 1]), events[|events| - 1]);
    }
  }

  lemma StartTidy(members: set<NodeId>)
    requires members != {}
    ensures Tidy(members, Initial(members))
  {
  }

  // ------------------------------------------------------------- whose verdict

  /** The event in which a participant is asked to prepare, with its verdict. */
  function Asked(p: NodeId, canCommit: bool): Event {
    Delivered(Order(p, SendPrepare), canCommit)
  }

  lemma NextVotes(w: World, e: Event, p: NodeId)
    ensures Answer(p, ReplyPrepared) in Next(w, e).packets && Answer(p, ReplyPrepared) !in w.packets
            && p in w.participants && !w.participants[p].Prepared?
            ==> e == Asked(p, true)
    ensures Answer(p, ReplyVoteAbort) in Next(w, e).packets && Answer(p, ReplyVoteAbort) !in w.packets
            ==> e == Asked(p, false)
  {
  }

  /** A vote is the participant's own verdict: it has voted Prepared only after
      being asked while it could commit, and to abort only after being asked while
      it could not. */
  lemma {:induction false} VoteIsVerdict(members: set<NodeId>, events: seq<Event>, p: NodeId)
    requires members != {} && p in members
    ensures Answer(p, ReplyPrepared) in Run(members, events).packets ==> Asked(p, true) in events
    ensures Answer(p, ReplyVoteAbort) in Run(members, events).packets ==> Asked(p, false) in events
  {
    hide Next;
    if events == [] {
    } else {
      var before, e := events[..|events| - 1], events[|events| - 1];
      VoteIsVerdict(members, before, p);
      RunTidy(members, before);
      NextVotes(Run(members, before), e, p);
      assert e in events && forall x | x in before :: x in events;
    }
  }

  /** Commit means that every participant was asked and could commit; Abort means
      that one was asked and could not. */
  lemma DecisionIsVerdict(members: set<NodeId>, events: seq<Event>)
    requires members != {}
    ensures Run(members, events).coordinator.phase == Decided(Commit) ==>
              forall p | p in members :: Asked(p, true) in events
    ensures Run(members, events).coordinator.phase == Decided(Abort) ==>
              exists p :: p in members && Asked(p, false) in events
  {
    hide Run, Asked;
    RunInv(members, events);
    if Run(members, events).coordinator.phase == Decided(Commit) {
      forall p | p in members ensures Asked(p, true) in events {
        assert p in Run(members, events).coordinator.prepared;
        VoteIsVerdict(members, events, p);
      }
    }
    if Run(members, events).coordinator.phase == Decided(Abort) {
      var p := AbortHasVoter(members, events);
      VoteIsVerdict(members, events, p);
    }
  }

  /** An abort decision rests on a vote to abort in the network. */
  lemma {:induction false} AbortHasVoter(members: set<NodeId>, events: seq<Event>) returns (p: NodeId)
    requires members != {} && Run(members, events).coordinator.phase == Decided(Abort)
    ensures p in members && Answer(p, ReplyVoteAbort) in Run(members, events).packets
  {
    hide Next;
    var before, e := events[..|events| - 1], events[|events| - 1];
    var w := Run(members, before);
    RunTidy(members, before);
    if w.coordinator.phase == Decided(Abort) {
      p := AbortHasVoter(members, before);
      NextSettles(w, e);
    } else {
      p := DecidingVoter(w, e);
      NextSettles(w, e);
    }
  }

  lemma DecidingVoter(w: World, e: Event) returns (p: NodeId)
    requires w.coordinator.phase != Decided(Abort) && Next(w, e).coordinator.phase == Decided(Abort)
    ensures p in w.coordinator.participants && Answer(p, ReplyVoteAbort) in w.packets
  {
    p := e.packet.from;
  }

  /** A participant asked for the first time answers its verdict at once, and for
      good: the vote stays in the network, and a refusal stays Aborted. */
  lemma FirstAnswer(members: set<NodeId>, events: seq<Event>, j: nat, p: NodeId, canCommit: bool)
    requires members != {} && p in members && j < |events| && events[j] == Asked(p, canCommit)
    requires Order(p, SendPrepare) in Run(members, events[..j]).packets
    requires p in Run(members, events[..j]).participants && Run(members, events[..j]).participants[p].Working?
    ensures var w := Run(members, events);
            && Answer(p, if canCommit then ReplyPrepared else ReplyVoteAbort) in w.packets
            && p in w.participants && (!canCommit ==> w.participants[p].Aborted?)
            && !w.participants[p].Working?
  {
    hide Run, AnswersMatch, OrdersMatch;
    RunSplit(members, events, j);
    AskedNow(Run(members, events[..j]), p, canCommit);
    DecisionsAreFinal(members, events, j + 1);
    RunTidy(members, events);
    StartedStays(members, events, p);
  }

  lemma RunSplit(members: set<NodeId>, events: seq<Event>, j: nat)
    requires members != {} && j < |events|
    ensures Run(members, events[..j + 1]) == Next(Run(members, events[..j]), events[j])
  {
    hide Next;
    assert events[..j + 1][..j] == events[..j];
  }

  lemma AskedNow(w: World, p: NodeId, canCommit: bool)
    requires Order(p, SendPrepare) in w.packets && p in w.participants && w.participants[p].Working?
    ensures var after := Next(w, Asked(p, canCommit));
            && p in after.participants && after.participants[p] == (if canCommit then Prepared else Aborted)
            && Answer(p, if canCommit then ReplyPrepared else ReplyVoteAbort) in after.packets
  {
  }

  /** Whoever has answered anything is no longer Working. */
  lemma StartedStays(members: set<NodeId>, events: seq<Event>, p: NodeId)
    requires members != {} && p in members
    ensures var w := Run(members, events);
            p in w.participants
            && ((exists answer :: Answer(p, answer) in w.packets) ==> !w.participants[p].Working?)
  {
    hide Run, OrdersMatch;
    RunTidy(members, events);
    var w := Run(members, events);
    forall answer | Answer(p, answer) in w.packets ensures !w.participants[p].Working? {
      match answer {
        case ReplyPrepared =>
        case ReplyVoteAbort =>
        case ReplyCommitted =>
        case ReplyAborted =>
      }
    }
  }

  // ------------------------------------------------------ what can still happen

  lemma RunSnoc(members: set<NodeId>, events: seq<Event>, e: Event)
    requires members != {}
    ensures Run(members, events + [e]) == Next(Run(members, events), e)
  {
    hide Next;
    assert (events + [e])[..|events|] == events;
  }

  predicate NoneAborted(w: World) {
    forall p <- w.participants :: !w.participants[p].Aborted?
  }

  /** One more vote towards a commit: p is asked, and its answer counted. */
  lemma TakeVote(members: set<NodeId>, w: World, p: NodeId)
    requires members != {} && Inv(members, w) && Tidy(members, w) && NoneAborted(w)
    requires w.coordinator.phase.Preparing? && p in members
    ensures var asked := Next(w, Asked(p, true));
            var after := Next(asked, Delivered(Answer(p, ReplyPrepared), true));
            && NoneAborted(after) && after.coordinator.prepared == w.coordinator.prepared + {p}
            && (after.coordinator.phase.Preparing? || after.coordinator.phase == Decided(Commit))
  {
    var asked := Next(w, Asked(p, true));
    assert Order(p, SendPrepare) in w.packets;
    assert !w.participants[p].Committed?;
    assert Answer(p, ReplyPrepared) in asked.packets;
  }

  lemma {:induction false} GatherVotes(members: set<NodeId>, events: seq<Event>) returns (more: seq<Event>)
    requires members != {}
    requires Run(members, events).coordinator.phase.Preparing? && NoneAborted(Run(members, events))
    ensures Run(members, events + more).coordinator.phase == Decided(Commit)
    decreases members - Run(members, events).coordinator.prepared
  {
    hide Next, Run, OrdersMatch, AnswersMatch;
    var w := Run(members, events);
    RunInv(members, events);
    RunTidy(members, events);
    if forall m | m in members :: m in w.coordinator.prepared {
      assert false;
    }
    var p :| p in members && p !in w.coordinator.prepared;
    var e1, e2 := Asked(p, true), Delivered(Answer(p, ReplyPrepared), true);
    RunSnoc(members, events, e1);
    RunSnoc(members, events + [e1], e2);
    TakeVote(members, w, p);
    var later := events + [e1] + [e2];
    if Run(members, later).coordinator.phase == Decided(Commit) {
      more := [e1, e2];
      assert events + more == later;
    } else {
      assert p in members - w.coordinator.prepared;
      var rest := GatherVotes(members, later);
      more := [e1, e2] + rest;
      assert events + more == later + rest;
    }
  }

  /** An undecided coordinator can still decide Commit, by some continuation, if
      and only if no participant has aborted. */
  lemma CommitReachableIff(members: set<NodeId>, events: seq<Event>)
    requires members != {} && !Run(members, events).coordinator.phase.Decided?
    ensures (exists more :: Run(members, events + more).coordinator.phase == Decided(Commit))
       <==> NoneAborted(Run(members, events))
  {
    hide Run, Next, OrdersMatch, AnswersMatch;
    RunInv(members, events);
    if NoneAborted(Run(members, events)) {
      if Run(members, events).coordinator.phase.Idle? {
        RunSnoc(members, events, Started);
        StartsPreparing(Run(members, events));
        var more := GatherVotes(members, events + [Started]);
        assert events + ([Started] + more) == events + [Started] + more;
      } else {
        var more := GatherVotes(members, events);
      }
    } else {
      var q :| q in Run(members, events).participants && Run(members, events).participants[q].Aborted?;
      forall more ensures Run(members, events + more).coordinator.phase != Decided(Commit) {
        assert (events + more)[..|events|] == events;
        RunInv(members, events + more);
        DecisionsAreFinal(members, events + more, |events|);
        AbortedNeverVoted(members, events, more, q);
      }
    }
  }

  lemma StartsPreparing(w: World)
    requires w.coordinator.phase.Idle?
    ensures Next(w, Started).coordinator.phase.Preparing? && Next(w, Started).participants == w.participants
  {
  }

  /** Who aborted before any decision never votes Prepared afterwards. */
  lemma {:induction false} AbortedNeverVoted(members: set<NodeId>, events: seq<Event>, more: seq<Event>, q: NodeId)
    requires members != {} && q in members && !Run(members, events).coordinator.phase.Decided?
    requires q in Run(members, events).participants && Run(members, events).participants[q].Aborted?
    ensures !Voted(Run(members, events + more), q)
    decreases |more|
  {
    hide Next, OrdersMatch, AnswersMatch;
    if more == [] {
      assert events + more == events;
      RunInv(members, events);
    } else {
      var before, e := more[..|more| - 1], more[|more| - 1];
      assert events + more == events + before + [e];
      AbortedNeverVoted(members, events, before, q);
      RunSnoc(members, events + before, e);
      assert (events + before)[..|events|] == events;
      DecisionsAreFinal(members, events + before, |events|);
      NoVoteWhenAborted(Run(members, events + before), e, q);
    }
  }

  lemma NoVoteWhenAborted(w: World, e: Event, q: NodeId)
    requires q in w.participants && w.participants[q].Aborted? && !Voted(w, q)
    ensures !Voted(Next(w, e), q)
  {
  }

  predicate Finished(phase: ParticipantPhase, d: Decision) {
    if d.Commit? then phase.Committed? else phase.Aborted?
  }

  function OrderFor(d: Decision): CoordinatorAction {
    if d.Commit? then SendCommit else SendAbort
  }

  /** The decision's order, delivered, finishes a participant. */
  lemma FinishOne(members: set<NodeId>, w: World, d: Decision, p: NodeId)
    requires members != {} && Inv(members, w) && Tidy(members, w)
    requires w.coordinator.phase == Decided(d) && p in members
    ensures var after := Next(w, Delivered(Order(p, OrderFor(d)), true));
            && after.coordinator == w.coordinator && after.participants.Keys == members
            && Finished(after.participants[p], d)
            && forall q | q in members && q != p :: after.participants[q] == w.participants[q]
  {
    assert Order(p, OrderFor(d)) in w.packets;
    if d.Commit? {
      assert p in w.coordinator.prepared && Voted(w, p);
    }
  }

  /** Once decided, some continuation brings every participant to the outcome. */
  lemma {:induction false} EveryoneFinishes(members: set<NodeId>, events: seq<Event>, d: Decision, left: set<NodeId>)
    returns (more: seq<Event>)
    requires members != {} && left <= members && Run(members, events).coordinator.phase == Decided(d)
    requires forall p | p in members - left ::
               p in Run(members, events).participants && Finished(Run(members, events).participants[p], d)
    ensures var w := Run(members, events + more);
            && w.coordinator.phase == Decided(d)
            && forall p | p in members :: p in w.participants && Finished(w.participants[p], d)
    decreases left
  {
    hide Next, Run, OrdersMatch, AnswersMatch;
    if left == {} {
      more := [];
      assert events + more == events;
    } else {
      RunInv(members, events);
      RunTidy(members, events);
      var p :| p in left;
      var e := Delivered(Order(p, OrderFor(d)), true);
      FinishOne(members, Run(members, events), d, p);
      RunSnoc(members, events, e);
      var rest := EveryoneFinishes(members, events + [e], d, left - {p});
      more := [e] + rest;
      assert events + more == events + [e] + rest;
    }
  }

  // --------------------------------------------------------------- refusals

  /** The coordinator refuses strangers, then anything out of phase, and a refusal
      changes nothing. */
  lemma CoordinatorRefuses(c: Coordinator, p: NodeId)
    ensures var s, v, a := Begin(c), VotePrepared(c, p), VoteAbort(c, p);
            && (s.result.Err? <==> !c.phase.Idle?)
            && (s.result.Err? ==> s.result.error == AlreadyDecided && s.after == c)
            && (v.result.Err? <==> a.result.Err?)
            && (v.result.Err? <==> p !in c.participants || !c.phase.Preparing?)
            && (v.result.Err? ==>
                  && v.after == c && a.after == c && v.result == a.result
                  && (v.result.error == UnknownParticipant <==> p !in c.participants)
                  && (v.result.error == AlreadyDecided <==> p in c.participants))
  {
  }

  /** A participant refuses to commit unless prepared, and to abort once
      committed, and a refusal changes nothing; asked again, it repeats its state. */
  lemma ParticipantRefuses(p: ParticipantPhase, canCommit: bool)
    ensures var c, a := DoCommit(p), DoAbort(p);
            && (c.result.Err? <==> !p.Prepared?) && (a.result.Err? <==> p.Committed?)
            && (c.result.Err? ==> c == ParticipantStep(p, Err(InvalidTransition)))
            && (a.result.Err? ==> a == ParticipantStep(p, Err(InvalidTransition)))
            && Prepare(p, canCommit).result.Ok?
            && (!p.Working? ==> Prepare(p, canCommit).after == p)
            && (p.Committed? ==> Prepare(p, canCommit).result == Ok(ReplyCommitted))
            && (p.Aborted? ==> Prepare(p, canCommit).result == Ok(ReplyAborted))
  {
  }

  /** A coordinator needs a participant, and starts idle with no votes. */
  lemma ConstructionAnswers(members: set<NodeId>)
    ensures members == {} <==> NewCoordinator(members) == Err(InvalidTransition)
    ensures members != {} ==> NewCoordinator(members) == Ok(Coordinator(members, {}, false, Idle))
  {
  }
}
