/** What the simulated network answers, and which attempts a fault rule meets. */
module NetworkAnswers {
  import opened Core
  import opened Drivers
  import opened Networks
  import opened NetworkSafety

  /** A rule meets an attempt exactly when everything it names is as named. */
  lemma MatchesExactly(p: FaultPredicate, ordinal: nat, e: Envelope)
    ensures Matches(p, ordinal, e) <==>
              && (forall x :: p.ordinal == Some(x) ==> x == ordinal)
              && (forall x :: p.source == Some(x) ==> x == e.source)
              && (forall x :: p.destination == Some(x) ==> x == e.destination)
              && (forall x :: p.protocol == Some(x) ==> x == e.protocol)
              && (forall x :: p.messageType == Some(x) ==> x == e.messageType)
  {
  }

  /** Scheduling refuses the past, then an exhausted counter, and otherwise queues
      the event under the next sequence number. */
  lemma ScheduleAnswer<T(!new)>(d: Driver<T>, tick: u64, delay: u64, event: T)
    ensures var p := ScheduleAt(d, tick, event);
            && (p.result == Err(Past(d.now, tick)) <==> tick < d.now)
            && (p.result == Err(SequenceOverflow) <==> tick >= d.now && d.nextSequence == U64_MAX)
            && (p.result.Ok? ==> p.result.value == d.nextSequence)
            && (p.result.Err? ==> p.driver == d)
            && (p.result.Ok? ==>
                  && p.driver.now == d.now && p.driver.nextSequence == d.nextSequence + 1
                  && multiset(p.driver.queue) == multiset(d.queue) + multiset{Scheduled(tick, d.nextSequence, event)})
    ensures d.now + delay > U64_MAX ==> ScheduleAfter(d, delay, event) == Placed(d, Err(ClockOverflow))
    ensures d.now + delay <= U64_MAX ==> ScheduleAfter(d, delay, event) == ScheduleAt(d, d.now + delay, event)
  {
    if tick >= d.now && d.nextSequence < U64_MAX {
      InsertMembers(d.queue, Scheduled(tick, d.nextSequence, event));
    }
  }

  /** Popping takes the first event and sets the clock to its tick. */
  lemma PopAnswer<T(!new)>(d: Driver<T>)
    ensures var p := PopNext(d);
            && (d.queue == [] ==> p == Popped(d, Ok(None)))
            && (d.queue != [] ==>
                  && p.driver.queue == d.queue[1..] && p.driver.nextSequence == d.nextSequence
                  && (p.result == Err(WentBackwards) <==> d.queue[0].tick < d.now)
                  && (d.queue[0].tick >= d.now ==>
                        p.result == Ok(Some(d.queue[0])) && p.driver.now == d.queue[0].tick))
  {
  }

  /** What a send answers before any scheduling can fail: an exhausted ordinal
      changes nothing; otherwise the attempt is numbered, and partitions, crashes
      and drops accept it with no copies and touch nothing else. */
  lemma SendAnswer(n: Network, e: Envelope)
    ensures var s := Send(n, e);
            && (s.result == Err(AttemptOverflow) <==> n.lastOrdinal == U64_MAX)
            && (n.lastOrdinal == U64_MAX ==> s.network == n)
            && (n.lastOrdinal < U64_MAX ==> s.network.lastOrdinal == n.lastOrdinal + 1)
            && (s.result.Ok? ==> s.result.value.ordinal == n.lastOrdinal + 1)
            && s.network.partitions == n.partitions && s.network.crashed == n.crashed
            && (n.lastOrdinal < U64_MAX
                && (e.destination in n.crashed || (e.source, e.destination) in n.partitions || Decides(n, e, Drop)) ==>
                  s.result == Ok(Attempt(n.lastOrdinal + 1, 0))
                  && s.network.deliveries == n.deliveries && s.network.held == n.held)
  {
    hide ScheduleList, ScheduleAfter, FirstRule;
  }

  /** Holding: a reorder for a past tick is refused; otherwise the envelope is held
      last, for exactly that tick, and nothing is queued. */
  lemma HoldAnswer(n: Network, e: Envelope, tick: u64)
    requires n.lastOrdinal < U64_MAX && Decides(n, e, ReorderAtTick(tick))
    ensures var s := Send(n, e);
            && s.network.deliveries == n.deliveries
            && (tick < n.deliveries.now ==>
                  s.result == Err(ReorderInPast(n.deliveries.now, tick)) && s.network.held == n.held)
            && (tick >= n.deliveries.now ==>
                  s.result == Ok(Attempt(n.lastOrdinal + 1, 0)) && s.network.held == n.held + [Held(tick, e)])
  {
    hide ScheduleList, ScheduleAfter, FirstRule;
  }

  /** Queueing: with no rule one copy goes out now, a duplicate rule sends one more
      than it names, a delay rule one copy later; the answer counts them, and a
      failure says which counter was exhausted. */
  lemma QueueAnswer(n: Network, e: Envelope, more: nat, ticks: u64)
    requires n.lastOrdinal < U64_MAX && !Blocked(n, e)
    ensures var s, room := Send(n, e), U64_MAX - n.deliveries.nextSequence;
            && (FirstRule(n.rules, n.lastOrdinal + 1, e) == |n.rules| ==>
                  s.result == if room >= 1 then Ok(Attempt(n.lastOrdinal + 1, 1))
                              else Err(DriverFailed(SequenceOverflow)))
            && (Decides(n, e, Duplicate(more)) ==>
                  s.result == if more + 1 > U32_MAX then Err(DuplicateCountOverflow)
                              else if room >= more + 1 then Ok(Attempt(n.lastOrdinal + 1, more + 1))
                              else Err(DriverFailed(SequenceOverflow)))
            && (Decides(n, e, Delay(ticks)) ==>
                  s.result == if n.deliveries.now + ticks > U64_MAX then Err(DriverFailed(ClockOverflow))
                              else if room >= 1 then Ok(Attempt(n.lastOrdinal + 1, 1))
                              else Err(DriverFailed(SequenceOverflow)))
            && (s.result.Ok? && (FirstRule(n.rules, n.lastOrdinal + 1, e) == |n.rules|
                                 || Decides(n, e, Duplicate(more)) || Decides(n, e, Delay(ticks))) ==>
                  s.network.held == n.held)
  {
    hide FirstRule, Blocked, Insert, ScheduleList;
    ListOutcome(n.deliveries, n.deliveries.now, Copies(e, 1));
    ListOutcome(n.deliveries, n.deliveries.now, Copies(e, more + 1));
    BlockedByPlace(n, e);
  }

  lemma BlockedByPlace(n: Network, e: Envelope)
    requires n.lastOrdinal < U64_MAX
    ensures Blocked(n, e) == Blocked(n.(lastOrdinal := n.lastOrdinal + 1), e)
  {
  }

  /** Scheduling a list at the current tick fails only on the counter. */
  lemma {:induction false} ListOutcome<T>(d: Driver<T>, tick: u64, events: seq<T>)
    requires tick >= d.now && events != []
    ensures ScheduleList(d, tick, events).result.Ok? <==> U64_MAX - d.nextSequence >= |events|
    ensures ScheduleList(d, tick, events).result.Err? ==> ScheduleList(d, tick, events).result.error == SequenceOverflow
    decreases |events|
  {
    hide Insert;
    if ScheduleAt(d, tick, events[0]).result.Ok? && |events| > 1 {
      ListOutcome(ScheduleAt(d, tick, events[0]).driver, tick, events[1..]);
    }
  }

  /** Releasing answers how many were held for the tick, or the first scheduling
      error, and keeps what is held for other ticks, in order. */
  lemma ReleaseAnswer(n: Network, tick: u64)
    ensures var r := Release(n, tick);
            && (r.result.Ok? ==> r.result.value == |HeldAt(n.held, tick)|)
            && (r.result.Err? ==> r.result == Err(DriverFailed(
                                     if tick < n.deliveries.now then Past(n.deliveries.now, tick)
                                     else SequenceOverflow)))
            && r.network == n.(deliveries := r.network.deliveries, held := r.network.held)
            && r.network.held == NotHeldAt(n.held, tick)
  {
    hide HeldAt, NotHeldAt, ScheduleList;
    var reversed := Reversed(HeldAt(n.held, tick));
    if tick >= n.deliveries.now && reversed != [] {
      ListOutcome(n.deliveries, tick, reversed);
    }
    PastList(n.deliveries, tick, reversed);
  }

  lemma PastList<T>(d: Driver<T>, tick: u64, events: seq<T>)
    ensures events == [] ==> ScheduleList(d, tick, events).result.Ok?
    ensures tick < d.now && events != [] ==> ScheduleList(d, tick, events) == Placed(d, Err(Past(d.now, tick)))
  {
  }

  function SendsIn(events: seq<Event>): (n: nat)
    ensures n <= |events|
  {
    if events == [] then 0
    else SendsIn(events[..|events| - 1]) + if events[|events| - 1].Sending? then 1 else 0
  }

  lemma NextOrdinal(w: World, event: Event)
    ensures Next(w, event).net.lastOrdinal
         == if event.Sending? && w.net.lastOrdinal < U64_MAX then w.net.lastOrdinal + 1 else w.net.lastOrdinal
  {
    hide Send, Release, PopDelivery;
    match event {
      case Sending(e) => SendAnswer(w.net, e);
      case Releasing(tick) => ReleaseAnswer(w.net, tick);
      case Popping => PopKeepsOrdinal(w.net);
      case Controlling(_) =>
    }
  }

  lemma {:induction false} PopKeepsOrdinal(n: Network)
    ensures PopDelivery(n).network.lastOrdinal == n.lastOrdinal && PopDelivery(n).network.held == n.held
    decreases |n.deliveries.queue|
  {
    var q := PopNext(n.deliveries);
    if q.result.Ok? && q.result.value.Some? {
      PopKeepsOrdinal(n.(deliveries := q.driver));
    }
  }

  /** Attempts are numbered from 1 over a whole run, whatever becomes of them. */
  lemma {:induction false} AttemptsAreNumbered(events: seq<Event>)
    ensures Run(events).net.lastOrdinal as nat == Min(SendsIn(events), U64_MAX)
  {
    hide Next;
    if events != [] {
      AttemptsAreNumbered(events[..|events| - 1]);
      NextOrdinal(Run(events[..|events| - 1]), events[|events| - 1]);
    }
  }
}
