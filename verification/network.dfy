/** The deterministic event queue: ordered by tick, then by insertion. */
module Drivers {
  import opened Core

  datatype Scheduled<T> = Scheduled(tick: u64, sequence: nat, event: T)

  datatype DriverError = SequenceOverflow | Past(now: nat, requested: nat) | ClockOverflow | WentBackwards

  /** The queue is kept in order; `nextSequence` breaks ties within a tick. */
  datatype Driver<T> = Driver(now: u64, nextSequence: u64, queue: seq<Scheduled<T>>)

  predicate Before<T>(a: Scheduled<T>, b: Scheduled<T>) {
    a.tick < b.tick || (a.tick == b.tick && a.sequence < b.sequence)
  }

  function Insert<T>(queue: seq<Scheduled<T>>, s: Scheduled<T>): seq<Scheduled<T>> {
    if queue == [] || Before(s, queue[0]) then [s] + queue
    else [queue[0]] + Insert(queue[1..], s)
  }

  datatype Placed<T> = Placed(driver: Driver<T>, result: Result<nat, DriverError>)

  datatype Popped<T> = Popped(driver: Driver<T>, result: Result<Option<Scheduled<T>>, DriverError>)

  function ScheduleAt<T>(d: Driver<T>, tick: u64, event: T): Placed<T> {
    if tick < d.now then Placed(d, Err(Past(d.now, tick)))
    else if d.nextSequence == U64_MAX then Placed(d, Err(SequenceOverflow))
    else
      Placed(Driver(d.now, d.nextSequence + 1, Insert(d.queue, Scheduled(tick, d.nextSequence, event))),
             Ok(d.nextSequence))
  }

  function ScheduleAfter<T>(d: Driver<T>, delay: u64, event: T): Placed<T> {
    if d.now + delay > U64_MAX then Placed(d, Err(ClockOverflow)) else ScheduleAt(d, d.now + delay, event)
  }

  function PopNext<T>(d: Driver<T>): Popped<T> {
    if d.queue == [] then Popped(d, Ok(None))
    else
      var first := d.queue[0];
      var d1 := d.(queue := d.queue[1..]);
      if first.tick < d.now then Popped(d1, Err(WentBackwards))
      else Popped(d1.(now := first.tick), Ok(Some(first)))
  }

  /** Schedules a list in order at one tick, stopping at the first failure. */
  function ScheduleList<T>(d: Driver<T>, tick: u64, events: seq<T>): Placed<T>
    decreases |events|
  {
    if events == [] then Placed(d, Ok(d.nextSequence))
    else
      var p := ScheduleAt(d, tick, events[0]);
      if p.result.Err? then p else ScheduleList(p.driver, tick, events[1..])
  }

  // -------------------------------------------------------------- invariant

  ghost predicate Increasing<T(!new)>(s: seq<Scheduled<T>>) {
    forall i, j | 0 <= i < j < |s| :: Before(s[i], s[j])
  }

  /** Given everything popped so far: the queue is sorted, entirely in the
      future of what was popped, and the clock stands at the last pop. */
  ghost predicate Timely<T(!new)>(d: Driver<T>, popped: seq<Scheduled<T>>) {
    && Increasing(popped) && Increasing(d.queue)
    && (forall s | s in d.queue :: s.tick >= d.now && s.sequence < d.nextSequence)
    && (forall p, s | p in popped && s in d.queue :: Before(p, s))
    && (forall p | p in popped :: p.tick <= d.now && p.sequence < d.nextSequence)
  }

  /** Insertion puts an entry in front of the first one it precedes. */
  lemma {:induction false} InsertAt<T>(queue: seq<Scheduled<T>>, s: Scheduled<T>, at: nat)
    requires at <= |queue| && forall i | 0 <= i < at :: !Before(s, queue[i])
    requires at < |queue| ==> Before(s, queue[at])
    ensures Insert(queue, s) == queue[..at] + [s] + queue[at..]
  {
    hide Before;
    if at > 0 {
      InsertAt(queue[1..], s, at - 1);
      assert queue[..at] == [queue[0]] + queue[1..][..at - 1];
      assert queue[1..][at - 1..] == queue[at..];
    }
  }

  lemma {:induction false} InsertMembers<T>(queue: seq<Scheduled<T>>, s: Scheduled<T>)
    ensures multiset(Insert(queue, s)) == multiset(queue) + multiset{s}
    ensures forall x :: x in Insert(queue, s) <==> x in queue || x == s
  {
    if queue == [] || Before(s, queue[0]) {
    } else {
      InsertMembers(queue[1..], s);
      assert queue == [queue[0]] + queue[1..];
    }
  }

  lemma {:induction false} InsertSorted<T(!new)>(queue: seq<Scheduled<T>>, s: Scheduled<T>)
    requires Increasing(queue) && forall x | x in queue :: x.sequence != s.sequence
    ensures Increasing(Insert(queue, s))
  {
    if queue == [] {
    } else if Before(s, queue[0]) {
      forall i | 0 <= i < |queue| ensures Before(s, queue[i]) {
        assert i > 0 ==> Before(queue[0], queue[i]);
      }
    } else {
      assert queue[0] in queue && Before(queue[0], s);
      InsertSorted(queue[1..], s);
      InsertMembers(queue[1..], s);
      var rest := Insert(queue[1..], s);
      forall i | 0 <= i < |rest| ensures Before(queue[0], rest[i]) {
        assert rest[i] in rest;
        if rest[i] != s {
          var j :| 0 <= j < |queue[1..]| && queue[1..][j] == rest[i];
          assert Before(queue[0], queue[j + 1]);
        }
      }
    }
  }

  lemma ScheduleKeepsTimely<T(!new)>(d: Driver<T>, popped: seq<Scheduled<T>>, tick: u64, event: T)
    requires Timely(d, popped)
    ensures Timely(ScheduleAt(d, tick, event).driver, popped)
    ensures ScheduleAt(d, tick, event).driver.now == d.now
  {
    if ScheduleAt(d, tick, event).result.Ok? {
      InsertMembers(d.queue, Scheduled(tick, d.nextSequence, event));
      InsertSorted(d.queue, Scheduled(tick, d.nextSequence, event));
    }
  }

  lemma {:induction false} ScheduleListKeepsTimely<T(!new)>(d: Driver<T>, popped: seq<Scheduled<T>>,
                                                            tick: u64, events: seq<T>)
    requires Timely(d, popped)
    ensures Timely(ScheduleList(d, tick, events).driver, popped)
    ensures ScheduleList(d, tick, events).driver.now == d.now
    decreases |events|
  {
    if events != [] {
      ScheduleKeepsTimely(d, popped, tick, events[0]);
      if ScheduleAt(d, tick, events[0]).result.Ok? {
        ScheduleListKeepsTimely(ScheduleAt(d, tick, events[0]).driver, popped, tick, events[1..]);
      }
    }
  }

  /** Popping never fails, returns something after everything popped before,
      and never moves the clock back. */
  lemma PopKeepsTimely<T(!new)>(d: Driver<T>, popped: seq<Scheduled<T>>)
    requires Timely(d, popped)
    ensures var p := PopNext(d);
            && p.result.Ok? && d.now <= p.driver.now
            && (p.result.value.None? ==> p.driver == d && d.queue == [])
            && (p.result.value.Some? ==> Timely(p.driver, popped + [p.result.value.value])
                                         && p.result.value.value.tick == p.driver.now)
  {
    if d.queue != [] {
      var first, rest := d.queue[0], d.queue[1..];
      assert first in d.queue;
      forall i | 0 <= i < |rest| ensures rest[i] in d.queue && Before(first, rest[i]) {
        assert rest[i] == d.queue[i + 1];
      }
      var popped' := popped + [first];
      forall i | 0 <= i < |popped| ensures Before(popped[i], first) {
        assert popped[i] in popped;
      }
    }
  }

  // ------------------------------------------------------------ conservation

  function Events<T>(queue: seq<Scheduled<T>>): multiset<T> {
    if queue == [] then multiset{} else multiset{queue[0].event} + Events(queue[1..])
  }

  lemma {:induction false} InsertEvents<T>(queue: seq<Scheduled<T>>, s: Scheduled<T>)
    ensures Events(Insert(queue, s)) == Events(queue) + multiset{s.event}
  {
    if queue == [] || Before(s, queue[0]) {
      assert ([s] + queue)[1..] == queue;
    } else {
      InsertEvents(queue[1..], s);
      assert ([queue[0]] + Insert(queue[1..], s))[1..] == Insert(queue[1..], s);
    }
  }

  lemma ConsMultiset<T>(x: T, s: seq<T>)
    ensures multiset([x] + s) == multiset{x} + multiset(s)
  {
  }

  /** How many events scheduled in a row at a tick are taken: none in the past,
      otherwise as many as there are sequence numbers left. */
  function Placeable<T>(d: Driver<T>, tick: u64, count: nat): (k: nat)
    ensures k <= count
  {
    if tick < d.now then 0 else Min(count, U64_MAX - d.nextSequence)
  }

  /** A list scheduled puts exactly that prefix of its events in the queue, and
      succeeds exactly when the prefix is the whole list. */
  lemma {:induction false} ScheduleListEvents<T>(d: Driver<T>, tick: u64, events: seq<T>)
    ensures var k := Placeable(d, tick, |events|);
            && (ScheduleList(d, tick, events).result.Ok? <==> k == |events|)
            && Events(ScheduleList(d, tick, events).driver.queue) == Events(d.queue) + multiset(events[..k])
    decreases |events|
  {
    hide Insert, Events, Before;
    if events != [] && ScheduleAt(d, tick, events[0]).result.Ok? {
      var d1 := ScheduleAt(d, tick, events[0]).driver;
      InsertEvents(d.queue, Scheduled(tick, d.nextSequence, events[0]));
      ScheduleListEvents(d1, tick, events[1..]);
      var k := Placeable(d, tick, |events|);
      assert events[..k] == [events[0]] + events[1..][..k - 1];
      ConsMultiset(events[0], events[1..][..k - 1]);
    }
  }

  /** A list scheduled at one tick takes consecutive sequence numbers in list
      order, so it will be popped in list order. */
  lemma {:induction false} ScheduleListOrder<T>(d: Driver<T>, tick: u64, events: seq<T>, i: nat)
    requires ScheduleList(d, tick, events).result.Ok? && i < |events|
    ensures var d' := ScheduleList(d, tick, events).driver;
            && d'.nextSequence == d.nextSequence + |events|
            && Scheduled(tick, d.nextSequence + i, events[i]) in d'.queue
    ensures forall s | s in d.queue :: s in ScheduleList(d, tick, events).driver.queue
    decreases |events|
  {
    var s := Scheduled(tick, d.nextSequence, events[0]);
    var d1 := ScheduleAt(d, tick, events[0]).driver;
    InsertMembers(d.queue, s);
    if |events| > 1 {
      ScheduleListOrder(d1, tick, events[1..], if i > 0 then i - 1 else 0);
    } else {
      assert events[1..] == [];
    }
  }

  // ------------------------------------------------------------- the object

  class EventQueue<T> {
    var now: u64
    var nextSequence: u64
    var queue: seq<Scheduled<T>>

    function State(): Driver<T>
      reads this
    {
      Driver(now, nextSequence, queue)
    }

    constructor ()
      ensures State() == Driver(0, 0, [])
    {
      now, nextSequence, queue := 0, 0, [];
    }

    method PushAt(tick: u64, event: T) returns (r: Result<nat, DriverError>)
      modifies this
      ensures Placed(State(), r) == ScheduleAt(old(State()), tick, event)
    {
      if tick < now {
        return Err(Past(now, tick));
      }
      var sequence := nextSequence;
      if nextSequence == U64_MAX {
        return Err(SequenceOverflow);
      }
      nextSequence := nextSequence + 1;
      var s := Scheduled(tick, sequence, event);
      var at := 0;
      while at < |queue| && !Before(s, queue[at])
        invariant at <= |queue|
        invariant forall i | 0 <= i < at :: !Before(s, queue[i])
      {
        at := at + 1;
      }
      InsertAt(queue, s, at);
      queue := queue[..at] + [s] + queue[at..];
      r := Ok(sequence);
    }

    method PushAfter(delay: u64, event: T) returns (r: Result<nat, DriverError>)
      modifies this
      ensures Placed(State(), r) == ScheduleAfter(old(State()), delay, event)
    {
      if now + delay > U64_MAX {
        return Err(ClockOverflow);
      }
      r := PushAt(now + delay, event);
    }

    method Pop() returns (r: Result<Option<Scheduled<T>>, DriverError>)
      modifies this
      ensures Popped(State(), r) == PopNext(old(State()))
    {
      if |queue| == 0 {
        return Ok(None);
      }
      var first := queue[0];
      queue := queue[1..];
      if first.tick < now {
        return Err(WentBackwards);
      }
      now := first.tick;
      r := Ok(Some(first));
    }
  }
}

/** The simulated network: scripted faults, directed partitions, crashes, and
    held messages released in reverse. */
module Networks {
  import opened Core
  import opened Drivers

  datatype Envelope = Envelope(
    source: NodeId, destination: NodeId, protocol: string, messageType: string, body: seq<byte>)

  datatype FaultPredicate = FaultPredicate(
    ordinal: Option<nat>, source: Option<NodeId>, destination: Option<NodeId>,
    protocol: Option<string>, messageType: Option<string>)

  datatype FaultAction =
    | Drop
    | Duplicate(additionalCopies: nat)
    | Delay(ticks: u64)
    | ReorderAtTick(tick: u64)

  datatype FaultRule = FaultRule(wanted: FaultPredicate, action: FaultAction, consuming: bool, consumed: bool)

  datatype Held = Held(tick: u64, envelope: Envelope)

  datatype NetworkError =
    | AttemptOverflow
    | DuplicateCountOverflow
    | ReorderInPast(now: nat, requested: nat)
    | DriverFailed(error: DriverError)

  datatype Network = Network(
    deliveries: Driver<Envelope>, held: seq<Held>, rules: seq<FaultRule>,
    partitions: set<(NodeId, NodeId)>, crashed: set<NodeId>, lastOrdinal: u64)

  datatype Attempt = Attempt(ordinal: nat, enqueuedCopies: nat)

  datatype SentResult = SentResult(network: Network, result: Result<Attempt, NetworkError>)
  datatype ReleaseResult = ReleaseResult(network: Network, result: Result<nat, NetworkError>)
  datatype PopResult = PopResult(
    network: Network, skipped: seq<Scheduled<Envelope>>, result: Result<Option<Scheduled<Envelope>>, NetworkError>)

  const NEW_NETWORK: Network := Network(Driver(0, 0, []), [], [], {}, {}, 0)

  predicate Wanted<T(==)>(expected: Option<T>, actual: T) {
    expected.None? || expected.value == actual
  }

  predicate Matches(p: FaultPredicate, ordinal: nat, e: Envelope) {
    Wanted(p.ordinal, ordinal) && Wanted(p.source, e.source) && Wanted(p.destination, e.destination)
    && Wanted(p.protocol, e.protocol) && Wanted(p.messageType, e.messageType)
  }

  predicate Applies(r: FaultRule, ordinal: nat, e: Envelope) {
    !r.consumed && Matches(r.wanted, ordinal, e)
  }

  /** Position of the first rule that applies, or the length if none does. */
  function FirstRule(rules: seq<FaultRule>, ordinal: nat, e: Envelope): (p: nat)
    ensures p <= |rules|
    ensures forall i | 0 <= i < p :: !Applies(rules[i], ordinal, e)
    ensures p < |rules| ==> Applies(rules[p], ordinal, e)
  {
    if rules == [] || Applies(rules[0], ordinal, e) then 0 else 1 + FirstRule(rules[1..], ordinal, e)
  }

  function Use(rules: seq<FaultRule>, p: nat): seq<FaultRule>
    requires p < |rules|
  {
    if rules[p].consuming then rules[p := rules[p].(consumed := true)] else rules
  }

  predicate Blocked(n: Network, e: Envelope) {
    e.destination in n.crashed || (e.source, e.destination) in n.partitions
  }

  function Copies(e: Envelope, count: nat): (s: seq<Envelope>)
    ensures |s| == count
  {
    seq(count, _ => e)
  }

  function FromDriver(n: Network, p: Placed<Envelope>, a: Attempt): SentResult {
    SentResult(n.(deliveries := p.driver),
               match p.result case Ok(_) => Ok(a) case Err(e) => Err(DriverFailed(e)))
  }

  function Send(n: Network, e: Envelope): SentResult {
    if n.lastOrdinal == U64_MAX then SentResult(n, Err(AttemptOverflow))
    else
      var ordinal := n.lastOrdinal + 1;
      var n1 := n.(lastOrdinal := ordinal);
      if Blocked(n1, e) then SentResult(n1, Ok(Attempt(ordinal, 0)))
      else
        var p := FirstRule(n1.rules, ordinal, e);
        if p == |n1.rules| then
          FromDriver(n1, ScheduleList(n1.deliveries, n1.deliveries.now, Copies(e, 1)), Attempt(ordinal, 1))
        else
          var n2 := n1.(rules := Use(n1.rules, p));
          match n1.rules[p].action
          case Drop => SentResult(n2, Ok(Attempt(ordinal, 0)))
          case Duplicate(more) =>
            if more >= U32_MAX then SentResult(n2, Err(DuplicateCountOverflow))
            else FromDriver(n2, ScheduleList(n2.deliveries, n2.deliveries.now, Copies(e, more + 1)),
                            Attempt(ordinal, more + 1))
          case Delay(ticks) => FromDriver(n2, ScheduleAfter(n2.deliveries, ticks, e), Attempt(ordinal, 1))
          case ReorderAtTick(tick) =>
            if tick < n2.deliveries.now then SentResult(n2, Err(ReorderInPast(n2.deliveries.now, tick)))
            else SentResult(n2.(held := n2.held + [Held(tick, e)]), Ok(Attempt(ordinal, 0)))
  }

  function HeldAt(held: seq<Held>, tick: nat): seq<Envelope> {
    if held == [] then []
    else
      var last := held[|held| - 1];
      HeldAt(held[..|held| - 1], tick) + if last.tick == tick then [last.envelope] else []
  }

  function NotHeldAt(held: seq<Held>, tick: nat): seq<Held> {
    if held == [] then []
    else
      var last := held[|held| - 1];
      NotHeldAt(held[..|held| - 1], tick) + if last.tick == tick then [] else [last]
  }

  function Reversed<T>(s: seq<T>): (r: seq<T>)
    ensures |r| == |s|
    ensures forall i | 0 <= i < |s| :: r[i] == s[|s| - 1 - i]
  {
    if s == [] then [] else Reversed(s[1..]) + [s[0]]
  }

  function Release(n: Network, tick: u64): ReleaseResult {
    var n1 := n.(held := NotHeldAt(n.held, tick));
    var releasing := HeldAt(n.held, tick);
    var p := ScheduleList(n.deliveries, tick, Reversed(releasing));
    ReleaseResult(n1.(deliveries := p.driver),
                  match p.result case Ok(_) => Ok(|releasing|) case Err(e) => Err(DriverFailed(e)))
  }

  /** Pops until a copy is deliverable; those blocked on the way are skipped. */
  function PopDelivery(n: Network): PopResult
    decreases |n.deliveries.queue|
  {
    var p := PopNext(n.deliveries);
    var n1 := n.(deliveries := p.driver);
    match p.result
    case Err(e) => PopResult(n1, [], Err(DriverFailed(e)))
    case Ok(None) => PopResult(n1, [], Ok(None))
    case Ok(Some(s)) =>
      if !Blocked(n1, s.event) then PopResult(n1, [], Ok(Some(s)))
      else
        var rest := PopDelivery(n1);
        rest.(skipped := [s] + rest.skipped)
  }

  class SimulatedNetwork {
    const deliveries: EventQueue<Envelope>
    var held: seq<Held>
    var rules: seq<FaultRule>
    var partitions: set<(NodeId, NodeId)>
    var crashed: set<NodeId>
    var lastOrdinal: u64

    function State(): Network
      reads this, deliveries
    {
      Network(deliveries.State(), held, rules, partitions, crashed, lastOrdinal)
    }

    constructor ()
      ensures State() == NEW_NETWORK && fresh(deliveries)
    {
      deliveries := new EventQueue();
      held, rules, partitions, crashed, lastOrdinal := [], [], {}, {}, 0;
    }

    method AddFault(rule: FaultRule)
      modifies this
      ensures State() == old(State()).(rules := old(rules) + [rule])
    {
      rules := rules + [rule];
    }

    method Partition(source: NodeId, destination: NodeId)
      modifies this
      ensures State() == old(State()).(partitions := old(partitions) + {(source, destination)})
    {
      partitions := partitions + {(source, destination)};
    }

    method Heal(source: NodeId, destination: NodeId) returns (existed: bool)
      modifies this
      ensures State() == old(State()).(partitions := old(partitions) - {(source, destination)})
      ensures existed == ((source, destination) in old(partitions))
    {
      existed := (source, destination) in partitions;
      partitions := partitions - {(source, destination)};
    }

    method Crash(node: NodeId)
      modifies this
      ensures State() == old(State()).(crashed := old(crashed) + {node})
    {
      crashed := crashed + {node};
    }

    method Restart(node: NodeId) returns (existed: bool)
      modifies this
      ensures State() == old(State()).(crashed := old(crashed) - {node})
      ensures existed == (node in old(crashed))
    {
      existed := node in crashed;
      crashed := crashed - {node};
    }

    method SendEnvelope(e: Envelope) returns (r: Result<Attempt, NetworkError>)
      modifies this, deliveries
      ensures SentResult(State(), r) == Send(old(State()), e)
    {
      hide ScheduleList, Insert, Matches, Applies;
      if lastOrdinal == U64_MAX {
        return Err(AttemptOverflow);
      }
      lastOrdinal := lastOrdinal + 1;
      var ordinal := lastOrdinal;
      if Blocked(State(), e) {
        return Ok(Attempt(ordinal, 0));
      }
      var action := MatchRule(ordinal, e);
      match action {
        case None => r := Enqueue(e, 1, ordinal);
        case Some(Drop) => r := Ok(Attempt(ordinal, 0));
        case Some(Duplicate(more)) =>
          if more + 1 > U32_MAX {
            return Err(DuplicateCountOverflow);
          }
          r := Enqueue(e, more + 1, ordinal);
        case Some(Delay(ticks)) =>
          var placed := deliveries.PushAfter(ticks, e);
          r := if placed.Ok? then Ok(Attempt(ordinal, 1)) else Err(DriverFailed(placed.error));
        case Some(ReorderAtTick(tick)) =>
          if tick < deliveries.now {
            return Err(ReorderInPast(deliveries.now, tick));
          }
          held := held + [Held(tick, e)];
          r := Ok(Attempt(ordinal, 0));
      }
    }

    /** Finds the first applicable rule and uses it up if it is consuming. */
    method MatchRule(ordinal: nat, e: Envelope) returns (action: Option<FaultAction>)
      modifies this`rules
      ensures var p := FirstRule(old(rules), ordinal, e);
              && action == (if p < |old(rules)| then Some(old(rules)[p].action) else None)
              && rules == (if p < |old(rules)| then Use(old(rules), p) else old(rules))
    {
      var i := 0;
      while i < |rules| && !Applies(rules[i], ordinal, e)
        invariant i <= |rules|
        invariant FirstRule(rules, ordinal, e) == i + FirstRule(rules[i..], ordinal, e)
      {
        assert rules[i..][1..] == rules[i + 1..];
        i := i + 1;
      }
      if i == |rules| {
        return None;
      }
      action := Some(rules[i].action);
      if rules[i].consuming {
        rules := rules[i := rules[i].(consumed := true)];
      }
    }

    /** Queues copies at the current tick until done or refused. */
    method Enqueue(e: Envelope, count: nat, ordinal: nat) returns (r: Result<Attempt, NetworkError>)
      modifies deliveries
      ensures SentResult(State(), r)
           == FromDriver(old(State()), ScheduleList(old(deliveries.State()), old(deliveries.now), Copies(e, count)),
                         Attempt(ordinal, count))
    {
      ghost var start := deliveries.State();
      for i := 0 to count
        invariant deliveries.now == start.now
        invariant ScheduleList(start, start.now, Copies(e, count))
               == ScheduleList(deliveries.State(), start.now, Copies(e, count - i))
      {
        assert Copies(e, count - i)[1..] == Copies(e, count - i - 1);
        var placed := deliveries.PushAfter(0, e);
        if placed.Err? {
          return Err(DriverFailed(placed.error));
        }
      }
      r := Ok(Attempt(ordinal, count));
    }

    method ReleaseReorderedAt(tick: u64) returns (r: Result<nat, NetworkError>)
      modifies this, deliveries
      ensures ReleaseResult(State(), r) == Release(old(State()), tick)
    {
      var releasing := TakeHeld(tick);
      r := ScheduleReversed(tick, releasing);
    }

    /** Removes the messages held for a tick, in hold order. */
    method TakeHeld(tick: u64) returns (releasing: seq<Envelope>)
      modifies this`held
      ensures held == NotHeldAt(old(held), tick) && releasing == HeldAt(old(held), tick)
    {
      var retained: seq<Held> := [];
      releasing := [];
      var taken := held;
      held := [];
      for i := 0 to |taken|
        invariant retained == NotHeldAt(taken[..i], tick) && releasing == HeldAt(taken[..i], tick)
      {
        assert taken[..i + 1][..i] == taken[..i];
        if taken[i].tick == tick {
          releasing := releasing + [taken[i].envelope];
        } else {
          retained := retained + [taken[i]];
        }
      }
      assert taken[..|taken|] == taken;
      held := retained;
    }

    /** Schedules messages from the last to the first until one is refused. */
    method ScheduleReversed(tick: u64, releasing: seq<Envelope>) returns (r: Result<nat, NetworkError>)
      modifies deliveries
      ensures var p := ScheduleList(old(deliveries.State()), tick, Reversed(releasing));
              && deliveries.State() == p.driver
              && r == match p.result case Ok(_) => Ok(|releasing|) case Err(e) => Err(DriverFailed(e))
    {
      ghost var start := deliveries.State();
      var j: nat := |releasing|;
      assert releasing[..j] == releasing;
      while j > 0
        invariant j <= |releasing|
        invariant ScheduleList(start, tick, Reversed(releasing))
               == ScheduleList(deliveries.State(), tick, Reversed(releasing[..j]))
      {
        j := j - 1;
        ReversedLast(releasing[..j + 1]);
        assert releasing[..j + 1][..j] == releasing[..j];
        var placed := deliveries.PushAt(tick, releasing[j]);
        if placed.Err? {
          return Err(DriverFailed(placed.error));
        }
      }
      r := Ok(|releasing|);
    }

    method PopDeliverable() returns (r: Result<Option<Scheduled<Envelope>>, NetworkError>)
      modifies deliveries
      ensures State() == PopDelivery(old(State())).network && r == PopDelivery(old(State())).result
    {
      while true
        invariant PopDelivery(old(State())).network == PopDelivery(State()).network
        invariant PopDelivery(old(State())).result == PopDelivery(State()).result
        decreases |deliveries.queue|
      {
        var popped := deliveries.Pop();
        match popped {
          case Err(e) => return Err(DriverFailed(e));
          case Ok(None) => return Ok(None);
          case Ok(Some(s)) =>
            if !Blocked(State(), s.event) {
              return Ok(Some(s));
            }
        }
      }
    }
  }

  lemma {:induction false} ReversedLast<T>(s: seq<T>)
    requires s != []
    ensures Reversed(s) == [s[|s| - 1]] + Reversed(s[..|s| - 1])
  {
    if |s| > 1 {
      ReversedLast(s[1..]);
      assert s[1..][..|s| - 2] == s[..|s| - 1][1..];
    }
  }
}

/** Order and conservation of deliveries, over every run of the network. */
module NetworkSafety {
  import opened Core
  import opened Drivers
  import opened Networks

  datatype Control =
    | AddFault(rule: FaultRule)
    | Partition(source: NodeId, destination: NodeId)
    | Heal(source: NodeId, destination: NodeId)
    | Crash(node: NodeId)
    | Restart(node: NodeId)

  datatype Event = Sending(envelope: Envelope) | Releasing(tick: u64) | Popping | Controlling(control: Control)

  /** The network with what a run has shown: every copy accepted, everything
      taken from the queue, what of it was returned, and what was discarded. */
  datatype World = World(
    net: Network, accepted: multiset<Envelope>, taken: seq<Scheduled<Envelope>>,
    returned: seq<Scheduled<Envelope>>, discarded: multiset<Envelope>)

  const START: World := World(NEW_NETWORK, multiset{}, [], [], multiset{})

  function Steer(n: Network, c: Control): Network {
    match c
    case AddFault(rule) => n.(rules := n.rules + [rule])
    case Partition(s, d) => n.(partitions := n.partitions + {(s, d)})
    case Heal(s, d) => n.(partitions := n.partitions - {(s, d)})
    case Crash(node) => n.(crashed := n.crashed + {node})
    case Restart(node) => n.(crashed := n.crashed - {node})
  }

  /** What becomes of an accepted attempt at once: the copies it makes, and
      whether they are discarded, as under a partition, a crash or a drop. */
  function CopiesMade(n: Network, e: Envelope): nat {
    var p := FirstRule(n.rules, n.lastOrdinal + 1, e);
    if Blocked(n, e) || p == |n.rules| || !n.rules[p].action.Duplicate? then 1
    else n.rules[p].action.additionalCopies + 1
  }

  predicate DiscardedAtOnce(n: Network, e: Envelope) {
    var p := FirstRule(n.rules, n.lastOrdinal + 1, e);
    Blocked(n, e) || (p < |n.rules| && n.rules[p].action.Drop?)
  }

  function Next(w: World, event: Event): World {
    match event
    case Sending(e) =>
      var s := Send(w.net, e);
      if s.result.Err? then w.(net := s.network)
      else
        var copies := multiset(Copies(e, CopiesMade(w.net, e)));
        w.(net := s.network, accepted := w.accepted + copies,
           discarded := w.discarded + if DiscardedAtOnce(w.net, e) then copies else multiset{})
    case Releasing(tick) =>
      w.(net := Release(w.net, tick).network)
    case Popping =>
      var p := PopDelivery(w.net);
      w.(net := p.network, taken := w.taken + p.skipped + Found(p), returned := w.returned + Found(p),
         discarded := w.discarded + Events(p.skipped))
    case Controlling(c) => w.(net := Steer(w.net, c))
  }

  function Run(events: seq<Event>): World {
    if events == [] then START else Next(Run(events[..|events| - 1]), events[|events| - 1])
  }

  // ----------------------------------------------------------------- order

  ghost predicate Ordered(w: World) {
    && Timely(w.net.deliveries, w.taken)
    && Increasing(w.returned) && (forall s | s in w.returned :: s in w.taken)
  }

  lemma SendKeepsTimely(n: Network, e: Envelope, taken: seq<Scheduled<Envelope>>)
    requires Timely(n.deliveries, taken)
    ensures Timely(Send(n, e).network.deliveries, taken) && Send(n, e).network.deliveries.now == n.deliveries.now
  {
    hide Timely, ScheduleAt, ScheduleList, Matches;
    if n.lastOrdinal < U64_MAX && !Blocked(n, e) {
      var p := FirstRule(n.rules, n.lastOrdinal + 1, e);
      if p == |n.rules| {
        ScheduleListKeepsTimely(n.deliveries, taken, n.deliveries.now, Copies(e, 1));
      } else {
        match n.rules[p].action {
          case Drop =>
          case Duplicate(more) =>
            ScheduleListKeepsTimely(n.deliveries, taken, n.deliveries.now, Copies(e, more + 1));
          case Delay(ticks) =>
            if n.deliveries.now + ticks <= U64_MAX {
              ScheduleKeepsTimely(n.deliveries, taken, n.deliveries.now + ticks, e);
            }
          case ReorderAtTick(_) =>
        }
      }
    }
  }

  function Found(p: PopResult): seq<Scheduled<Envelope>> {
    if p.result.Ok? && p.result.value.Some? then [p.result.value.value] else []
  }

  /** Everything a pop takes comes after everything taken before, in order. */
  lemma {:induction false} PopLaw(n: Network, taken: seq<Scheduled<Envelope>>)
    requires Timely(n.deliveries, taken)
    ensures var p := PopDelivery(n);
            && p.result.Ok? && n.deliveries.now <= p.network.deliveries.now
            && Timely(p.network.deliveries, taken + p.skipped + Found(p))
            && p.network.held == n.held
    decreases |n.deliveries.queue|
  {
    hide Timely;
    PopKeepsTimely(n.deliveries, taken);
    var q := PopNext(n.deliveries);
    assert taken + [] + [] == taken;
    if q.result.value.Some? {
      var s := q.result.value.value;
      var n1 := n.(deliveries := q.driver);
      if Blocked(n1, s.event) {
        PopLaw(n1, taken + [s]);
        var p := PopDelivery(n1);
        assert taken + [s] + p.skipped + Found(p) == taken + ([s] + p.skipped) + Found(p);
      } else {
        assert taken + [] + [s] == taken + [s];
      }
    }
  }

  /** A pop returns the first copy that can be delivered: its destination is
      up and the direction is not partitioned, and every copy passed over was
      bound for a crashed node or crossed a partition. */
  lemma {:induction false} PopReturnsReachable(n: Network)
    ensures var p := PopDelivery(n);
            && p.network.crashed == n.crashed && p.network.partitions == n.partitions
            && (forall s | s in Found(p) ::
                  s.event.destination !in n.crashed && (s.event.source, s.event.destination) !in n.partitions)
            && (forall s | s in p.skipped ::
                  s.event.destination in n.crashed || (s.event.source, s.event.destination) in n.partitions)
            && p.skipped + Found(p) <= n.deliveries.queue
            && (p.result == Ok(None) ==> p.skipped == n.deliveries.queue)
    decreases |n.deliveries.queue|
  {
    var q := PopNext(n.deliveries);
    if q.result.Ok? && q.result.value.Some? {
      var n1 := n.(deliveries := q.driver);
      assert n.deliveries.queue == [n.deliveries.queue[0]] + n1.deliveries.queue;
      if Blocked(n1, q.result.value.value.event) {
        PopReturnsReachable(n1);
      }
    }
  }

  lemma ConsEvents(s: Scheduled<Envelope>, rest: seq<Scheduled<Envelope>>)
    ensures Events([s] + rest) == multiset{s.event} + Events(rest)
  {
    assert ([s] + rest)[1..] == rest;
  }

  /** A pop moves copies out of the queue and loses none. */
  lemma {:induction false} PopEvents(n: Network)
    requires PopDelivery(n).result.Ok?
    ensures var p := PopDelivery(n);
            Events(n.deliveries.queue) == Events(p.network.deliveries.queue) + Events(p.skipped) + Events(Found(p))
    decreases |n.deliveries.queue|
  {
    hide Events, Blocked;
    assert Events<Envelope>([]) == multiset{} by {
      EmptyEvents();
    }
    var q := PopNext(n.deliveries);
    if q.result.Ok? && q.result.value.Some? {
      var s := q.result.value.value;
      var n1 := n.(deliveries := q.driver);
      assert n.deliveries.queue == [s] + n1.deliveries.queue;
      ConsEvents(s, n1.deliveries.queue);
      if Blocked(n1, s.event) {
        PopEvents(n1);
        ConsEvents(s, PopDelivery(n1).skipped);
      } else {
        assert [s] == [s] + [];
        ConsEvents(s, []);
      }
    }
  }

  lemma EmptyEvents()
    ensures Events<Envelope>([]) == multiset{}
  {
  }

  lemma NextKeepsOrder(w: World, event: Event)
    requires Ordered(w)
    ensures Ordered(Next(w, event)) && w.net.deliveries.now <= Next(w, event).net.deliveries.now
    ensures w.returned <= Next(w, event).returned
  {
    hide Send;
    match event {
      case Sending(e) => SendKeepsTimely(w.net, e, w.taken);
      case Releasing(tick) =>
        ScheduleListKeepsTimely(w.net.deliveries, w.taken, tick, Reversed(HeldAt(w.net.held, tick)));
      case Popping => PopKeepsOrder(w);
      case Controlling(_) =>
    }
  }

  /** Returning something taken last keeps the returned sequence increasing. */
  lemma ReturnedIncreases(taken: seq<Scheduled<Envelope>>, skipped: seq<Scheduled<Envelope>>,
                          s: Scheduled<Envelope>, returned: seq<Scheduled<Envelope>>)
    requires Increasing(taken + skipped + [s]) && Increasing(returned)
    requires forall x | x in returned :: x in taken
    ensures Increasing(returned + [s])
  {
    var all := taken + skipped + [s];
    forall i | 0 <= i < |returned| ensures Before(returned[i], s) {
      assert returned[i] in taken;
      var j :| 0 <= j < |taken| && taken[j] == returned[i];
      assert all[j] == taken[j] && all[|all| - 1] == s;
    }
  }

  lemma PopKeepsOrder(w: World)
    requires Ordered(w)
    ensures Ordered(Next(w, Popping)) && w.net.deliveries.now <= Next(w, Popping).net.deliveries.now
  {
    hide PopDelivery, Increasing;
    PopLaw(w.net, w.taken);
    var p := PopDelivery(w.net);
    assert w.returned + [] == w.returned;
    if Found(p) != [] {
      ReturnedIncreases(w.taken, p.skipped, Found(p)[0], w.returned);
    }
  }

  lemma {:induction false} RunOrdered(events: seq<Event>)
    ensures Ordered(Run(events))
  {
    hide Next;
    if events != [] {
      RunOrdered(events[..|events| - 1]);
      NextKeepsOrder(Run(events[..|events| - 1]), events[|events| - 1]);
    }
  }

  /** Deliveries are returned in strictly increasing (tick, sequence) order over
      any interleaving of sends, releases, pops and control changes, whether or
      not calls fail; what a run has returned is only extended; and the clock
      never goes back. */
  lemma {:induction false} DeliveriesIncrease(events: seq<Event>, j: nat)
    requires j <= |events|
    ensures Increasing(Run(events).taken) && Increasing(Run(events).returned)
    ensures Run(events[..j]).returned <= Run(events).returned
    ensures Run(events[..j]).net.deliveries.now <= Run(events).net.deliveries.now
  {
    hide Next, Increasing;
    RunOrdered(events);
    if j == |events| {
      assert events[..j] == events;
    } else {
      var before := events[..|events| - 1];
      assert before[..j] == events[..j];
      DeliveriesIncrease(before, j);
      RunOrdered(before);
      NextKeepsOrder(Run(before), events[|events| - 1]);
    }
  }

  // ----------------------------------------------------------------- rules

  /** Rule i is the one that decides a send. */
  predicate DecidedBy(n: Network, e: Envelope, i: nat) {
    n.lastOrdinal < U64_MAX && !Blocked(n, e)
    && i < |n.rules| && FirstRule(n.rules, n.lastOrdinal + 1, e) == i
  }

  /** Rules keep their place and meaning, and once consumed stay consumed. */
  ghost predicate RulesKept(before: seq<FaultRule>, after: seq<FaultRule>) {
    |before| <= |after|
    && forall i | 0 <= i < |before| ::
         after[i] == before[i] || (before[i].consuming && after[i] == before[i].(consumed := true))
  }

  lemma SendRules(n: Network, e: Envelope)
    ensures var p := FirstRule(n.rules, n.lastOrdinal + 1, e);
            Send(n, e).network.rules == if DecidedBy(n, e, p) then Use(n.rules, p) else n.rules
  {
    hide ScheduleList, ScheduleAfter, FirstRule;
  }

  lemma NextKeepsRules(w: World, event: Event)
    ensures RulesKept(w.net.rules, Next(w, event).net.rules)
  {
    hide Send, Release, PopDelivery, FirstRule, Blocked;
    match event {
      case Sending(e) => SendRules(w.net, e);
      case Releasing(tick) => ReleaseRules(w.net, tick);
      case Popping => PopKeepsRules(w.net);
      case Controlling(_) =>
    }
  }

  lemma ReleaseRules(n: Network, tick: u64)
    ensures Release(n, tick).network.rules == n.rules
  {
    hide ScheduleList;
  }

  lemma {:induction false} PopKeepsRules(n: Network)
    ensures PopDelivery(n).network.rules == n.rules
    decreases |n.deliveries.queue|
  {
    var q := PopNext(n.deliveries);
    if q.result.Ok? && q.result.value.Some? {
      PopKeepsRules(n.(deliveries := q.driver));
    }
  }

  lemma {:induction false} RunKeepsRules(events: seq<Event>, j: nat)
    requires j <= |events|
    ensures RulesKept(Run(events[..j]).net.rules, Run(events).net.rules)
  {
    hide Next;
    if j == |events| {
      assert events[..j] == events;
    } else {
      var before := events[..|events| - 1];
      assert before[..j] == events[..j];
      RunKeepsRules(before, j);
      NextKeepsRules(Run(before), events[|events| - 1]);
    }
  }

  lemma DecidingConsumes(w: World, e: Envelope, i: nat)
    requires DecidedBy(w.net, e, i) && w.net.rules[i].consuming
    ensures i < |Next(w, Sending(e)).net.rules| && Next(w, Sending(e)).net.rules[i].consumed
  {
    hide Send;
    SendRules(w.net, e);
  }

  /** Over a whole run a consuming rule decides at most one send: a rule that
      decides two is a reusable one. */
  lemma ConsumingDecidesOnce(events: seq<Event>, j: nat, k: nat, first: Envelope, second: Envelope, i: nat)
    requires j < k < |events| && events[j] == Sending(first) && events[k] == Sending(second)
    requires DecidedBy(Run(events[..j]).net, first, i) && DecidedBy(Run(events[..k]).net, second, i)
    ensures !Run(events[..j]).net.rules[i].consuming
  {
    hide Next;
    if Run(events[..j]).net.rules[i].consuming {
      DecidingConsumes(Run(events[..j]), first, i);
      assert events[..j + 1][..j] == events[..j] && events[..k][..j + 1] == events[..j + 1];
      RunKeepsRules(events[..k], j + 1);
      assert false;
    }
  }

  // ---------------------------------------------------------- conservation

  function HeldEnvelopes(held: seq<Held>): multiset<Envelope> {
    if held == [] then multiset{} else multiset{held[0].envelope} + HeldEnvelopes(held[1..])
  }

  /** Every accepted copy is queued, held, returned or discarded, and in exactly
      one of these. */
  ghost predicate Conserved(w: World) {
    w.accepted == Events(w.net.deliveries.queue) + HeldEnvelopes(w.net.held)
                  + Events(w.returned) + w.discarded
  }

  lemma {:induction false} EventsConcat(a: seq<Scheduled<Envelope>>, b: seq<Scheduled<Envelope>>)
    ensures Events(a + b) == Events(a) + Events(b)
  {
    if a == [] {
      assert a + b == b;
    } else {
      assert (a + b)[1..] == a[1..] + b;
      EventsConcat(a[1..], b);
    }
  }

  lemma {:induction false} HeldSnoc(held: seq<Held>, h: Held)
    ensures HeldEnvelopes(held + [h]) == HeldEnvelopes(held) + multiset{h.envelope}
  {
    if held == [] {
      assert held + [h] == [h];
    } else {
      assert (held + [h])[1..] == held[1..] + [h];
      HeldSnoc(held[1..], h);
    }
  }

  lemma {:induction false} HeldSplits(held: seq<Held>, tick: nat)
    ensures HeldEnvelopes(held) == HeldEnvelopes(NotHeldAt(held, tick)) + multiset(HeldAt(held, tick))
  {
    if held != [] {
      hide HeldEnvelopes;
      var front, last := held[..|held| - 1], held[|held| - 1];
      assert held == front + [last];
      HeldSplits(front, tick);
      HeldSnoc(front, last);
      if last.tick == tick {
        assert HeldAt(held, tick) == HeldAt(front, tick) + [last.envelope];
        assert NotHeldAt(held, tick) == NotHeldAt(front, tick);
      } else {
        assert HeldAt(held, tick) == HeldAt(front, tick);
        HeldSnoc(NotHeldAt(front, tick), last);
      }
    }
  }

  lemma {:induction false} ReversedSame<T>(s: seq<T>)
    ensures multiset(Reversed(s)) == multiset(s)
  {
    if s != [] {
      ReversedSame(s[1..]);
      assert s == [s[0]] + s[1..];
    }
  }

  lemma SplitMultiset<T>(s: seq<T>, k: nat)
    requires k <= |s|
    ensures multiset(s) == multiset(s[..k]) + multiset(s[k..])
  {
    assert s == s[..k] + s[k..];
  }

  /** Placing part of a list conserves the total exactly when nothing is left. */
  lemma ConservesIff(queue: multiset<Envelope>, placed: multiset<Envelope>, held: multiset<Envelope>,
                     rest: seq<Envelope>)
    ensures queue + placed + held == queue + (held + (placed + multiset(rest))) <==> rest == []
  {
    if rest != [] {
      var e := rest[0];
      assert e in multiset(rest);
      assert (queue + placed + held)[e] < (queue + (held + (placed + multiset(rest))))[e];
    }
  }

  /** What a caller can check before a release: nothing is held for the tick, or
      the tick is not past and enough sequence numbers are left. */
  predicate Releasable(n: Network, tick: u64) {
    var count := |HeldAt(n.held, tick)|;
    count == 0 || (tick >= n.deliveries.now && n.deliveries.nextSequence + count <= U64_MAX)
  }

  /** Where every released message goes: those held last are queued as far as
      possible, and those held first, for which nothing is left, are gone.  For
      a past tick that is all of them. */
  lemma ReleaseAccounts(n: Network, tick: u64)
    ensures var r := Release(n, tick);
            var reversed := Reversed(HeldAt(n.held, tick));
            var k := Placeable(n.deliveries, tick, |reversed|);
            && (r.result.Ok? <==> k == |reversed|)
            && Events(r.network.deliveries.queue) == Events(n.deliveries.queue) + multiset(reversed[..k])
            && HeldEnvelopes(n.held) == HeldEnvelopes(r.network.held) + multiset(reversed)
    ensures tick < n.deliveries.now ==> Release(n, tick).network == n.(held := NotHeldAt(n.held, tick))
  {
    hide Events, HeldEnvelopes, HeldAt, NotHeldAt;
    HeldSplits(n.held, tick);
    ReversedSame(HeldAt(n.held, tick));
    ScheduleListEvents(n.deliveries, tick, Reversed(HeldAt(n.held, tick)));
  }

  /** A release succeeds, and loses no message, exactly under that condition. */
  lemma ReleaseConservesIff(n: Network, tick: u64)
    ensures Release(n, tick).result.Ok? <==> Releasable(n, tick)
    ensures var after := Release(n, tick).network;
            Events(after.deliveries.queue) + HeldEnvelopes(after.held)
              == Events(n.deliveries.queue) + HeldEnvelopes(n.held)
            <==> Releasable(n, tick)
  {
    hide ScheduleList, Events, HeldEnvelopes, HeldAt, NotHeldAt, Release;
    var reversed := Reversed(HeldAt(n.held, tick));
    var k := Placeable(n.deliveries, tick, |reversed|);
    ReleaseAccounts(n, tick);
    SplitMultiset(reversed, k);
    ConservesIff(Events(n.deliveries.queue), multiset(reversed[..k]),
                 HeldEnvelopes(Release(n, tick).network.held), reversed[k..]);
  }

  /** Messages held for one tick are released in reverse hold order: the i-th
      copy queued is the i-th from the end, with consecutive sequence numbers. */
  lemma ReleaseReverses(n: Network, tick: u64, i: nat)
    requires Releasable(n, tick) && i < |HeldAt(n.held, tick)|
    ensures var releasing := HeldAt(n.held, tick);
            Scheduled(tick, n.deliveries.nextSequence + i, releasing[|releasing| - 1 - i])
              in Release(n, tick).network.deliveries.queue
  {
    hide HeldAt, NotHeldAt, ScheduleList, Events;
    ScheduleListEvents(n.deliveries, tick, Reversed(HeldAt(n.held, tick)));
    ScheduleListOrder(n.deliveries, tick, Reversed(HeldAt(n.held, tick)), i);
  }

  lemma CopiesQueued(d: Driver<Envelope>, e: Envelope, count: nat)
    ensures var k := Placeable(d, d.now, count);
            && (ScheduleList(d, d.now, Copies(e, count)).result.Ok? <==> k == count)
            && Events(ScheduleList(d, d.now, Copies(e, count)).driver.queue)
               == Events(d.queue) + multiset(Copies(e, k))
            && |multiset(Copies(e, k))| == k
  {
    hide ScheduleList, Events;
    ScheduleListEvents(d, d.now, Copies(e, count));
    var k := Placeable(d, d.now, count);
    assert Copies(e, count)[..k] == Copies(e, k);
  }

  /** What a caller can check before a send: it does not make more copies than
      there are sequence numbers left, unless none is left. */
  predicate SendWhole(n: Network, e: Envelope) {
    var p := FirstRule(n.rules, n.lastOrdinal + 1, e);
    n.lastOrdinal == U64_MAX || Blocked(n, e) || p == |n.rules| || !n.rules[p].action.Duplicate?
    || n.rules[p].action.additionalCopies >= U32_MAX || n.deliveries.nextSequence == U64_MAX
    || n.deliveries.nextSequence + n.rules[p].action.additionalCopies + 1 <= U64_MAX
  }

  /** The copies an attempt adds to the queue or the held messages: all it makes
      when it is accepted and not discarded at once. */
  function Gained(n: Network, e: Envelope): multiset<Envelope> {
    if Send(n, e).result.Ok? && !DiscardedAtOnce(n, e) then multiset(Copies(e, CopiesMade(n, e))) else multiset{}
  }

  /** An attempt puts exactly the copies it makes in the queue or among the held
      messages, and a refused one puts nothing there, except that duplicates cut
      short by an exhausted counter stay queued. */
  lemma SendConservesIff(n: Network, e: Envelope)
    ensures var after := Send(n, e).network;
            Events(after.deliveries.queue) + HeldEnvelopes(after.held)
              == Events(n.deliveries.queue) + HeldEnvelopes(n.held) + Gained(n, e)
            <==> SendWhole(n, e)
    ensures Send(n, e).result.Ok? ==> SendWhole(n, e)
  {
    hide ScheduleList, Events, HeldEnvelopes, Insert, FirstRule;
    var p := FirstRule(n.rules, n.lastOrdinal + 1, e);
    if n.lastOrdinal < U64_MAX && !Blocked(n, e) {
      if p == |n.rules| {
        CopiesQueued(n.deliveries, e, 1);
      } else {
        match n.rules[p].action {
          case Drop => DropConserves(n, e);
          case Duplicate(more) => DuplicateConservesIff(n, e, more);
          case Delay(ticks) => DelayConserves(n, e, ticks);
          case ReorderAtTick(tick) => HoldConserves(n, e, tick);
        }
      }
    }
  }

  lemma OneCopy(e: Envelope)
    ensures multiset(Copies(e, 1)) == multiset{e}
  {
    assert Copies(e, 1) == [e];
  }

  lemma DropConserves(n: Network, e: Envelope)
    requires n.lastOrdinal < U64_MAX && Decides(n, e, Drop)
    ensures var after := Send(n, e).network;
            Events(after.deliveries.queue) + HeldEnvelopes(after.held)
              == Events(n.deliveries.queue) + HeldEnvelopes(n.held) + Gained(n, e)
  {
    hide Events, HeldEnvelopes, FirstRule;
  }

  lemma DelayConserves(n: Network, e: Envelope, ticks: u64)
    requires n.lastOrdinal < U64_MAX && Decides(n, e, Delay(ticks))
    ensures var after := Send(n, e).network;
            Events(after.deliveries.queue) + HeldEnvelopes(after.held)
              == Events(n.deliveries.queue) + HeldEnvelopes(n.held) + Gained(n, e)
  {
    hide ScheduleList, Events, HeldEnvelopes, Insert, FirstRule;
    OneCopy(e);
    if n.deliveries.now + ticks <= U64_MAX {
      InsertEvents(n.deliveries.queue, Scheduled(n.deliveries.now + ticks, n.deliveries.nextSequence, e));
    }
  }

  lemma HoldConserves(n: Network, e: Envelope, tick: u64)
    requires n.lastOrdinal < U64_MAX && Decides(n, e, ReorderAtTick(tick))
    ensures var after := Send(n, e).network;
            Events(after.deliveries.queue) + HeldEnvelopes(after.held)
              == Events(n.deliveries.queue) + HeldEnvelopes(n.held) + Gained(n, e)
  {
    hide ScheduleList, Events, HeldEnvelopes, FirstRule;
    OneCopy(e);
    HeldSnoc(n.held, Held(tick, e));
  }

  lemma DuplicateConservesIff(n: Network, e: Envelope, more: nat)
    requires n.lastOrdinal < U64_MAX && Decides(n, e, Duplicate(more))
    ensures var after := Send(n, e).network;
            Events(after.deliveries.queue) + HeldEnvelopes(after.held)
              == Events(n.deliveries.queue) + HeldEnvelopes(n.held) + Gained(n, e)
            <==> SendWhole(n, e)
    ensures Send(n, e).result.Ok? ==> SendWhole(n, e)
  {
    hide ScheduleList, Events, HeldEnvelopes, Insert, FirstRule;
    if more < U32_MAX {
      CopiesQueued(n.deliveries, e, more + 1);
      var k := Placeable(n.deliveries, n.deliveries.now, more + 1);
      ExtraCopies(Events(n.deliveries.queue), HeldEnvelopes(n.held), multiset(Copies(e, k)));
    }
  }

  lemma ExtraCopies(queue: multiset<Envelope>, held: multiset<Envelope>, extra: multiset<Envelope>)
    ensures queue + extra + held == queue + held <==> |extra| == 0
  {
    if |extra| != 0 {
      var e :| e in extra;
      assert (queue + extra + held)[e] > (queue + held)[e];
    }
  }

  /** The rule that decides an unblocked attempt, if any. */
  predicate Decides(n: Network, e: Envelope, action: FaultAction) {
    var p := FirstRule(n.rules, n.lastOrdinal + 1, e);
    !Blocked(n, e) && p < |n.rules| && n.rules[p].action == action
  }

  /** Where the copies of an accepted attempt land: the current tick, or later
      by the delay of the deciding rule, under the next sequence numbers; nothing
      queued before is lost. */
  lemma SendLands(n: Network, e: Envelope, delay: u64, i: nat)
    requires Send(n, e).result.Ok? && i < Send(n, e).result.value.enqueuedCopies
    requires Decides(n, e, Delay(delay)) || (delay == 0 && forall d: u64 :: !Decides(n, e, Delay(d)))
    ensures n.deliveries.now + delay <= U64_MAX
    ensures var after, copies := Send(n, e).network.deliveries, Send(n, e).result.value.enqueuedCopies;
            && after.nextSequence == n.deliveries.nextSequence + copies
            && Scheduled(n.deliveries.now + delay, n.deliveries.nextSequence + i, e) in after.queue
    ensures forall s | s in n.deliveries.queue :: s in Send(n, e).network.deliveries.queue
  {
    hide Insert, Matches;
    var p := FirstRule(n.rules, n.lastOrdinal + 1, e);
    if p < |n.rules| && n.rules[p].action.Delay? {
      assert Decides(n, e, Delay(n.rules[p].action.ticks));
      var landed := Scheduled(n.deliveries.now + delay, n.deliveries.nextSequence, e);
      InsertMembers(n.deliveries.queue, landed);
      assert Send(n, e).network.deliveries.queue == Insert(n.deliveries.queue, landed);
    } else {
      var count := if p < |n.rules| then n.rules[p].action.additionalCopies + 1 else 1;
      ScheduleListOrder(n.deliveries, n.deliveries.now, Copies(e, count), i);
    }
  }

  lemma PopConserves(w: World)
    requires Ordered(w) && Conserved(w)
    ensures Conserved(Next(w, Popping))
  {
    hide PopDelivery, Events;
    PopLaw(w.net, w.taken);
    PopEvents(w.net);
    EventsConcat(w.returned, Found(PopDelivery(w.net)));
  }

  /** The condition under which an event accounts for every copy: it looks only
      at the network before the call. */
  predicate Guarded(n: Network, event: Event) {
    match event
    case Sending(e) => SendWhole(n, e)
    case Releasing(tick) => Releasable(n, tick)
    case Popping => true
    case Controlling(_) => true
  }

  lemma NextConservesIff(w: World, event: Event)
    requires Ordered(w) && Conserved(w)
    ensures Conserved(Next(w, event)) <==> Guarded(w.net, event)
  {
    hide Send, Release, Events, HeldEnvelopes, SendWhole, Releasable, CopiesMade, DiscardedAtOnce;
    match event {
      case Sending(e) =>
        SendConservesIff(w.net, e);
        SendKeepsTotal(w, e);
      case Releasing(tick) =>
        ReleaseConservesIff(w.net, tick);
        Cancels(Events(w.net.deliveries.queue) + HeldEnvelopes(w.net.held), multiset{},
                Events(Release(w.net, tick).network.deliveries.queue)
                + HeldEnvelopes(Release(w.net, tick).network.held),
                Events(w.returned), w.discarded);
      case Popping => PopConserves(w);
      case Controlling(_) =>
    }
  }

  lemma Cancels(before: multiset<Envelope>, gained: multiset<Envelope>, after: multiset<Envelope>,
                returned: multiset<Envelope>, discarded: multiset<Envelope>)
    ensures before + returned + discarded + gained == after + returned + discarded
       <==> after == before + gained
  {
    if before + returned + discarded + gained == after + returned + discarded {
      forall e ensures after[e] == (before + gained)[e] {
        assert (before + returned + discarded + gained)[e] == (after + returned + discarded)[e];
      }
    }
  }

  lemma SendKeepsTotal(w: World, e: Envelope)
    requires Conserved(w)
    ensures var after := Send(w.net, e).network;
            Conserved(Next(w, Sending(e)))
            <==> Events(after.deliveries.queue) + HeldEnvelopes(after.held)
                 == Events(w.net.deliveries.queue) + HeldEnvelopes(w.net.held) + Gained(w.net, e)
  {
    hide Send, Events, HeldEnvelopes, CopiesMade, DiscardedAtOnce;
    var after := Send(w.net, e).network;
    var discarded := Next(w, Sending(e)).discarded;
    Cancels(Events(w.net.deliveries.queue) + HeldEnvelopes(w.net.held), Gained(w.net, e),
            Events(after.deliveries.queue) + HeldEnvelopes(after.held), Events(w.returned), discarded);
    assert w.accepted + (Next(w, Sending(e)).accepted - w.accepted) == Next(w, Sending(e)).accepted;
  }

  /** Every moment of a run accounts for every copy. */
  ghost predicate AlwaysConserved(events: seq<Event>) {
    forall i | 0 <= i <= |events| :: Conserved(Run(events[..i]))
  }

  /** Every call of a run was made under its condition. */
  ghost predicate AlwaysGuarded(events: seq<Event>) {
    forall i | 0 <= i < |events| :: Guarded(Run(events[..i]).net, events[i])
  }

  lemma PrefixesOf(events: seq<Event>)
    requires events != []
    ensures var before, n := events[..|events| - 1], |events| - 1;
            && (AlwaysConserved(events) <==> AlwaysConserved(before) && Conserved(Run(events)))
            && (AlwaysGuarded(events) <==> AlwaysGuarded(before) && Guarded(Run(before).net, events[n]))
  {
    hide Run, Conserved, Guarded;
    var before, n := events[..|events| - 1], |events| - 1;
    assert events[..|events|] == events;
    assert forall i | 0 <= i <= n :: before[..i] == events[..i];
    assert forall i | 0 <= i < n :: before[i] == events[i];
    if AlwaysConserved(before) && Conserved(Run(events)) {
      forall i | 0 <= i <= |events| ensures Conserved(Run(events[..i])) {
        if i <= n {
          assert Conserved(Run(before[..i]));
        }
      }
    }
    if AlwaysConserved(events) {
      forall i | 0 <= i <= n ensures Conserved(Run(before[..i])) {
        assert Conserved(Run(events[..i]));
      }
    }
  }

  /** Conservation, exactly: over a run, each accepted copy is in exactly one of
      queued, held, returned or discarded at every moment if and only if every
      call was made under its condition. */
  lemma {:induction false} CopiesConservedIff(events: seq<Event>)
    ensures AlwaysConserved(events) <==> AlwaysGuarded(events)
  {
    if events == [] {
      StartConserved();
    } else {
      hide Next, Conserved, Guarded, AlwaysConserved, AlwaysGuarded;
      var before := events[..|events| - 1];
      CopiesConservedIff(before);
      PrefixesOf(events);
      PrefixEnds(before);
      RunOrdered(before);
      if AlwaysConserved(before) {
        NextConservesIff(Run(before), events[|events| - 1]);
      }
    }
  }

  lemma PrefixEnds(events: seq<Event>)
    ensures AlwaysConserved(events) ==> Conserved(Run(events))
  {
    hide Run, Conserved;
    assert events[..|events|] == events;
  }

  lemma StartConserved()
    ensures Conserved(Run([]))
  {
  }

  /** In particular, as long as every send and release so far has succeeded. */
  lemma CopiesConserved(events: seq<Event>)
    requires forall i | 0 <= i < |events| :: Succeeds(Run(events[..i]).net, events[i])
    ensures Conserved(Run(events))
  {
    hide Run, Conserved, Send, Release, SendWhole, Releasable;
    forall i | 0 <= i < |events| ensures Guarded(Run(events[..i]).net, events[i]) {
      var n := Run(events[..i]).net;
      match events[i] {
        case Sending(e) => SendConservesIff(n, e);
        case Releasing(tick) => ReleaseConservesIff(n, tick);
        case Popping =>
        case Controlling(_) =>
      }
    }
    CopiesConservedIff(events);
    PrefixEnds(events);
  }

  predicate Succeeds(n: Network, event: Event) {
    match event
    case Sending(e) => Send(n, e).result.Ok?
    case Releasing(tick) => Release(n, tick).result.Ok?
    case Popping => true
    case Controlling(_) => true
  }

  lemma RunSnoc(events: seq<Event>, e: Event)
    ensures Run(events + [e]) == Next(Run(events), e)
  {
    hide Next;
    assert (events + [e])[..|events|] == events;
  }

  const HOLD: FaultRule := FaultRule(FaultPredicate(Some(1), None, None, None, None), ReorderAtTick(0), true, false)

  const DELAY: FaultRule := FaultRule(FaultPredicate(Some(2), None, None, None, None), Delay(1), true, false)

  /** A first message, which one rule holds for tick 0, and a second, which
      another delays to tick 1. */
  function HeldNetwork(e: Envelope): Network {
    Network(Driver(0, 0, []), [Held(0, e)], [HOLD.(consumed := true), DELAY], {}, {}, 1)
  }

  function DelayedNetwork(e: Envelope, f: Envelope): Network {
    Network(Driver(0, 1, [Scheduled(1, 0, f)]), [Held(0, e)],
            [HOLD.(consumed := true), DELAY.(consumed := true)], {}, {}, 2)
  }

  lemma HoldFirst(e: Envelope)
    ensures Next(START.(net := NEW_NETWORK.(rules := [HOLD, DELAY])), Sending(e))
         == START.(net := HeldNetwork(e), accepted := multiset{e})
  {
    var n := NEW_NETWORK.(rules := [HOLD, DELAY]);
    assert Copies(e, 1) == [e];
    assert FirstRule(n.rules, 1, e) == 0;
    assert Send(n, e) == SentResult(HeldNetwork(e), Ok(Attempt(1, 0)));
  }

  lemma DelaySecond(e: Envelope, f: Envelope)
    ensures Next(START.(net := HeldNetwork(e), accepted := multiset{e}), Sending(f))
         == START.(net := DelayedNetwork(e, f), accepted := multiset{e, f})
  {
    var n := HeldNetwork(e);
    assert Copies(f, 1) == [f];
    assert !Applies(n.rules[0], 2, f) && Applies(n.rules[1], 2, f);
    assert FirstRule(n.rules, 2, f) == 1;
    assert Send(n, f) == SentResult(DelayedNetwork(e, f), Ok(Attempt(2, 1)));
  }

  lemma ReleaseTooLate(e: Envelope, f: Envelope)
    ensures var w := START.(net := DelayedNetwork(e, f), accepted := multiset{e, f});
            var end := Next(Next(w, Popping), Releasing(0));
            && end.accepted == multiset{e, f} && end.returned == [Scheduled(1, 0, f)]
            && end.net.deliveries.queue == [] && end.net.held == [] && end.discarded == multiset{}
  {
    var n := DelayedNetwork(e, f);
    var popped := n.(deliveries := Driver(1, 1, []));
    assert PopDelivery(n) == PopResult(popped, [], Ok(Some(Scheduled(1, 0, f))));
    hide PopDelivery, Release;
    assert NotHeldAt([Held(0, e)], 0) == [];
    ReleaseAccounts(popped, 0);
  }

  lemma RulesFirst()
    ensures Run([Controlling(AddFault(HOLD)), Controlling(AddFault(DELAY))])
         == START.(net := NEW_NETWORK.(rules := [HOLD, DELAY]))
  {
    RunSnoc([], Controlling(AddFault(HOLD)));
    RunSnoc([Controlling(AddFault(HOLD))], Controlling(AddFault(DELAY)));
    assert [Controlling(AddFault(HOLD)), Controlling(AddFault(DELAY))]
        == ([] + [Controlling(AddFault(HOLD))]) + [Controlling(AddFault(DELAY))];
  }

  /** Such a loss is reachable: a message is held for tick 0, another is delayed
      to tick 1 and delivered, and the release of tick 0 comes too late. */
  lemma LateReleaseLoses(e: Envelope, f: Envelope)
    ensures var events := [Controlling(AddFault(HOLD)), Controlling(AddFault(DELAY)), Sending(e), Sending(f),
                           Popping, Releasing(0)];
            var w := Run(events);
            && w.accepted == multiset{e, f} && w.returned == [Scheduled(1, 0, f)]
            && w.net.deliveries.queue == [] && w.net.held == [] && w.discarded == multiset{}
  {
    hide Run, Next, HeldNetwork, DelayedNetwork;
    var rules := [Controlling(AddFault(HOLD)), Controlling(AddFault(DELAY))];
    RulesFirst();
    RunSnoc(rules, Sending(e));
    HoldFirst(e);
    RunSnoc(rules + [Sending(e)], Sending(f));
    DelaySecond(e, f);
    RunSnoc(rules + [Sending(e)] + [Sending(f)], Popping);
    RunSnoc(rules + [Sending(e)] + [Sending(f)] + [Popping], Releasing(0));
    ReleaseTooLate(e, f);
    assert rules + [Sending(e)] + [Sending(f)] + [Popping] + [Releasing(0)]
        == [Controlling(AddFault(HOLD)), Controlling(AddFault(DELAY)), Sending(e), Sending(f), Popping, Releasing(0)];
  }
}
