/** The runtime rule: a transition's record is appended and flushed before any
    of its actions runs. */
module Runtime {
  import opened Core
  import opened WalFormat
  import opened WalScanner
  import opened WalSession
  import opened WalWriter

  /** A declarative effect; its body is opaque to the runtime. */
  datatype Action =
    | Send(envelope: seq<byte>)
    | ScheduleTimer(timer: seq<byte>)
    | CancelTimer(timer: seq<byte>)
    | ReplyToClient(reply: seq<byte>)

  /** What a protocol returns for an event. */
  datatype Transition = Transition(record: Option<Record>, actions: seq<Action>)

  datatype RuntimeError = ProtocolFailed | WalFailed(error: WalError) | EffectFailed | UndurableEffects

  /** Device and effect failures during one transition.  `effectFailsAt` is the
      index of the first action whose execution reports an error. */
  datatype Faults = Faults(append: AppendFault, flushFails: bool, effectFailsAt: Option<nat>)

  /** An action that ran, or was attempted, with the record of its transition. */
  datatype Effect = Effect(lsn: nat, record: Record, action: Action)

  datatype Committed = Committed(wal: Wal, effects: seq<Effect>, result: Result<(), RuntimeError>)

  /** The actions attempted when one of them may fail. */
  function Attempted(actions: seq<Action>, failsAt: Option<nat>): seq<Action> {
    if failsAt.Some? && failsAt.value < |actions| then actions[..failsAt.value + 1] else actions
  }

  function Tagged(lsn: nat, r: Record, actions: seq<Action>): seq<Effect> {
    seq(|actions|, i requires 0 <= i < |actions| => Effect(lsn, r, actions[i]))
  }

  function CommitTransition(crc: Checksum, w: Wal, t: Transition, faults: Faults): Committed {
    match t.record
    case None =>
      Committed(w, [], if t.actions == [] then Ok(()) else Err(UndurableEffects))
    case Some(r) =>
      var a := AppendWal(crc, w, r, faults.append);
      if a.result.Err? then Committed(a.wal, [], Err(WalFailed(a.result.error)))
      else
        var f := FlushWal(a.wal, faults.flushFails);
        if f.result.Err? then Committed(f.wal, [], Err(WalFailed(f.result.error)))
        else
          var done := Attempted(t.actions, faults.effectFailsAt);
          Committed(f.wal, Tagged(a.result.value.lsn, r, done),
            if faults.effectFailsAt.Some? && faults.effectFailsAt.value < |t.actions|
            then Err(EffectFailed) else Ok(()))
  }

  /** The mutable runtime.  `performed` is everything the effects boundary was
      asked to do, and `recovered` what recovery last gave the protocol. */
  class NodeRuntime {
    const wal: FileWal
    var performed: seq<Action>
    var recovered: seq<WalRecord>

    constructor (wal: FileWal)
      ensures this.wal == wal && performed == [] && recovered == []
    {
      this.wal := wal;
      performed, recovered := [], [];
    }

    /** Replays the log into the protocol, which may refuse it; runs no action. */
    method Recover(flushFails: bool, fault: ScanFault, protocolAccepts: bool)
      returns (result: Result<(), RuntimeError>)
      requires wal.Valid()
      modifies this`recovered, wal, wal.file
      ensures wal.Valid()
      ensures var s := ReplayWal(wal.crc, old(wal.State()), flushFails, fault);
              && wal.State() == s.wal
              && result == (if s.result.Err? then Err(WalFailed(s.result.error))
                            else if protocolAccepts then Ok(()) else Err(ProtocolFailed))
              && recovered == (if s.result.Ok? then s.result.value.records else old(recovered))
    {
      var replay := wal.ReplayAll(flushFails, fault);
      if replay.Err? {
        return Err(WalFailed(replay.error));
      }
      recovered := replay.value.records;
      result := if protocolAccepts then Ok(()) else Err(ProtocolFailed);
    }

    /** Handles one event, given what the protocol returned for it. */
    method Handle(outcome: Option<Transition>, faults: Faults) returns (result: Result<(), RuntimeError>)
      requires wal.Valid()
      modifies this`performed, wal, wal.file
      ensures wal.Valid()
      ensures outcome.None? ==> result == Err(ProtocolFailed) && performed == old(performed)
                                && wal.State() == old(wal.State())
      ensures outcome.Some? ==>
                var c := CommitTransition(wal.crc, old(wal.State()), outcome.value, faults);
                && wal.State() == c.wal && result == c.result
                && |performed| == |old(performed)| + |c.effects|
                && performed[..|old(performed)|] == old(performed)
                && forall i | 0 <= i < |c.effects| :: performed[|old(performed)| + i] == c.effects[i].action
    {
      if outcome.None? {
        return Err(ProtocolFailed);
      }
      result := Commit(outcome.value, faults);
    }

    method Commit(t: Transition, faults: Faults) returns (result: Result<(), RuntimeError>)
      requires wal.Valid()
      modifies this`performed, wal, wal.file
      ensures wal.Valid()
      ensures var c := CommitTransition(wal.crc, old(wal.State()), t, faults);
              && wal.State() == c.wal && result == c.result
              && |performed| == |old(performed)| + |c.effects|
              && performed[..|old(performed)|] == old(performed)
              && forall i | 0 <= i < |c.effects| :: performed[|old(performed)| + i] == c.effects[i].action
    {
      if t.record == None && t.actions != [] {
        return Err(UndurableEffects);
      }
      if t.record.Some? {
        var appended := wal.Append(t.record.value, faults.append);
        if appended.Err? {
          return Err(WalFailed(appended.error));
        }
        var flushed := wal.Flush(faults.flushFails);
        if flushed.Err? {
          return Err(WalFailed(flushed.error));
        }
      }
      result := Perform(t.actions, faults.effectFailsAt);
    }

    /** The loop over the actions: each is performed in order until one fails. */
    method Perform(actions: seq<Action>, failsAt: Option<nat>) returns (result: Result<(), RuntimeError>)
      modifies this`performed
      ensures performed == old(performed) + Attempted(actions, failsAt)
      ensures result == if failsAt.Some? && failsAt.value < |actions| then Err(EffectFailed) else Ok(())
    {
      for i := 0 to |actions|
        invariant performed == old(performed) + actions[..i]
        invariant failsAt.Some? ==> i <= failsAt.value || |actions| <= failsAt.value
      {
        performed := performed + [actions[i]];
        assert actions[..i + 1] == actions[..i] + [actions[i]];
        if failsAt == Some(i) {
          return Err(EffectFailed);
        }
      }
      assert actions[..|actions|] == actions;
      result := Ok(());
    }
  }
}

/** No effect without a recoverable record, over every run of a node. */
module RuntimeSafety {
  import opened WalFormat
  import opened WalScan
  import opened WalDisk
  import opened WalScanner
  import opened WalSession
  import opened Runtime
  import D = WalDurability

  /** A node: its log, and every effect it has performed so far.  The trace is
      an observation of the run; it survives crashes because its effects
      happened outside. */
  datatype Node = Node(store: D.Store, trace: seq<Effect>)

  datatype Event =
    | Handled(transition: Transition, faults: Faults)
    | Recovered(flushFails: bool, scanFault: ScanFault)
    | Storage(event: D.Event)

  const FRESH: Node := Node(D.EMPTY, [])

  function Next(crc: Checksum, n: Node, e: Event): Node {
    match e
    case Storage(d) => n.(store := D.Next(crc, n.store, d))
    case Recovered(fails, fault) => n.(store := D.Next(crc, n.store, D.Replay(fails, fault)))
    case Handled(t, faults) =>
      if n.store.Down? then n
      else
        var c := CommitTransition(crc, n.store.wal, t, faults);
        Node(D.Up(c.wal), n.trace + c.effects)
  }

  function Run(crc: Checksum, events: seq<Event>): Node {
    if events == [] then FRESH
    else Next(crc, Run(crc, events[..|events| - 1]), events[|events| - 1])
  }

  predicate Bounded(events: seq<Event>, max: nat) {
    max <= PAYLOAD_LIMIT
    && forall e <- events :: e.Storage? && e.event.Open? ==> e.event.config.maxRecordBytes <= max
  }

  /** The effect's record is synchronized, at its sequence number. */
  ghost predicate Backed(crc: Checksum, max: nat, f: File, effect: Effect)
    requires f.synced <= |f.content|
  {
    var secured := D.Secured(crc, max, f);
    1 <= effect.lsn <= |secured| && secured[effect.lsn - 1] == effect.record
  }

  ghost predicate Inv(crc: Checksum, max: nat, n: Node) {
    D.Inv(crc, max, n.store)
    && forall e <- n.trace :: Backed(crc, max, D.FileOf(n.store), e)
  }

  lemma BackedStays(crc: Checksum, max: nat, s: D.Store, s': D.Store, effect: Effect)
    requires D.Inv(crc, max, s) && D.Safe(crc, max, s, s')
    requires Backed(crc, max, D.FileOf(s), effect)
    ensures Backed(crc, max, D.FileOf(s'), effect)
  {
    hide D.Secured;
  }

  lemma SafeTransitive(crc: Checksum, max: nat, a: D.Store, b: D.Store, c: D.Store)
    requires D.Inv(crc, max, a) && D.Safe(crc, max, a, b) && D.Safe(crc, max, b, c)
    ensures D.Safe(crc, max, a, c)
  {
    hide D.Secured, D.Inv;
  }

  /** When append and flush both succeed, everything in the file is
      synchronized and its last record is the transition's. */
  lemma CommittedIsBacked(crc: Checksum, max: nat, s: D.Store, r: Record, fault: AppendFault)
    requires D.Inv(crc, max, s) && s.Up? && max <= PAYLOAD_LIMIT
    requires AppendWal(crc, s.wal, r, fault).result.Ok?
    requires FlushWal(AppendWal(crc, s.wal, r, fault).wal, false).result.Ok?
    ensures var a := AppendWal(crc, s.wal, r, fault);
            var f := FlushWal(a.wal, false).wal.file;
            && f.synced == |f.content|
            && a.result.value.lsn == |D.Secured(crc, max, f)| > 0
            && D.Secured(crc, max, f)[a.result.value.lsn - 1] == r
  {
    hide Frame, ParseHead;
    var records := Written(crc, max, s.wal.file.content);
    var a := AppendWal(crc, s.wal, r, fault);
    AppendKeepsSession(crc, s.wal, r, fault, records);
    D.SessionWritten(crc, max, a.wal, records + [r]);
    D.SyncedIsSecured(crc, max, FlushWal(a.wal, false).wal.file);
  }

  lemma HandledKeepsInv(crc: Checksum, max: nat, n: Node, t: Transition, faults: Faults)
    requires Inv(crc, max, n) && n.store.Up? && max <= PAYLOAD_LIMIT
    ensures Inv(crc, max, Next(crc, n, Handled(t, faults)))
  {
    hide AppendWal, FlushWal, D.Inv, D.Secured, D.Safe;
    if t.record.Some? {
      var r := t.record.value;
      var a := AppendWal(crc, n.store.wal, r, faults.append);
      D.AppendSafe(crc, max, n.store, r, faults.append);
      SafeIsInv(crc, max, n.store, D.Up(a.wal));
      var c := CommitTransition(crc, n.store.wal, t, faults);
      if a.result.Ok? {
        D.FlushSafe(crc, max, D.Up(a.wal), faults.flushFails);
        SafeTransitive(crc, max, n.store, D.Up(a.wal), D.Up(FlushWal(a.wal, faults.flushFails).wal));
        if c.effects != [] {
          FlushOkMeansNoFault(a.wal, faults.flushFails);
          CommittedIsBacked(crc, max, n.store, r, faults.append);
        }
      }
      SafeIsInv(crc, max, n.store, D.Up(c.wal));
      forall e | e in n.trace ensures Backed(crc, max, c.wal.file, e) {
        BackedStays(crc, max, n.store, D.Up(c.wal), e);
      }
    }
  }

  lemma SafeIsInv(crc: Checksum, max: nat, s: D.Store, s': D.Store)
    requires D.Inv(crc, max, s) && D.Safe(crc, max, s, s')
    ensures D.Inv(crc, max, s')
    ensures D.FileOf(s').synced <= |D.FileOf(s').content|
  {
    hide Parse, Session, Written;
  }

  lemma FlushOkMeansNoFault(w: Wal, fails: bool)
    requires FlushWal(w, fails).result.Ok?
    ensures !fails
  {
  }

  lemma NextKeepsInv(crc: Checksum, max: nat, n: Node, e: Event)
    requires Inv(crc, max, n) && Bounded([e], max)
    ensures Inv(crc, max, Next(crc, n, e))
  {
    hide D.Inv, D.Secured, D.Next, CommitTransition;
    if e.Handled? {
      if n.store.Up? {
        HandledKeepsInv(crc, max, n, e.transition, e.faults);
      }
    } else {
      var d := if e.Storage? then e.event else D.Replay(e.flushFails, e.scanFault);
      assert e in [e];
      D.StepSafe(crc, max, n.store, d);
      SafeIsInv(crc, max, n.store, D.Next(crc, n.store, d));
      forall x | x in n.trace ensures Backed(crc, max, D.FileOf(D.Next(crc, n.store, d)), x) {
        BackedStays(crc, max, n.store, D.Next(crc, n.store, d), x);
      }
    }
  }

  lemma {:induction false} RunInv(crc: Checksum, max: nat, events: seq<Event>)
    requires Bounded(events, max)
    ensures Inv(crc, max, Run(crc, events))
  {
    hide Next, D.Inv;
    if events == [] {
      D.EmptyInv(crc, max);
    } else {
      var before := events[..|events| - 1];
      RunInv(crc, max, before);
      assert events[|events| - 1] in events;
      NextKeepsInv(crc, max, Run(crc, before), events[|events| - 1]);
    }
  }

  /** The trace of a run contains the trace of each of its prefixes. */
  lemma {:induction false} TraceGrows(crc: Checksum, events: seq<Event>, j: nat)
    requires j <= |events|
    ensures Run(crc, events[..j]).trace <= Run(crc, events).trace
  {
    hide CommitTransition, D.Next;
    if j == |events| {
      assert events[..j] == events;
    } else {
      var before := events[..|events| - 1];
      assert before[..j] == events[..j];
      TraceGrows(crc, before, j);
    }
  }

  /** No effect without a recoverable record.  Take any run of handled events,
      recoveries, opens, drops, failures of the device and power losses, and
      any effect performed anywhere in it.  Whenever recovery later succeeds, it
      hands the protocol the record of that effect's transition, at the same
      sequence number with the same bytes. */
  lemma NoEffectWithoutRecord(crc: Checksum, max: nat, events: seq<Event>, j: nat, effect: Effect,
                              flushFails: bool, fault: ScanFault)
    requires Bounded(events, max) && j <= |events|
    requires effect in Run(crc, events[..j]).trace
    requires Run(crc, events).store.Up?
    ensures var replay := ReplayWal(crc, Run(crc, events).store.wal, flushFails, fault).result;
            replay.Ok? ==>
              && 1 <= effect.lsn <= |replay.value.records|
              && replay.value.records[effect.lsn - 1] == WalRecord(effect.lsn, effect.record)
  {
    hide Frame, ParseHead, Next, Run, ScanFile;
    RunInv(crc, max, events);
    TraceGrows(crc, events, j);
    var n := Run(crc, events);
    assert effect in n.trace;
    var w := n.store.wal;
    assert Backed(crc, max, w.file, effect);
    D.WrittenPrefix(crc, max, w.file.content, w.file.synced);
    if !w.poisoned {
      ReplayReturnsSession(crc, w, flushFails, fault, Written(crc, max, w.file.content));
    }
  }

  /** The same end to end: lose power at any moment of any run, keeping any
      prefix at or beyond the synchronized bytes.  Reopening with Truncate then
      succeeds, recovery succeeds, and it hands over the record of every effect
      that was ever performed. */
  lemma EffectSurvivesCrash(crc: Checksum, config: Config, events: seq<Event>, keep: nat, effect: Effect)
    requires Bounded(events, config.maxRecordBytes) && config.tail.Truncate?
    requires effect in Run(crc, events).trace
    requires var f := D.FileOf(Run(crc, events).store); f.synced <= keep <= |f.content|
    ensures var f := D.FileOf(Run(crc, events).store);
            var reopen := OpenWal(crc, config, File(f.content[..keep], keep), NoFault).result;
            && reopen.Ok?
            && var replay := ReplayWal(crc, reopen.value, false, NoFault).result;
               && replay.Ok? && 1 <= effect.lsn <= |replay.value.records|
               && replay.value.records[effect.lsn - 1] == WalRecord(effect.lsn, effect.record)
  {
    hide Run, Session, D.Inv, D.Secured, OpenWal, ReplayWal, Written, Parse;
    RunInv(crc, config.maxRecordBytes, events);
    var n := Run(crc, events);
    var f := D.FileOf(n.store);
    D.RecoverFrom(crc, config, n.store, keep);
    assert Backed(crc, config.maxRecordBytes, f, effect);
    var w := OpenWal(crc, config, File(f.content[..keep], keep), NoFault).result.value;
    ReplayReturnsSession(crc, w, false, NoFault, Written(crc, config.maxRecordBytes, f.content)[..w.lastLsn]);
  }
}
