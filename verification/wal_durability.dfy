/** A log across any number of sessions and power losses. */
module WalDurability {
  import opened Core
  import opened WalFormat
  import opened WalScan
  import opened WalDisk
  import opened WalScanner
  import opened WalSession

  /** The log file, with or without a writer holding it. */
  datatype Store = Down(closed: File) | Up(wal: Wal)

  /** `PowerLoss(keep)` leaves the first `keep` bytes, at least those
      synchronized.  `Exit` drops the writer without losing anything, as a
      process restart or a reopen after poisoning does. */
  datatype Event =
    | Open(config: Config, scanFault: ScanFault)
    | Append(record: Record, appendFault: AppendFault)
    | Flush(syncFails: bool)
    | Replay(syncFails: bool, scanFault: ScanFault)
    | PowerLoss(keep: nat)
    | Exit

  function FileOf(s: Store): File {
    match s
    case Down(f) => f
    case Up(w) => w.file
  }

  function Next(crc: Checksum, s: Store, e: Event): Store {
    match e
    case Open(config, fault) =>
      if s.Up? then s
      else
        var o := OpenWal(crc, config, s.closed, fault);
        if o.result.Ok? then Up(o.result.value) else Down(o.file)
    case Append(r, fault) => if s.Down? then s else Up(AppendWal(crc, s.wal, r, fault).wal)
    case Flush(fails) => if s.Down? then s else Up(FlushWal(s.wal, fails).wal)
    case Replay(fails, fault) => if s.Down? then s else Up(ReplayWal(crc, s.wal, fails, fault).wal)
    case PowerLoss(keep) =>
      var f := FileOf(s);
      if f.synced <= keep <= |f.content| then Down(File(f.content[..keep], keep)) else s
    case Exit => Down(FileOf(s))
  }

  function Run(crc: Checksum, s: Store, events: seq<Event>): Store {
    if events == [] then s
    else Next(crc, Run(crc, s, events[..|events| - 1]), events[|events| - 1])
  }

  const EMPTY: Store := Down(File([], 0))

  /** Every session was configured with a record bound of at most max. */
  predicate Bounded(events: seq<Event>, max: nat) {
    max <= PAYLOAD_LIMIT && forall e <- events :: e.Open? ==> e.config.maxRecordBytes <= max
  }

  // -------------------------------------------------------------- invariant

  /** The records whose frames lie wholly within the synchronized bytes. */
  function Secured(crc: Checksum, max: nat, f: File): seq<Record>
    requires f.synced <= |f.content|
  {
    Written(crc, max, f.content[..f.synced])
  }

  ghost predicate Inv(crc: Checksum, max: nat, s: Store) {
    var f := FileOf(s);
    && ValidFile(f)
    && !Parse(crc, max, f.content, 0, 0).Failed?
    && (s.Up? ==> s.wal.config.maxRecordBytes <= max
                  && s.wal.durableThrough <= |Written(crc, max, f.content)|)
    && (s.Up? && !s.wal.poisoned ==> Session(crc, s.wal, Written(crc, max, f.content)))
  }

  lemma WrittenPrefix(crc: Checksum, max: nat, content: seq<byte>, cut: nat)
    requires cut <= |content| && !Parse(crc, max, content, 0, 0).Failed?
    ensures !Parse(crc, max, content[..cut], 0, 0).Failed?
    ensures Written(crc, max, content[..cut]) <= Written(crc, max, content)
  {
    hide ParseHead, Frame;
    ParseCut(crc, max, content, cut, 0, 0);
  }

  /** The records of a longer file extend those of any prefix of it. */
  lemma WrittenGrows(crc: Checksum, max: nat, shorter: seq<byte>, longer: seq<byte>)
    requires shorter <= longer && !Parse(crc, max, longer, 0, 0).Failed?
    ensures Written(crc, max, shorter) <= Written(crc, max, longer)
  {
    WrittenPrefix(crc, max, longer, |shorter|);
    assert longer[..|shorter|] == shorter;
  }

  lemma SessionWritten(crc: Checksum, max: nat, w: Wal, records: seq<Record>)
    requires Session(crc, w, records) && w.config.maxRecordBytes <= max <= PAYLOAD_LIMIT
    ensures Parse(crc, max, w.file.content, 0, 0) == Clean(records)
  {
    hide Frame, ParseHead;
    EncodesLogParses(crc, w.config.maxRecordBytes, w.file.content, records);
    LooserBound(crc, w.config.maxRecordBytes, max, w.file.content, 0, 0);
  }

  // --------------------------------------------------- one event at a time

  /** What one event promises: the invariant, and that no secured record is
      lost or changed. */
  ghost predicate Safe(crc: Checksum, max: nat, s: Store, s': Store)
    requires Inv(crc, max, s)
  {
    Inv(crc, max, s') && Secured(crc, max, FileOf(s)) <= Secured(crc, max, FileOf(s'))
  }

  lemma SecuredGrows(crc: Checksum, max: nat, f: File, f': File)
    requires f.synced <= |f.content| && f'.synced <= |f'.content|
    requires f.content[..f.synced] <= f'.content[..f'.synced]
    requires !Parse(crc, max, f'.content, 0, 0).Failed?
    ensures Secured(crc, max, f) <= Secured(crc, max, f')
  {
    hide Parse;
    WrittenPrefix(crc, max, f'.content, f'.synced);
    WrittenGrows(crc, max, f.content[..f.synced], f'.content[..f'.synced]);
  }

  lemma AppendSafe(crc: Checksum, max: nat, s: Store, r: Record, fault: AppendFault)
    requires Inv(crc, max, s) && s.Up? && max <= PAYLOAD_LIMIT
    ensures Safe(crc, max, s, Up(AppendWal(crc, s.wal, r, fault).wal))
  {
    hide Frame, ParseHead;
    var w := s.wal;
    var a := AppendWal(crc, w, r, fault);
    if !w.poisoned {
      var records := Written(crc, max, w.file.content);
      AppendKeepsSession(crc, w, r, fault, records);
      LooserBound(crc, w.config.maxRecordBytes, max, a.wal.file.content, 0, 0);
      WrittenGrows(crc, max, w.file.content, a.wal.file.content);
      if a.result.Ok? {
        SessionWritten(crc, max, a.wal, records + [r]);
      }
      SecuredGrows(crc, max, w.file, a.wal.file);
    }
  }

  lemma FlushSafe(crc: Checksum, max: nat, s: Store, fails: bool)
    requires Inv(crc, max, s) && s.Up? && max <= PAYLOAD_LIMIT
    ensures Safe(crc, max, s, Up(FlushWal(s.wal, fails).wal))
  {
    hide Frame, ParseHead;
    if !s.wal.poisoned {
      SyncKeepsSession(crc, s.wal, fails, Written(crc, max, s.wal.file.content));
      SecuredGrows(crc, max, s.wal.file, SyncCurrent(s.wal, fails).wal.file);
    }
  }

  lemma ReplaySafe(crc: Checksum, max: nat, s: Store, fails: bool, fault: ScanFault)
    requires Inv(crc, max, s) && s.Up? && max <= PAYLOAD_LIMIT
    ensures Safe(crc, max, s, Up(ReplayWal(crc, s.wal, fails, fault).wal))
  {
    hide Frame, ParseHead, ScanFile;
    if !s.wal.poisoned {
      ReplayReturnsSession(crc, s.wal, fails, fault, Written(crc, max, s.wal.file.content));
      SecuredGrows(crc, max, s.wal.file, ReplayWal(crc, s.wal, fails, fault).wal.file);
    }
  }

  lemma PowerLossSafe(crc: Checksum, max: nat, s: Store, keep: nat)
    requires Inv(crc, max, s) && FileOf(s).synced <= keep <= |FileOf(s).content|
    ensures Safe(crc, max, s, Down(File(FileOf(s).content[..keep], keep)))
  {
    hide Frame, ParseHead, Session;
    var f := FileOf(s);
    WrittenPrefix(crc, max, f.content, keep);
    assert f.content[..keep][..keep] == f.content[..keep];
    SecuredGrows(crc, max, f, File(f.content[..keep], keep));
  }

  lemma OpenSafe(crc: Checksum, max: nat, f: File, config: Config, fault: ScanFault)
    requires Inv(crc, max, Down(f)) && config.maxRecordBytes <= max <= PAYLOAD_LIMIT
    ensures Safe(crc, max, Down(f), Next(crc, Down(f), Open(config, fault)))
  {
    hide Frame, ParseHead, DecodeHeader, Session;
    var s' := Next(crc, Down(f), Open(config, fault));
    var f' := FileOf(s');
    OpenStartsSession(crc, config, f, fault);
    ScanPreserves(crc, config.maxRecordBytes, config.tail, f, fault);
    var p := Parse(crc, config.maxRecordBytes, f.content, 0, 0);
    if f' == f {
      if s'.Up? {
        LooserBound(crc, config.maxRecordBytes, max, f.content, 0, 0);
        SessionAfterOpen(crc, max, s'.wal, p.records);
      }
    } else {
      LooserBound(crc, config.maxRecordBytes, max, f.content, 0, 0);
      RepairKeepsSecured(crc, max, f, p.records, p.offset, f');
      if s'.Up? {
        SessionAfterOpen(crc, max, s'.wal, p.records);
      }
    }
  }

  lemma SessionAfterOpen(crc: Checksum, max: nat, w: Wal, records: seq<Record>)
    requires Session(crc, w, records) && w.config.maxRecordBytes <= max <= PAYLOAD_LIMIT
    ensures Written(crc, max, w.file.content) == records
    ensures w.durableThrough <= |records|
  {
    hide Frame, ParseHead;
    SessionWritten(crc, max, w, records);
  }

  /** Cutting a torn tail keeps every whole frame, so no secured record goes,
      whether or not the cut itself was synchronized. */
  lemma RepairKeepsSecured(crc: Checksum, max: nat, f: File, records: seq<Record>, offset: nat, f': File)
    requires ValidFile(f) && max <= PAYLOAD_LIMIT
    requires Parse(crc, max, f.content, 0, 0) == Torn(records, offset)
    requires offset <= |f.content| && f'.content == f.content[..offset]
    requires f'.synced == offset || f'.synced == Min(f.synced, offset)
    ensures !Parse(crc, max, f'.content, 0, 0).Failed?
    ensures Secured(crc, max, f) <= Secured(crc, max, f')
  {
    hide Frame, ParseHead, IsTornTail;
    TornTailExact(crc, max, f.content, records, offset);
    EncodesLogParses(crc, max, f'.content, records);
    if f.synced <= offset {
      assert f.content[..f.synced] <= f'.content[..f'.synced];
      SecuredGrows(crc, max, f, f');
    } else {
      assert f'.content[..f'.synced] == f'.content;
      WrittenPrefix(crc, max, f.content, f.synced);
    }
  }

  lemma StepSafe(crc: Checksum, max: nat, s: Store, e: Event)
    requires Inv(crc, max, s) && max <= PAYLOAD_LIMIT
    requires e.Open? ==> e.config.maxRecordBytes <= max
    ensures Safe(crc, max, s, Next(crc, s, e))
  {
    hide Parse, Session, OpenWal, AppendWal, FlushWal, ReplayWal, Written, ValidFile;
    match e {
      case Open(config, fault) => if s.Down? { OpenSafe(crc, max, s.closed, config, fault); }
      case Append(r, fault) => if s.Up? { AppendSafe(crc, max, s, r, fault); }
      case Flush(fails) => if s.Up? { FlushSafe(crc, max, s, fails); }
      case Replay(fails, fault) => if s.Up? { ReplaySafe(crc, max, s, fails, fault); }
      case PowerLoss(keep) =>
        if FileOf(s).synced <= keep <= |FileOf(s).content| { PowerLossSafe(crc, max, s, keep); }
      case Exit =>
    }
  }

  // ------------------------------------------------------------------ runs

  lemma EmptyInv(crc: Checksum, max: nat)
    ensures Inv(crc, max, EMPTY) && Honest(crc, max, EMPTY)
  {
  }

  lemma {:induction false} RunInv(crc: Checksum, max: nat, events: seq<Event>)
    requires Bounded(events, max)
    ensures Inv(crc, max, Run(crc, EMPTY, events))
  {
    hide Next, Inv;
    if events == [] {
      EmptyInv(crc, max);
    } else {
      var before := events[..|events| - 1];
      RunInv(crc, max, before);
      assert events[|events| - 1] in events;
      StepSafe(crc, max, Run(crc, EMPTY, before), events[|events| - 1]);
    }
  }

  /** A record that was once synchronized is in every later file, at the same
      position with the same bytes: over sessions, repairs, failures of the
      device, poisoning and power losses. */
  lemma {:induction false} SecuredForever(crc: Checksum, max: nat, events: seq<Event>, j: nat)
    requires Bounded(events, max) && j <= |events|
    ensures Inv(crc, max, Run(crc, EMPTY, events[..j])) && Inv(crc, max, Run(crc, EMPTY, events))
    ensures Secured(crc, max, FileOf(Run(crc, EMPTY, events[..j])))
         <= Secured(crc, max, FileOf(Run(crc, EMPTY, events)))
  {
    hide Next, Secured, Inv;
    RunInv(crc, max, events);
    if j == |events| {
      assert events[..j] == events;
    } else {
      var before := events[..|events| - 1];
      assert before[..j] == events[..j];
      SecuredForever(crc, max, before, j);
      assert events[|events| - 1] in events;
      StepSafe(crc, max, Run(crc, EMPTY, before), events[|events| - 1]);
    }
  }

  // ----------------------------------------------------- durability reports

  /** Nothing in the file waits for synchronization, or opening it will repair
      and thereby synchronize it. */
  ghost predicate Settled(crc: Checksum, max: nat, f: File) {
    f.synced == |f.content| || Parse(crc, max, f.content, 0, 0).Torn?
  }

  /** Opening reports every record scanned as durable without synchronizing
      them.  That report is right, in the sense that no power loss can take a
      reported record away, exactly when the file was settled. */
  lemma OpenReportsDurableIff(crc: Checksum, config: Config, f: File)
    requires ValidFile(f) && OpenWal(crc, config, f, NoFault).result.Ok?
    ensures var w := OpenWal(crc, config, f, NoFault).result.value;
            var max := config.maxRecordBytes;
            (forall keep | w.file.synced <= keep <= |w.file.content| ::
               |Written(crc, max, w.file.content[..keep])| >= w.durableThrough)
            <==> Settled(crc, max, f)
  {
    hide ParseHead, Frame, DecodeHeader, Session;
    var w := OpenWal(crc, config, f, NoFault).result.value;
    var max := config.maxRecordBytes;
    var records := Written(crc, max, f.content);
    OpenStartsSession(crc, config, f, NoFault);
    SessionFacts(crc, w, records);
    assert w.file.content[..|w.file.content|] == w.file.content;
    if Settled(crc, max, f) {
      assert w.file.synced == |w.file.content|;
    } else {
      assert w.file == f;
      CutBeforeEnd(crc, max, f.content, records, f.synced);
    }
  }

  lemma SessionFacts(crc: Checksum, w: Wal, records: seq<Record>)
    requires Session(crc, w, records)
    ensures w.durableThrough <= w.lastLsn == |records|
    ensures Parse(crc, w.config.maxRecordBytes, w.file.content, 0, 0) == Clean(records)
  {
    hide ParseHead, Frame;
    EncodesLogParses(crc, w.config.maxRecordBytes, w.file.content, records);
  }

  /** A proper prefix of an encoded log holds fewer whole records. */
  lemma CutBeforeEnd(crc: Checksum, max: nat, content: seq<byte>, records: seq<Record>, cut: nat)
    requires cut < |content| && Parse(crc, max, content, 0, 0) == Clean(records)
    ensures |Written(crc, max, content[..cut])| < |records|
  {
    hide ParseHead, Frame;
    ParseCut(crc, max, content, cut, 0, 0);
    EncodeParsed(crc, max, content[..cut], 0, 0);
    EncodeParsed(crc, max, content, 0, 0);
    var kept := Written(crc, max, content[..cut]);
    assert content == EncodeLog(crc, records, 1);
    assert |kept| == |records| ==> kept == records;
  }

  lemma FirstOpen(crc: Checksum, config: Config)
    ensures OpenWal(crc, config, File([], 0), NoFault)
         == Opened(File([], 0), Ok(Wal(File([], 0), config, 0, 0, 0, 0, false)))
  {
  }

  /** A first record appended without a sync, as a reopened writer sees it. */
  lemma ReopenAfterManualAppend(crc: Checksum, config: Config, r: Record)
    requires config.sync.Manual? && |r.payload| <= config.maxRecordBytes
    ensures var w := AppendWal(crc, Wal(File([], 0), config, 0, 0, 0, 0, false), r,
                               AppendFault(false, None, false)).wal;
            var o := OpenWal(crc, config, w.file, NoFault);
            o.result.Ok? && o.result.value.durableThrough == 1 && o.result.value.file == w.file
            && w.file.synced == 0
  {
    hide ParseHead, Frame;
    var w0 := Wal(File([], 0), config, 0, 0, 0, 0, false);
    var fault := AppendFault(false, None, false);
    AppendKeepsSession(crc, w0, r, fault, []);
    assert [] + [r] == [r];
    EncodesLogParses(crc, config.maxRecordBytes, AppendWal(crc, w0, r, fault).wal.file.content, [r]);
  }

  /** The case that goes wrong: a manual-sync session appends a record, the
      writer is dropped and the log reopened, which reports the record durable;
      power is lost before anything is synchronized, and the record is gone. */
  lemma ReopenOverstatesDurability(crc: Checksum, config: Config, r: Record)
    requires config.sync.Manual? && |r.payload| <= config.maxRecordBytes
    ensures var events := [Open(config, NoFault), Append(r, AppendFault(false, None, false)),
                           Exit, Open(config, NoFault)];
            && Run(crc, EMPTY, events).Up?
            && Run(crc, EMPTY, events).wal.durableThrough == 1
            && FileOf(Run(crc, EMPTY, events + [PowerLoss(0)])).content == []
  {
    hide OpenWal, AppendWal;
    var open, append: Event := Open(config, NoFault), Append(r, AppendFault(false, None, false));
    RunSnoc(crc, [], open);
    RunSnoc(crc, [open], append);
    RunSnoc(crc, [open, append], Exit);
    RunSnoc(crc, [open, append, Exit], open);
    RunSnoc(crc, [open, append, Exit, open], PowerLoss(0));
    assert [] + [open] == [open] && [open] + [append] == [open, append]
      && [open, append] + [Exit] == [open, append, Exit]
      && [open, append, Exit] + [open] == [open, append, Exit, open];
    FirstOpen(crc, config);
    ReopenAfterManualAppend(crc, config, r);
  }

  lemma RunSnoc(crc: Checksum, events: seq<Event>, e: Event)
    ensures Run(crc, EMPTY, events + [e]) == Next(crc, Run(crc, EMPTY, events), e)
  {
    hide Next;
    assert (events + [e])[..|events|] == events;
  }

  /** The writer's durable frontier lies within the synchronized records. */
  ghost predicate Honest(crc: Checksum, max: nat, s: Store)
    requires Inv(crc, max, s)
  {
    s.Up? ==> s.wal.durableThrough <= |Secured(crc, max, FileOf(s))|
  }

  /** Every open found a settled file. */
  ghost predicate SettledOpens(crc: Checksum, max: nat, events: seq<Event>) {
    forall i | 0 <= i < |events| && events[i].Open? ::
      var s := Run(crc, EMPTY, events[..i]);
      s.Down? ==> Settled(crc, max, s.closed)
  }

  lemma SyncedIsSecured(crc: Checksum, max: nat, f: File)
    requires f.synced == |f.content|
    ensures Secured(crc, max, f) == Written(crc, max, f.content)
  {
    assert f.content[..f.synced] == f.content;
  }

  lemma HonestStep(crc: Checksum, max: nat, s: Store, e: Event)
    requires Inv(crc, max, s) && Honest(crc, max, s) && max <= PAYLOAD_LIMIT
    requires e.Open? ==> e.config.maxRecordBytes <= max
    requires e.Open? && s.Down? ==> Settled(crc, max, s.closed)
    ensures Inv(crc, max, Next(crc, s, e)) && Honest(crc, max, Next(crc, s, e))
  {
    hide Frame, ParseHead, Written, IsTornTail, DecodeHeader;
    StepSafe(crc, max, s, e);
    var s' := Next(crc, s, e);
    if s'.Up? && (s.Down? || s'.wal.durableThrough != s.wal.durableThrough) {
      if e.Open? {
        OpenStartsSession(crc, e.config, s.closed, e.scanFault);
        if !Parse(crc, e.config.maxRecordBytes, s.closed.content, 0, 0).Failed? {
          LooserBound(crc, e.config.maxRecordBytes, max, s.closed.content, 0, 0);
        }
      } else if e.Replay? {
        ReplayReturnsSession(crc, s.wal, e.syncFails, e.scanFault, Written(crc, max, s.wal.file.content));
      }
      SyncedIsSecured(crc, max, s'.wal.file);
    }
  }

  lemma {:induction false} HonestRun(crc: Checksum, max: nat, events: seq<Event>)
    requires Bounded(events, max) && SettledOpens(crc, max, events)
    ensures Inv(crc, max, Run(crc, EMPTY, events)) && Honest(crc, max, Run(crc, EMPTY, events))
  {
    hide Next, Secured, Settled, Inv;
    RunInv(crc, max, events);
    if events == [] {
      EmptyInv(crc, max);
    } else {
      var n := |events| - 1;
      var before := events[..n];
      forall i | 0 <= i < n && before[i].Open?
        ensures var s := Run(crc, EMPTY, before[..i]); s.Down? ==> Settled(crc, max, s.closed)
      {
        assert before[..i] == events[..i] && events[i] == before[i];
      }
      HonestRun(crc, max, before);
      assert events[n] in events;
      HonestStep(crc, max, Run(crc, EMPTY, before), events[n]);
    }
  }

  // ----------------------------------------------------------- main results

  /** Once a writer reports a record durable, that record survives every later
      session, failure and power loss unchanged, provided every open found a
      settled file. */
  lemma DurableForever(crc: Checksum, max: nat, events: seq<Event>, j: nat)
    requires Bounded(events, max) && SettledOpens(crc, max, events) && j <= |events|
    requires Run(crc, EMPTY, events[..j]).Up?
    ensures var reported := Run(crc, EMPTY, events[..j]).wal;
            var now := FileOf(Run(crc, EMPTY, events));
            && reported.durableThrough <= |Written(crc, max, reported.file.content)|
            && Written(crc, max, reported.file.content)[..reported.durableThrough]
               <= Written(crc, max, now.content)
  {
    hide Next, Run, Written, Settled, ParseHead;
    var before := events[..j];
    forall i | 0 <= i < j && before[i].Open?
      ensures var s := Run(crc, EMPTY, before[..i]); s.Down? ==> Settled(crc, max, s.closed)
    {
      assert before[..i] == events[..i] && events[i] == before[i];
    }
    assert Bounded(before, max);
    HonestRun(crc, max, before);
    SecuredForever(crc, max, events, j);
    var f, f' := FileOf(Run(crc, EMPTY, before)), FileOf(Run(crc, EMPTY, events));
    WrittenPrefix(crc, max, f.content, f.synced);
    WrittenPrefix(crc, max, f'.content, f'.synced);
  }

  /** When writers end only by power loss, never by a process restart, a closed
      file is always fully synchronized. */
  lemma {:induction false} PowerLossLeavesSynced(crc: Checksum, events: seq<Event>)
    requires forall e <- events :: !e.Exit?
    ensures var s := Run(crc, EMPTY, events);
            s.Down? ==> s.closed.synced == |s.closed.content|
  {
    hide OpenWal, AppendWal, FlushWal, ReplayWal;
    if events != [] {
      var before, e := events[..|events| - 1], events[|events| - 1];
      PowerLossLeavesSynced(crc, before);
      assert e in events;
      var s := Run(crc, EMPTY, before);
      if e.Open? && s.Down? {
        FailedOpenLeavesSynced(crc, e.config, s.closed, e.scanFault);
      }
    }
  }

  lemma FailedOpenLeavesSynced(crc: Checksum, config: Config, f: File, fault: ScanFault)
    requires f.synced == |f.content|
    ensures OpenWal(crc, config, f, fault).file.synced == |OpenWal(crc, config, f, fault).file.content|
  {
    hide Parse;
    EncodeParsedIfScanned(crc, config.maxRecordBytes, f.content);
  }

  lemma PowerLossSettles(crc: Checksum, max: nat, events: seq<Event>)
    requires forall e <- events :: !e.Exit?
    ensures SettledOpens(crc, max, events)
  {
    hide Run, Parse;
    forall i | 0 <= i < |events| && events[i].Open?
      ensures var s := Run(crc, EMPTY, events[..i]); s.Down? ==> Settled(crc, max, s.closed)
    {
      PowerLossLeavesSynced(crc, events[..i]);
    }
  }

  /** Hence, over any number of sessions, device failures and power losses, a
      reported record survives with no further condition. */
  lemma PowerLossDurability(crc: Checksum, max: nat, events: seq<Event>, j: nat)
    requires Bounded(events, max) && j <= |events|
    requires forall e <- events :: !e.Exit?
    requires Run(crc, EMPTY, events[..j]).Up?
    ensures var reported := Run(crc, EMPTY, events[..j]).wal;
            && reported.durableThrough <= |Written(crc, max, reported.file.content)|
            && Written(crc, max, reported.file.content)[..reported.durableThrough]
               <= Written(crc, max, FileOf(Run(crc, EMPTY, events)).content)
  {
    hide Next, Run, Written, Parse;
    PowerLossSettles(crc, max, events);
    DurableForever(crc, max, events, j);
  }

  /** Reopening with Truncate after a power loss in any state that satisfies the
      invariant. */
  lemma RecoverFrom(crc: Checksum, config: Config, s: Store, keep: nat)
    requires Inv(crc, config.maxRecordBytes, s) && config.tail.Truncate?
    requires FileOf(s).synced <= keep <= |FileOf(s).content|
    ensures var max := config.maxRecordBytes;
            var f := FileOf(s);
            var o := OpenWal(crc, config, File(f.content[..keep], keep), NoFault);
            && f.synced <= |f.content| && o.result.Ok?
            && var w := o.result.value;
               && |Secured(crc, max, f)| <= w.lastLsn <= |Written(crc, max, f.content)|
               && Secured(crc, max, f) <= Written(crc, max, f.content)
               && Session(crc, w, Written(crc, max, f.content)[..w.lastLsn]) && !w.poisoned
               && w.durableThrough == w.lastLsn && w.file.synced == |w.file.content|
  {
    hide Frame, ParseHead, DecodeHeader, Session;
    var max := config.maxRecordBytes;
    var f := FileOf(s);
    var g := File(f.content[..keep], keep);
    WrittenPrefix(crc, max, f.content, keep);
    WrittenPrefix(crc, max, f.content, f.synced);
    WrittenGrows(crc, max, f.content[..f.synced], g.content);
    OpenStartsSession(crc, config, g, NoFault);
    var w := OpenWal(crc, config, g, NoFault).result.value;
    SessionFacts(crc, w, Written(crc, max, g.content));
    assert Written(crc, max, f.content)[..w.lastLsn] == Written(crc, max, g.content);
  }

  /** Recovery after a power loss at any reachable moment: reopening with
      Truncate and a sufficient record bound succeeds, and recovers exactly
      records 1 to k of those in the file, with k at least the number of
      synchronized records. */
  lemma CrashRecovery(crc: Checksum, config: Config, events: seq<Event>, keep: nat)
    requires Bounded(events, config.maxRecordBytes) && config.tail.Truncate?
    requires var f := FileOf(Run(crc, EMPTY, events)); f.synced <= keep <= |f.content|
    ensures var max := config.maxRecordBytes;
            var f := FileOf(Run(crc, EMPTY, events));
            var o := OpenWal(crc, config, File(f.content[..keep], keep), NoFault);
            && f.synced <= |f.content| && o.result.Ok?
            && var w := o.result.value;
               && |Secured(crc, max, f)| <= w.lastLsn <= |Written(crc, max, f.content)|
               && Session(crc, w, Written(crc, max, f.content)[..w.lastLsn])
               && w.durableThrough == w.lastLsn && w.file.synced == |w.file.content|
  {
    hide Run, Session, Secured, OpenWal, Written, Inv;
    RunInv(crc, config.maxRecordBytes, events);
    RecoverFrom(crc, config, Run(crc, EMPTY, events), keep);
  }

  /** With settled opens, k also covers everything the lost session had
      reported durable. */
  lemma CrashKeepsReported(crc: Checksum, config: Config, events: seq<Event>, keep: nat)
    requires Bounded(events, config.maxRecordBytes) && config.tail.Truncate?
    requires SettledOpens(crc, config.maxRecordBytes, events) && Run(crc, EMPTY, events).Up?
    requires var f := FileOf(Run(crc, EMPTY, events)); f.synced <= keep <= |f.content|
    ensures var w := Run(crc, EMPTY, events).wal;
            var o := OpenWal(crc, config, File(w.file.content[..keep], keep), NoFault);
            o.result.Ok? && w.durableThrough <= o.result.value.lastLsn
  {
    hide Next, Run, Secured, Settled, OpenWal, ParseHead;
    HonestRun(crc, config.maxRecordBytes, events);
    CrashRecovery(crc, config, events, keep);
  }

  /** When writers end only by power loss, k covers everything reported with no
      further condition. */
  lemma PowerLossKeepsReported(crc: Checksum, config: Config, events: seq<Event>, keep: nat)
    requires Bounded(events, config.maxRecordBytes) && config.tail.Truncate?
    requires (forall e <- events :: !e.Exit?) && Run(crc, EMPTY, events).Up?
    requires var f := FileOf(Run(crc, EMPTY, events)); f.synced <= keep <= |f.content|
    ensures var w := Run(crc, EMPTY, events).wal;
            var o := OpenWal(crc, config, File(w.file.content[..keep], keep), NoFault);
            o.result.Ok? && w.durableThrough <= o.result.value.lastLsn
  {
    hide Run, OpenWal, Parse;
    PowerLossSettles(crc, config.maxRecordBytes, events);
    CrashKeepsReported(crc, config, events, keep);
  }

  /** The session invariant over every run: an unpoisoned writer's file is the
      encoding of records 1 to lastLsn, and its unsynchronized window obeys the
      sync policy. */
  lemma SessionAlways(crc: Checksum, max: nat, events: seq<Event>)
    requires Bounded(events, max)
    ensures var s := Run(crc, EMPTY, events);
            s.Up? && !s.wal.poisoned ==> Session(crc, s.wal, Written(crc, max, s.wal.file.content))
  {
    hide Next, Run, Session, Parse, Written;
    RunInv(crc, max, events);
  }
}
