/** When a durability report can be trusted: exactly, and by what a caller can
    see of the writer. */
module WalReports {
  import opened Core
  import opened WalFormat
  import opened WalScan
  import opened WalDisk
  import opened WalScanner
  import opened WalSession
  import opened WalDurability

  // ------------------------------------------------------------ exactly when

  /** The records a writer reports durable are in the file, unchanged, after
      every continuation of the run. */
  ghost predicate ReportsSurvive(crc: Checksum, max: nat, events: seq<Event>)
    requires Run(crc, EMPTY, events).Up?
    requires var w := Run(crc, EMPTY, events).wal; w.durableThrough <= |Written(crc, max, w.file.content)|
  {
    var w := Run(crc, EMPTY, events).wal;
    forall more | Bounded(more, max) ::
      Written(crc, max, w.file.content)[..w.durableThrough]
      <= Written(crc, max, FileOf(Run(crc, EMPTY, events + more)).content)
  }

  lemma RunSplit(crc: Checksum, max: nat, events: seq<Event>, more: seq<Event>)
    requires Bounded(events, max) && Bounded(more, max)
    ensures Bounded(events + more, max) && (events + more)[..|events|] == events
  {
  }

  /** Losing power at once, down to the synchronized bytes. */
  lemma WorstLoss(crc: Checksum, max: nat, events: seq<Event>)
    requires Inv(crc, max, Run(crc, EMPTY, events))
    ensures var f := FileOf(Run(crc, EMPTY, events));
            && f.synced <= |f.content|
            && FileOf(Run(crc, EMPTY, events + [PowerLoss(f.synced)])).content == f.content[..f.synced]
  {
    hide Run, Parse, Session, Written;
    RunSnoc(crc, events, PowerLoss(FileOf(Run(crc, EMPTY, events)).synced));
  }

  /** In every reachable state with a writer, what it reports durable survives
      every continuation if and only if it lies within the synchronized records. */
  lemma ReportedSurvivesIff(crc: Checksum, max: nat, events: seq<Event>)
    requires Bounded(events, max) && Run(crc, EMPTY, events).Up?
    ensures Inv(crc, max, Run(crc, EMPTY, events))
    ensures var w := Run(crc, EMPTY, events).wal; w.durableThrough <= |Written(crc, max, w.file.content)|
    ensures ReportsSurvive(crc, max, events) <==> Honest(crc, max, Run(crc, EMPTY, events))
  {
    hide Run, Parse, Session, Next;
    RunInv(crc, max, events);
    var w := Run(crc, EMPTY, events).wal;
    var f := w.file;
    WrittenPrefix(crc, max, f.content, f.synced);
    if Honest(crc, max, Run(crc, EMPTY, events)) {
      forall more | Bounded(more, max)
        ensures Written(crc, max, f.content)[..w.durableThrough]
             <= Written(crc, max, FileOf(Run(crc, EMPTY, events + more)).content)
      {
        RunSplit(crc, max, events, more);
        SecuredForever(crc, max, events + more, |events|);
        var f' := FileOf(Run(crc, EMPTY, events + more));
        WrittenPrefix(crc, max, f'.content, f'.synced);
      }
    } else {
      var loss := [PowerLoss(f.synced)];
      assert Bounded(loss, max);
      WorstLoss(crc, max, events);
      assert !(Written(crc, max, f.content)[..w.durableThrough] <= Secured(crc, max, f));
    }
  }

  // -------------------------------------------------- what a caller can see

  /** An unpoisoned writer has synchronized exactly the records it reports. */
  ghost predicate Frontier(crc: Checksum, max: nat, s: Store) {
    s.Up? && !s.wal.poisoned ==>
      var records := Written(crc, max, s.wal.file.content);
      && s.wal.durableThrough <= |records|
      && s.wal.file.synced == |EncodeLog(crc, records[..s.wal.durableThrough], 1)|
  }

  /** A prefix of an encoded log is as long as the whole exactly when it is the
      whole. */
  lemma PrefixLength(crc: Checksum, records: seq<Record>, k: nat)
    requires k <= |records|
    ensures |EncodeLog(crc, records[..k], 1)| == |EncodeLog(crc, records, 1)| <==> k == |records|
  {
    hide Frame;
    if k == |records| {
      assert records[..k] == records;
    } else {
      assert records == records[..k] + records[k..];
      EncodeLogAppend(crc, records[..k], records[k..], 1);
      assert |EncodeLog(crc, records[k..], 1 + k)| >= |Frame(crc, 1 + k, records[k])|;
    }
  }

  /** A session whose writer has everything synchronized and reported. */
  lemma FrontierWhenSynced(crc: Checksum, max: nat, w: Wal, records: seq<Record>)
    requires Session(crc, w, records) && w.config.maxRecordBytes <= max <= PAYLOAD_LIMIT
    requires w.durableThrough == w.lastLsn && w.file.synced == |w.file.content|
    ensures Frontier(crc, max, Up(w))
  {
    hide Frame, ParseHead;
    SessionWritten(crc, max, w, records);
    assert records[..|records|] == records;
  }

  lemma AppendFrontier(crc: Checksum, max: nat, s: Store, r: Record, fault: AppendFault)
    requires Inv(crc, max, s) && Frontier(crc, max, s) && s.Up? && max <= PAYLOAD_LIMIT
    ensures Frontier(crc, max, Up(AppendWal(crc, s.wal, r, fault).wal))
  {
    hide Frame, ParseHead, EncodeLog;
    var w, a := s.wal, AppendWal(crc, s.wal, r, fault);
    if !w.poisoned && !a.wal.poisoned && a.wal != w {
      var records := Written(crc, max, w.file.content);
      AppendKeepsSession(crc, w, r, fault, records);
      SessionWritten(crc, max, a.wal, records + [r]);
      AppendSyncsOrNot(crc, w, r, fault, records);
      if a.wal.durableThrough == a.wal.lastLsn && a.wal.file.synced == |a.wal.file.content| {
        FrontierWhenSynced(crc, max, a.wal, records + [r]);
      } else {
        assert (records + [r])[..w.durableThrough] == records[..w.durableThrough];
      }
    }
  }

  /** A successful append leaves everything synchronized and reported, or leaves
      the frontier where it was. */
  lemma AppendSyncsOrNot(crc: Checksum, w: Wal, r: Record, fault: AppendFault, records: seq<Record>)
    requires !w.poisoned && Session(crc, w, records) && !AppendWal(crc, w, r, fault).wal.poisoned
    requires AppendWal(crc, w, r, fault).wal != w
    ensures var a := AppendWal(crc, w, r, fault);
            && a.result.Ok?
            && ((a.wal.durableThrough == a.wal.lastLsn && a.wal.file.synced == |a.wal.file.content|)
                || (a.wal.durableThrough == w.durableThrough && a.wal.file.synced == w.file.synced))
  {
    hide Frame, EncodesLog;
  }

  lemma FlushFrontier(crc: Checksum, max: nat, s: Store, fails: bool)
    requires Inv(crc, max, s) && Frontier(crc, max, s) && s.Up? && max <= PAYLOAD_LIMIT
    ensures Frontier(crc, max, Up(FlushWal(s.wal, fails).wal))
  {
    hide Frame, ParseHead, EncodeLog;
    if !s.wal.poisoned && !fails {
      var records := Written(crc, max, s.wal.file.content);
      SyncKeepsSession(crc, s.wal, fails, records);
      FrontierWhenSynced(crc, max, FlushWal(s.wal, fails).wal, records);
    }
  }

  lemma ReplayFrontier(crc: Checksum, max: nat, s: Store, fails: bool, fault: ScanFault)
    requires Inv(crc, max, s) && Frontier(crc, max, s) && s.Up? && max <= PAYLOAD_LIMIT
    ensures Frontier(crc, max, Up(ReplayWal(crc, s.wal, fails, fault).wal))
  {
    hide Frame, ParseHead, EncodeLog, ScanFile;
    if !s.wal.poisoned && !fails {
      var records := Written(crc, max, s.wal.file.content);
      ReplayReturnsSession(crc, s.wal, fails, fault, records);
      ReplayReports(crc, s.wal, fault, records);
      FrontierWhenSynced(crc, max, ReplayWal(crc, s.wal, fails, fault).wal, records);
    }
  }

  lemma ReplayReports(crc: Checksum, w: Wal, fault: ScanFault, records: seq<Record>)
    requires !w.poisoned && Session(crc, w, records)
    ensures ReplayWal(crc, w, false, fault).wal.durableThrough == ReplayWal(crc, w, false, fault).wal.lastLsn
  {
    hide Frame, ParseHead, ScanFile;
  }

  lemma OpenFrontier(crc: Checksum, max: nat, f: File, config: Config, fault: ScanFault)
    requires Inv(crc, max, Down(f)) && config.maxRecordBytes <= max <= PAYLOAD_LIMIT && Settled(crc, max, f)
    ensures Frontier(crc, max, WalDurability.Next(crc, Down(f), Open(config, fault)))
  {
    hide Frame, ParseHead, DecodeHeader, Session, EncodeLog;
    var o := OpenWal(crc, config, f, fault);
    if o.result.Ok? {
      OpenStartsSession(crc, config, f, fault);
      LooserBound(crc, config.maxRecordBytes, max, f.content, 0, 0);
      FrontierWhenSynced(crc, max, o.result.value, Parse(crc, config.maxRecordBytes, f.content, 0, 0).records);
    }
  }

  lemma NextFrontier(crc: Checksum, max: nat, s: Store, e: Event)
    requires Inv(crc, max, s) && Frontier(crc, max, s) && max <= PAYLOAD_LIMIT
    requires e.Open? ==> e.config.maxRecordBytes <= max
    requires e.Open? && s.Down? ==> Settled(crc, max, s.closed)
    ensures Frontier(crc, max, WalDurability.Next(crc, s, e))
  {
    hide Parse, Session, OpenWal, AppendWal, FlushWal, ReplayWal, Written, Settled, EncodeLog;
    match e {
      case Open(config, fault) => if s.Down? { OpenFrontier(crc, max, s.closed, config, fault); }
      case Append(r, fault) => if s.Up? { AppendFrontier(crc, max, s, r, fault); }
      case Flush(fails) => if s.Up? { FlushFrontier(crc, max, s, fails); }
      case Replay(fails, fault) => if s.Up? { ReplayFrontier(crc, max, s, fails, fault); }
      case PowerLoss(_) =>
      case Exit =>
    }
  }

  lemma {:induction false} RunFrontier(crc: Checksum, max: nat, events: seq<Event>)
    requires Bounded(events, max) && SettledOpens(crc, max, events)
    ensures Frontier(crc, max, Run(crc, EMPTY, events))
  {
    hide WalDurability.Next, Frontier, Inv, Settled;
    if events == [] {
      EmptyFrontier(crc, max);
    } else {
      var n := |events| - 1;
      var before := events[..n];
      SettledBefore(crc, max, events);
      RunFrontier(crc, max, before);
      RunInv(crc, max, before);
      assert events[n] in events;
      NextFrontier(crc, max, Run(crc, EMPTY, before), events[n]);
    }
  }

  lemma EmptyFrontier(crc: Checksum, max: nat)
    ensures Frontier(crc, max, EMPTY)
  {
  }

  lemma SettledBefore(crc: Checksum, max: nat, events: seq<Event>)
    requires Bounded(events, max) && SettledOpens(crc, max, events) && events != []
    ensures var n, before := |events| - 1, events[..|events| - 1];
            && Bounded(before, max) && SettledOpens(crc, max, before)
            && (events[n].Open? && Run(crc, EMPTY, before).Down? ==>
                  Settled(crc, max, Run(crc, EMPTY, before).closed))
  {
    hide Run, Settled;
    var n, before := |events| - 1, events[..|events| - 1];
    forall i | 0 <= i < n && before[i].Open?
      ensures var s := Run(crc, EMPTY, before[..i]); s.Down? ==> Settled(crc, max, s.closed)
    {
      assert before[..i] == events[..i] && events[i] == before[i];
    }
  }

  lemma FrontierSettled(crc: Checksum, max: nat, s: Store)
    requires Inv(crc, max, s) && Frontier(crc, max, s) && s.Up? && !s.wal.poisoned && max <= PAYLOAD_LIMIT
    ensures Settled(crc, max, s.wal.file) <==> s.wal.durableThrough == s.wal.lastLsn
    ensures s.wal.durableThrough == s.wal.lastLsn <==> s.wal.file.synced == |s.wal.file.content|
  {
    hide Frame, ParseHead;
    var records := Written(crc, max, s.wal.file.content);
    SessionWritten(crc, max, s.wal, records);
    PrefixLength(crc, records, s.wal.durableThrough);
  }

  /** Over runs whose opens found settled files, an unpoisoned writer leaves a
      settled file if and only if the last record it wrote is the last it reports
      durable: two accessors a caller can compare before dropping the writer. */
  lemma LeavesSettledIff(crc: Checksum, max: nat, events: seq<Event>)
    requires Bounded(events, max) && SettledOpens(crc, max, events)
    requires Run(crc, EMPTY, events).Up? && !Run(crc, EMPTY, events).wal.poisoned
    ensures var w := Run(crc, EMPTY, events).wal;
            Settled(crc, max, w.file) <==> w.durableThrough == w.lastLsn
  {
    hide Run, Frontier, Inv, Settled;
    RunInv(crc, max, events);
    RunFrontier(crc, max, events);
    FrontierSettled(crc, max, Run(crc, EMPTY, events));
  }

  /** Every writer that is dropped without a power loss is unpoisoned and reports
      its last record durable, as after a successful flush or, under the Always
      policy, after any successful call. */
  ghost predicate CleanExits(crc: Checksum, events: seq<Event>) {
    forall i | 0 <= i < |events| && events[i].Exit? ::
      var s := Run(crc, EMPTY, events[..i]);
      s.Up? ==> !s.wal.poisoned && s.wal.durableThrough == s.wal.lastLsn
  }

  ghost predicate ClosedSynced(s: Store) {
    s.Down? ==> s.closed.synced == |s.closed.content|
  }

  lemma NextCloses(crc: Checksum, max: nat, s: Store, e: Event)
    requires Inv(crc, max, s) && Frontier(crc, max, s) && ClosedSynced(s) && max <= PAYLOAD_LIMIT
    requires e.Exit? && s.Up? ==> !s.wal.poisoned && s.wal.durableThrough == s.wal.lastLsn
    ensures ClosedSynced(WalDurability.Next(crc, s, e))
  {
    hide OpenWal, AppendWal, FlushWal, ReplayWal, Inv, Frontier, Settled;
    match e {
      case Open(config, fault) => if s.Down? { FailedOpenLeavesSynced(crc, config, s.closed, fault); }
      case Append(_, _) =>
      case Flush(_) =>
      case Replay(_, _) =>
      case PowerLoss(keep) =>
      case Exit => if s.Up? { FrontierSettled(crc, max, s); }
    }
  }

  lemma {:induction false} CleanExitsKeep(crc: Checksum, max: nat, events: seq<Event>)
    requires Bounded(events, max) && CleanExits(crc, events)
    ensures Frontier(crc, max, Run(crc, EMPTY, events)) && ClosedSynced(Run(crc, EMPTY, events))
  {
    hide WalDurability.Next, Frontier, Inv, ClosedSynced;
    if events == [] {
      EmptyFrontier(crc, max);
      EmptyClosed();
    } else {
      var n := |events| - 1;
      var before := events[..n];
      var s := Run(crc, EMPTY, before);
      CleanBefore(crc, events);
      CleanExitsKeep(crc, max, before);
      RunInv(crc, max, before);
      assert events[n] in events;
      if s.Down? {
        ClosedSettled(crc, max, s);
      }
      NextFrontier(crc, max, s, events[n]);
      NextCloses(crc, max, s, events[n]);
    }
  }

  lemma EmptyClosed()
    ensures ClosedSynced(EMPTY)
  {
  }

  lemma ClosedSettled(crc: Checksum, max: nat, s: Store)
    requires ClosedSynced(s) && s.Down?
    ensures Settled(crc, max, s.closed)
  {
  }

  lemma CleanBefore(crc: Checksum, events: seq<Event>)
    requires CleanExits(crc, events) && events != []
    ensures var n, before := |events| - 1, events[..|events| - 1];
            && CleanExits(crc, before)
            && (events[n].Exit? && Run(crc, EMPTY, before).Up? ==>
                  var w := Run(crc, EMPTY, before).wal;
                  !w.poisoned && w.durableThrough == w.lastLsn)
  {
    hide Run;
    var n, before := |events| - 1, events[..|events| - 1];
    forall i | 0 <= i < n && before[i].Exit?
      ensures var s := Run(crc, EMPTY, before[..i]);
              s.Up? ==> !s.wal.poisoned && s.wal.durableThrough == s.wal.lastLsn
    {
      assert before[..i] == events[..i] && events[i] == before[i];
    }
  }

  lemma CleanPrefix(crc: Checksum, max: nat, events: seq<Event>, i: nat)
    requires Bounded(events, max) && CleanExits(crc, events) && i <= |events|
    ensures Bounded(events[..i], max) && CleanExits(crc, events[..i])
  {
    hide Run;
    forall k | 0 <= k < i && events[..i][k].Exit?
      ensures var s := Run(crc, EMPTY, events[..i][..k]);
              s.Up? ==> !s.wal.poisoned && s.wal.durableThrough == s.wal.lastLsn
    {
      assert events[..i][..k] == events[..k];
    }
  }

  /** With such exits every open finds a settled file. */
  lemma CleanExitsSettle(crc: Checksum, max: nat, events: seq<Event>)
    requires Bounded(events, max) && CleanExits(crc, events)
    ensures SettledOpens(crc, max, events)
  {
    hide Run, Settled, Frontier, ClosedSynced, CleanExits, Bounded;
    forall i | 0 <= i < |events| && events[i].Open?
      ensures var s := Run(crc, EMPTY, events[..i]); s.Down? ==> Settled(crc, max, s.closed)
    {
      CleanPrefix(crc, max, events, i);
      CleanExitsKeep(crc, max, events[..i]);
      if Run(crc, EMPTY, events[..i]).Down? {
        ClosedSettled(crc, max, Run(crc, EMPTY, events[..i]));
      }
    }
  }

  /** Hence, if writers are only dropped when what they report is all they wrote,
      a record once reported durable survives everything. */
  lemma CleanExitDurability(crc: Checksum, max: nat, events: seq<Event>, j: nat)
    requires Bounded(events, max) && CleanExits(crc, events) && j <= |events|
    requires Run(crc, EMPTY, events[..j]).Up?
    ensures var reported := Run(crc, EMPTY, events[..j]).wal;
            && reported.durableThrough <= |Written(crc, max, reported.file.content)|
            && Written(crc, max, reported.file.content)[..reported.durableThrough]
               <= Written(crc, max, FileOf(Run(crc, EMPTY, events)).content)
  {
    hide Run, Written;
    CleanExitsSettle(crc, max, events);
    DurableForever(crc, max, events, j);
  }

  /** A successful flush makes an exit clean, and so does the Always policy. */
  lemma CleanWhen(crc: Checksum, max: nat, events: seq<Event>)
    requires Bounded(events, max) && Run(crc, EMPTY, events).Up? && !Run(crc, EMPTY, events).wal.poisoned
    ensures var w := Run(crc, EMPTY, events).wal;
            && (w.config.sync.Always? ==> w.durableThrough == w.lastLsn)
            && (FlushWal(w, false).result.Ok? ==>
                  FlushWal(w, false).wal.durableThrough == FlushWal(w, false).wal.lastLsn)
  {
    hide Run, EncodesLog, Parse, Written;
    SessionAlways(crc, max, events);
  }

  /** Dropping an unpoisoned writer and reopening the log: no power loss can then
      take away a record reported durable if and only if the dropped writer
      reported all it wrote. */
  lemma ReopenRightIff(crc: Checksum, max: nat, events: seq<Event>)
    requires Bounded(events, max) && SettledOpens(crc, max, events)
    requires Run(crc, EMPTY, events).Up? && !Run(crc, EMPTY, events).wal.poisoned
    ensures var w := Run(crc, EMPTY, events).wal;
            var o := OpenWal(crc, w.config, w.file, NoFault).result;
            && o.Ok? && o.value.durableThrough == w.lastLsn && o.value.file == w.file
            && ((forall keep | w.file.synced <= keep <= |w.file.content| ::
                   |Written(crc, w.config.maxRecordBytes, w.file.content[..keep])| >= w.lastLsn)
                <==> w.durableThrough == w.lastLsn)
  {
    hide Run, Frontier, ParseHead, Frame;
    RunInv(crc, max, events);
    RunFrontier(crc, max, events);
    FrontierSettled(crc, max, Run(crc, EMPTY, events));
    var w := Run(crc, EMPTY, events).wal;
    EncodesLogParses(crc, w.config.maxRecordBytes, w.file.content, Written(crc, max, w.file.content));
    OpenReportsDurableIff(crc, w.config, w.file);
  }
}
