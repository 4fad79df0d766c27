/** What the writer's operations answer, when they succeed, and that the answers
    can be relied on over runs. */
module WalAnswers {
  import opened Core
  import opened WalFormat
  import opened WalScan
  import opened WalDisk
  import opened WalScanner
  import opened WalSession
  import opened WalDurability
  import opened WalReports

  // --------------------------------------------------------------- one call

  /** Whether the policy calls for synchronization after one more record. */
  predicate Due(w: Wal) {
    w.config.sync.Always? || (w.config.sync.Batch? && w.unsynced + 1 >= w.config.sync.maxUnsynced)
  }

  /** Whether the device takes the whole frame and, where due, synchronizes it. */
  predicate DeviceHolds(crc: Checksum, w: Wal, r: Record, fault: AppendFault) {
    var length := HEADER_LEN + |r.payload|;
    && !fault.seekFails && w.validLength + length <= MAX_FILE_LENGTH
    && (fault.writeStopsAt.Some? ==> fault.writeStopsAt.value >= length)
    && (Due(w) ==> !fault.syncFails)
  }

  /** Appending to a session succeeds exactly when the record fits, numbers are
      left, and the device holds; otherwise the error says which. */
  lemma AppendAnswers(crc: Checksum, w: Wal, r: Record, fault: AppendFault, records: seq<Record>)
    requires !w.poisoned ==> Session(crc, w, records)
    ensures var result := AppendWal(crc, w, r, fault).result;
            var fits := |r.payload| <= w.config.maxRecordBytes;
            && (result == Err(Poisoned) <==> w.poisoned)
            && (!w.poisoned && !fits ==> result == Err(RecordTooLarge(|r.payload|, w.config.maxRecordBytes)))
            && (!w.poisoned && fits && w.lastLsn == U64_MAX ==> result == Err(LsnExhausted))
            && (!w.poisoned && fits && w.lastLsn < U64_MAX ==>
                  && (result.Ok? <==> DeviceHolds(crc, w, r, fault) && w.unsynced < U32_MAX)
                  && (result.Err? && w.unsynced < U32_MAX ==> result == Err(Io)))
  {
    hide Frame, EncodesLog;
  }

  /** The answer of a successful append is the writer's own state: the new
      record's number, and the durable frontier, which moves to that number
      exactly when synchronization was due and stays where it was otherwise. */
  lemma AppendReports(crc: Checksum, w: Wal, r: Record, fault: AppendFault, records: seq<Record>)
    requires !w.poisoned && Session(crc, w, records) && AppendWal(crc, w, r, fault).result.Ok?
    ensures var a := AppendWal(crc, w, r, fault);
            && a.result.value == AppendOutcome(a.wal.lastLsn, a.wal.durableThrough)
            && a.wal.lastLsn == w.lastLsn + 1
            && (Due(w) ==> a.wal.durableThrough == a.wal.lastLsn && a.wal.file.synced == |a.wal.file.content|)
            && (!Due(w) ==> a.wal.durableThrough == w.durableThrough && a.wal.file.synced == w.file.synced)
  {
    hide Frame, EncodesLog;
  }

  /** Flushing: it succeeds unless poisoned or the device fails, answers the last
      record, and then everything written is synchronized. */
  lemma FlushAnswers(w: Wal, fails: bool)
    ensures var f := FlushWal(w, fails);
            && (f.result == Err(Poisoned) <==> w.poisoned) && (f.result == Err(Io) <==> !w.poisoned && fails)
            && (f.result.Ok? <==> !w.poisoned && !fails)
            && (f.result.Ok? ==>
                  && f.result.value == f.wal.durableThrough == f.wal.lastLsn == w.lastLsn
                  && f.wal.file == File(w.file.content, |w.file.content|) && f.wal.unsynced == 0)
  {
  }

  /** Replay and open pass on what stopped them. */
  lemma StoppedAnswers(crc: Checksum, w: Wal, syncFails: bool, fault: ScanFault, f: File, setup: Setup)
    ensures var replay := ReplayWal(crc, w, syncFails, fault).result;
            && (w.poisoned ==> replay == Err(Poisoned))
            && (!w.poisoned && syncFails ==> replay == Err(Io))
    ensures var open := OpenLog(crc, w.config, f, setup, fault).result;
            && (open == Err(AlreadyOpen) <==> setup.available && setup.locked)
            && (!setup.available || (!setup.locked && setup.created && setup.syncFails) ==> open == Err(Io))
  {
    NeverAlreadyOpen(crc, w.config, f, fault);
  }

  /** A scan never claims that the log is open elsewhere. */
  lemma NeverAlreadyOpen(crc: Checksum, config: Config, f: File, fault: ScanFault)
    ensures OpenWal(crc, config, f, fault).result != Err(AlreadyOpen)
  {
    hide ParseHead;
    ParseNotOpen(crc, config.maxRecordBytes, f.content, 0, 0);
    EncodeParsedIfScanned(crc, config.maxRecordBytes, f.content);
  }

  lemma HeadNotOpen(crc: Checksum, max: nat, bytes: seq<byte>, offset: nat, last: nat)
    requires bytes != []
    ensures ParseHead(crc, max, bytes, offset, last) != Bad(AlreadyOpen)
  {
    hide BE.Decode;
  }

  lemma {:induction false} ParseNotOpen(crc: Checksum, max: nat, bytes: seq<byte>, offset: nat, last: nat)
    ensures Parse(crc, max, bytes, offset, last) != Failed(AlreadyOpen)
    decreases |bytes|
  {
    hide ParseHead;
    if bytes != [] {
      var head := ParseHead(crc, max, bytes, offset, last);
      HeadNotOpen(crc, max, bytes, offset, last);
      if head.Whole? {
        ParseNotOpen(crc, max, bytes[head.length..], offset + head.length, last + 1);
      }
    }
  }

  // ------------------------------------------------------------------- runs

  /** Over runs whose opens found settled files, the outcome of an append can be
      relied on: the record has the number answered, and every record up to the
      durable frontier answered is synchronized, and unchanged in every later
      file. */
  lemma OutcomeIsDurable(crc: Checksum, max: nat, events: seq<Event>, j: nat, o: AppendOutcome)
    requires Bounded(events, max) && SettledOpens(crc, max, events) && j < |events| && events[j].Append?
    requires Run(crc, EMPTY, events[..j]).Up?
    requires AppendWal(crc, Run(crc, EMPTY, events[..j]).wal, events[j].record, events[j].appendFault).result == Ok(o)
    ensures var s := Run(crc, EMPTY, events[..j + 1]);
            && s.Up? && FileOf(s).synced <= |FileOf(s).content|
            && var records := Written(crc, max, FileOf(s).content);
               && o.lsn == |records| > 0 && records[o.lsn - 1] == events[j].record
               && o.durableThrough <= |Secured(crc, max, FileOf(s))| && o.durableThrough <= |records|
               && records[..o.durableThrough] <= Written(crc, max, FileOf(Run(crc, EMPTY, events)).content)
  {
    hide Run, Parse, Frame, AppendWal;
    var before := Run(crc, EMPTY, events[..j]);
    Prefixes(crc, max, events, j);
    RunInv(crc, max, events[..j]);
    AppendAdds(crc, max, before, events[j].record, events[j].appendFault);
    HonestRun(crc, max, events[..j + 1]);
    InvSynced(crc, max, Run(crc, EMPTY, events[..j + 1]));
    DurableForever(crc, max, events, j + 1);
  }

  lemma InvSynced(crc: Checksum, max: nat, s: Store)
    requires Inv(crc, max, s)
    ensures FileOf(s).synced <= |FileOf(s).content|
  {
    hide Parse;
  }

  lemma AppendAdds(crc: Checksum, max: nat, s: Store, r: Record, fault: AppendFault)
    requires Inv(crc, max, s) && s.Up? && max <= PAYLOAD_LIMIT && AppendWal(crc, s.wal, r, fault).result.Ok?
    ensures var a := AppendWal(crc, s.wal, r, fault);
            var records := Written(crc, max, a.wal.file.content);
            && a.result.value == AppendOutcome(a.wal.lastLsn, a.wal.durableThrough)
            && records != [] && a.wal.lastLsn == |records| && records[|records| - 1] == r
            && a.wal.durableThrough <= |records|
  {
    hide Parse, Frame, AppendWal;
    var records := Written(crc, max, s.wal.file.content);
    AppendNeedsSession(crc, s.wal, r, fault);
    AppendKeepsSession(crc, s.wal, r, fault, records);
    AppendReports(crc, s.wal, r, fault, records);
    SessionAfterOpen(crc, max, AppendWal(crc, s.wal, r, fault).wal, records + [r]);
  }

  lemma AppendNeedsSession(crc: Checksum, w: Wal, r: Record, fault: AppendFault)
    requires AppendWal(crc, w, r, fault).result.Ok?
    ensures !w.poisoned
  {
    hide Frame;
  }

  /** One event and the runs around it. */
  lemma Prefixes(crc: Checksum, max: nat, events: seq<Event>, j: nat)
    requires Bounded(events, max) && SettledOpens(crc, max, events) && j < |events|
    ensures Bounded(events[..j], max) && Bounded(events[..j + 1], max) && SettledOpens(crc, max, events[..j + 1])
    ensures Run(crc, EMPTY, events[..j + 1]) == WalDurability.Next(crc, Run(crc, EMPTY, events[..j]), events[j])
  {
    hide WalDurability.Next, Settled;
    assert events[..j + 1][..j] == events[..j];
    var upTo := events[..j + 1];
    forall i | 0 <= i < |upTo| && upTo[i].Open?
      ensures var s := Run(crc, EMPTY, upTo[..i]); s.Down? ==> Settled(crc, max, s.closed)
    {
      assert upTo[..i] == events[..i] && upTo[i] == events[i];
    }
  }

  /** The same for the answer of a flush: everything written is then synchronized
      and unchanged in every later file. */
  lemma FlushedIsDurable(crc: Checksum, max: nat, events: seq<Event>, j: nat, upTo: nat)
    requires Bounded(events, max) && j < |events| && events[j].Flush?
    requires Run(crc, EMPTY, events[..j]).Up?
    requires FlushWal(Run(crc, EMPTY, events[..j]).wal, events[j].syncFails).result == Ok(upTo)
    ensures var s := Run(crc, EMPTY, events[..j + 1]);
            && s.Up? && FileOf(s).synced <= |FileOf(s).content|
            && var records := Written(crc, max, FileOf(s).content);
               && upTo == |records| && Secured(crc, max, FileOf(s)) == records
               && records <= Written(crc, max, FileOf(Run(crc, EMPTY, events)).content)
  {
    hide Run, Parse, Session;
    var before := Run(crc, EMPTY, events[..j]);
    RunStep(crc, events, j);
    RunInv(crc, max, events[..j]);
    FlushAnswers(before.wal, events[j].syncFails);
    FlushCovers(crc, max, before, events[j].syncFails);
    SecuredForever(crc, max, events, j + 1);
    var f' := FileOf(Run(crc, EMPTY, events));
    WrittenPrefix(crc, max, f'.content, f'.synced);
  }

  lemma RunStep(crc: Checksum, events: seq<Event>, j: nat)
    requires j < |events|
    ensures Run(crc, EMPTY, events[..j + 1]) == WalDurability.Next(crc, Run(crc, EMPTY, events[..j]), events[j])
  {
    hide WalDurability.Next;
    assert events[..j + 1][..j] == events[..j];
  }

  lemma FlushCovers(crc: Checksum, max: nat, s: Store, fails: bool)
    requires Inv(crc, max, s) && s.Up? && max <= PAYLOAD_LIMIT && FlushWal(s.wal, fails).result.Ok?
    ensures var f := FlushWal(s.wal, fails);
            && f.wal.file.synced <= |f.wal.file.content|
            && f.result.value == |Written(crc, max, f.wal.file.content)|
            && Secured(crc, max, f.wal.file) == Written(crc, max, f.wal.file.content)
  {
    hide Parse, Frame, EncodesLog;
    SyncedIsSecured(crc, max, FlushWal(s.wal, fails).wal.file);
  }
}
