/** What the log writer's operations mean, and the invariant of a writing
    session: sync policies, poisoning, and replay. */
module WalSession {
  import opened Core
  import opened WalFormat
  import opened WalScan
  import opened WalDisk
  import opened WalScanner

  datatype SyncPolicy = Always | Batch(maxUnsynced: nat) | Manual

  datatype ConfigData = Config(maxRecordBytes: nat, sync: SyncPolicy, tail: TailRepair)

  /** Configuration bounds: a record of 1 KiB to 64 MiB, a nonempty batch. */
  type Config = c: ConfigData |
      1024 <= c.maxRecordBytes <= 64 * 1024 * 1024
      && (c.sync.Batch? ==> 1 <= c.sync.maxUnsynced <= U32_MAX)
    witness Config(1024, Always, Reject)

  /** The writer.  Sequence numbers start at 1; 0 means no record. */
  datatype Wal = Wal(
    file: File, config: Config, lastLsn: nat, durableThrough: nat,
    validLength: nat, unsynced: nat, poisoned: bool)

  datatype AppendOutcome = AppendOutcome(lsn: nat, durableThrough: nat)

  /** Where the device fails during an append, if anywhere. */
  datatype AppendFault = AppendFault(seekFails: bool, writeStopsAt: Option<nat>, syncFails: bool)

  datatype Opened = Opened(file: File, result: Result<Wal, WalError>)
  datatype Appended = Appended(wal: Wal, result: Result<AppendOutcome, WalError>)
  datatype Flushed = Flushed(wal: Wal, result: Result<nat, WalError>)
  datatype Replayed = Replayed(wal: Wal, result: Result<Replay, WalError>)

  function OpenWal(crc: Checksum, config: Config, f: File, fault: ScanFault): Opened {
    var s := ScanFile(crc, config.maxRecordBytes, config.tail, f, fault);
    match s.result
    case Err(e) => Opened(s.file, Err(e))
    case Ok(replay) =>
      Opened(s.file, Ok(Wal(s.file, config, replay.report.lastLsn, replay.report.lastLsn,
                            replay.report.durableFileLength, 0, false)))
  }

  /** What happens before the scan: whether directory and file can be opened,
      whether another writer holds the lock, whether the file is new, and whether
      synchronizing a new file or its directory fails. */
  datatype Setup = Setup(available: bool, locked: bool, created: bool, syncFails: bool)

  /** Opening from the beginning. */
  function OpenLog(crc: Checksum, config: Config, f: File, setup: Setup, fault: ScanFault): Opened {
    if !setup.available then Opened(f, Err(Io))
    else if setup.locked then Opened(f, Err(AlreadyOpen))
    else if setup.created && setup.syncFails then Opened(f, Err(Io))
    else OpenWal(crc, config, f, fault)
  }

  /** The synchronization step shared by append and flush. */
  function SyncCurrent(w: Wal, fails: bool): Flushed {
    if fails then Flushed(w.(poisoned := true), Err(Io))
    else Flushed(w.(file := File(w.file.content, |w.file.content|),
                    durableThrough := w.lastLsn, unsynced := 0), Ok(w.lastLsn))
  }

  predicate MustSync(policy: SyncPolicy, unsynced: nat) {
    match policy
    case Always => true
    case Batch(maxUnsynced) => unsynced >= maxUnsynced
    case Manual => false
  }

  function AppendWal(crc: Checksum, w: Wal, r: Record, fault: AppendFault): Appended {
    if w.poisoned then Appended(w, Err(Poisoned))
    else if |r.payload| > w.config.maxRecordBytes then
      Appended(w, Err(RecordTooLarge(|r.payload|, w.config.maxRecordBytes)))
    else if w.lastLsn == U64_MAX then Appended(w, Err(LsnExhausted))
    else if fault.seekFails || w.validLength > MAX_FILE_LENGTH then Appended(w, Err(Io))
    else
      var frame := Frame(crc, w.lastLsn + 1, r);
      var k := Reach(|frame|, w.validLength, fault.writeStopsAt);
      var w1 := w.(file := Write(w.file, w.validLength, frame[..k]));
      if k < |frame| then Appended(w1.(poisoned := true), Err(Io))
      else
        var w2 := w1.(validLength := w.validLength + |frame|, lastLsn := w.lastLsn + 1);
        if w2.unsynced == U32_MAX then Appended(w2.(poisoned := true), Err(LsnExhausted))
        else
          var w3 := w2.(unsynced := w2.unsynced + 1);
          if MustSync(w.config.sync, w3.unsynced) then
            var s := SyncCurrent(w3, fault.syncFails);
            if s.result.Err? then Appended(s.wal, Err(s.result.error))
            else Appended(s.wal, Ok(AppendOutcome(s.wal.lastLsn, s.wal.durableThrough)))
          else Appended(w3, Ok(AppendOutcome(w3.lastLsn, w3.durableThrough)))
  }

  function FlushWal(w: Wal, syncFails: bool): Flushed {
    if w.poisoned then Flushed(w, Err(Poisoned)) else SyncCurrent(w, syncFails)
  }

  function ReplayWal(crc: Checksum, w: Wal, syncFails: bool, fault: ScanFault): Replayed {
    var s := FlushWal(w, syncFails);
    if s.result.Err? then Replayed(s.wal, Err(s.result.error))
    else
      var scanned := ScanFile(crc, w.config.maxRecordBytes, w.config.tail, s.wal.file, fault);
      var w1 := s.wal.(file := scanned.file);
      if scanned.result.Err? then Replayed(w1, Err(scanned.result.error))
      else
        var report := scanned.result.value.report;
        Replayed(w1.(lastLsn := report.lastLsn, durableThrough := report.lastLsn,
                     validLength := report.durableFileLength, unsynced := 0), scanned.result)
  }

  // ------------------------------------------------------ session invariant

  /** While unpoisoned: the file is exactly the encoding of records 1 to
      lastLsn, validLength is its length, and the unsynchronized window is the
      distance from the durable frontier and below what the policy forces to
      disk: zero under Always, less than the batch size under Batch. */
  ghost predicate Session(crc: Checksum, w: Wal, records: seq<Record>) {
    && ValidFile(w.file)
    && EncodesLog(crc, w.config.maxRecordBytes, w.file.content, records)
    && w.lastLsn == |records| && w.validLength == |w.file.content|
    && w.durableThrough <= w.lastLsn && w.unsynced == w.lastLsn - w.durableThrough
    && w.unsynced <= U32_MAX
    && match w.config.sync
       case Always => w.unsynced == 0
       case Batch(maxUnsynced) => w.unsynced < maxUnsynced
       case Manual => true
  }

  /** The records in the file, as long as it scans. */
  function Written(crc: Checksum, max: nat, content: seq<byte>): seq<Record> {
    var p := Parse(crc, max, content, 0, 0);
    if p.Failed? then [] else p.records
  }

  lemma EncodesLogParses(crc: Checksum, max: nat, file: seq<byte>, records: seq<Record>)
    requires max <= PAYLOAD_LIMIT && EncodesLog(crc, max, file, records)
    ensures Parse(crc, max, file, 0, 0) == Clean(records)
  {
    ScanInvertsEncode(crc, max, file, records);
  }

  /** One more frame, complete or cut short, behind an encoded log. */
  lemma AppendFrame(crc: Checksum, max: nat, file: seq<byte>, records: seq<Record>, r: Record, k: nat)
    requires max <= PAYLOAD_LIMIT && EncodesLog(crc, max, file, records)
    requires |r.payload| <= max && |records| < U64_MAX
    requires var frame := Frame(crc, |records| + 1, r); k <= |frame| && |file| + |frame| <= U64_MAX
    ensures var frame := Frame(crc, |records| + 1, r);
            && !Parse(crc, max, file + frame[..k], 0, 0).Failed?
            && EncodesLog(crc, max, file + frame, records + [r])
  {
    hide Frame, ParseHead;
    var frame := Frame(crc, |records| + 1, r);
    EncodeLogAppend(crc, records, [r], 1);
    assert EncodeLog(crc, [r], 1 + |records|) == frame + [];
    assert EncodesLog(crc, max, file + frame, records + [r]);
    EncodesLogParses(crc, max, file + frame, records + [r]);
    ParseCut(crc, max, file + frame, |file| + k, 0, 0);
    assert (file + frame)[..|file| + k] == file + frame[..k];
  }

  /** Opening: every successful open starts a session on the records scanned. */
  lemma OpenStartsSession(crc: Checksum, config: Config, f: File, fault: ScanFault)
    requires ValidFile(f)
    ensures var o := OpenWal(crc, config, f, fault);
            && ValidFile(o.file)
            && (o.result.Ok? ==>
                  var p := Parse(crc, config.maxRecordBytes, f.content, 0, 0);
                  !p.Failed? && Session(crc, o.result.value, p.records))
  {
    hide Frame, ParseHead, DecodeHeader;
    var max := config.maxRecordBytes;
    ScanPreserves(crc, max, config.tail, f, fault);
    match Parse(crc, max, f.content, 0, 0) {
      case Failed(_) =>
      case Clean(rs) => ScanInvertsEncode(crc, max, f.content, rs);
      case Torn(rs, offset) => TornTailExact(crc, max, f.content, rs, offset);
    }
  }

  lemma SyncKeepsSession(crc: Checksum, w: Wal, fails: bool, records: seq<Record>)
    requires !w.poisoned && Session(crc, w, records)
    ensures var s := SyncCurrent(w, fails);
            && s.wal.file.content == w.file.content && s.wal.poisoned == fails
            && (!fails ==> Session(crc, s.wal, records) && s.wal.file.synced == |w.file.content|)
  {
    hide Frame;
  }

  /** Appending keeps the session: a success adds exactly the new record, a
      refusal adds none, and whatever else happens poisons the writer. */
  lemma AppendKeepsSession(crc: Checksum, w: Wal, r: Record, fault: AppendFault, records: seq<Record>)
    requires !w.poisoned && Session(crc, w, records)
    ensures var a := AppendWal(crc, w, r, fault);
            && (a.result.Ok? ==> Session(crc, a.wal, records + [r]) && !a.wal.poisoned
                                 && a.result.value.lsn == |records| + 1)
            && (a.result.Err? ==> a.wal == w || a.wal.poisoned)
            && ValidFile(a.wal.file) && a.wal.config == w.config
            && (a.result.Err? ==> a.wal.durableThrough == w.durableThrough)
            && w.file.content <= a.wal.file.content && w.file.synced <= a.wal.file.synced
            && !Parse(crc, w.config.maxRecordBytes, a.wal.file.content, 0, 0).Failed?
  {
    hide Frame, ParseHead;
    var a := AppendWal(crc, w, r, fault);
    EncodesLogParses(crc, w.config.maxRecordBytes, w.file.content, records);
    if a.wal != w {
      var frame := Frame(crc, w.lastLsn + 1, r);
      var k := Reach(|frame|, |w.file.content|, fault.writeStopsAt);
      AppendFrame(crc, w.config.maxRecordBytes, w.file.content, records, r, k);
      assert frame[..|frame|] == frame;
    }
  }

  /** Replay keeps the session, returns exactly its records, and leaves nothing
      unsynchronized. */
  lemma ReplayReturnsSession(crc: Checksum, w: Wal, syncFails: bool, fault: ScanFault, records: seq<Record>)
    requires !w.poisoned && Session(crc, w, records)
    ensures var s := ReplayWal(crc, w, syncFails, fault);
            && s.wal.file.content == w.file.content && s.wal.config == w.config
            && w.file.synced <= s.wal.file.synced
            && s.wal.poisoned == syncFails
            && (!syncFails ==> Session(crc, s.wal, records) && s.wal.file.synced == |w.file.content|)
            && (syncFails ==> ValidFile(s.wal.file) && s.wal.durableThrough == w.durableThrough)
            && (s.result.Ok? <==>
                  !syncFails && !Interrupts(crc, w.config.maxRecordBytes, w.file.content, fault))
            && (s.result.Ok? ==> s.result.value.records == Numbered(records, 1)
                                 && s.wal.durableThrough == |records|)
  {
    hide Frame, ParseHead;
    SyncKeepsSession(crc, w, syncFails, records);
    EncodesLogParses(crc, w.config.maxRecordBytes, w.file.content, records);
  }
}

