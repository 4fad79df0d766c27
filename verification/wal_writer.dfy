/** The mutable log writer. */
module WalWriter {
  import opened Core
  import opened WalFormat
  import opened WalScan
  import opened WalDisk
  import opened WalScanner
  import opened WalSession

  class FileWal {
    const crc: Checksum
    const config: Config
    const file: Disk
    var lastLsn: nat
    var durableThrough: nat
    var validLength: nat
    var unsynced: nat
    var poisoned: bool

    ghost function State(): Wal
      reads this, file
    {
      Wal(file.State(), config, lastLsn, durableThrough, validLength, unsynced, poisoned)
    }

    /** The records in the file. */
    ghost function Contents(): seq<Record>
      reads this, file
    {
      Written(crc, config.maxRecordBytes, file.content)
    }

    ghost predicate Valid()
      reads this, file
    {
      ValidFile(file.State()) && (!poisoned ==> Session(crc, State(), Contents()))
    }

    /** The object opened over a scanned file. */
    constructor (crc: Checksum, config: Config, file: Disk, report: Report)
      ensures this.crc == crc && this.file == file
      ensures State() == Wal(file.State(), config, report.lastLsn, report.lastLsn,
                             report.durableFileLength, 0, false)
    {
      this.crc, this.config, this.file := crc, config, file;
      lastLsn, durableThrough := report.lastLsn, report.lastLsn;
      validLength, unsynced, poisoned := report.durableFileLength, 0, false;
    }

    static method Open(crc: Checksum, config: Config, file: Disk, setup: Setup, fault: ScanFault)
      returns (r: Result<FileWal, WalError>)
      requires ValidFile(file.State()) && (setup.created ==> file.content == [])
      modifies file
      ensures r.Ok? ==> r.value.Valid() && r.value.crc == crc && r.value.file == file && fresh(r.value)
      ensures Opened(file.State(), if r.Ok? then Ok(r.value.State()) else Err(r.error))
           == OpenLog(crc, config, old(file.State()), setup, fault)
    {
      hide ParseHead, Frame;
      if !setup.available {
        return Err(Io);
      }
      if setup.locked {
        return Err(AlreadyOpen);
      }
      if setup.created {
        var ok := file.SyncData(setup.syncFails);
        if !ok {
          return Err(Io);
        }
      }
      assert file.State() == old(file.State());
      OpenStartsSession(crc, config, file.State(), fault);
      var replay := Scan(crc, config.maxRecordBytes, config.tail, file, fault);
      if replay.Err? {
        return Err(replay.error);
      }
      var wal := new FileWal(crc, config, file, replay.value.report);
      EncodesLogParses(crc, config.maxRecordBytes, file.content,
        Written(crc, config.maxRecordBytes, old(file.content)));
      r := Ok(wal);
    }

    method Append(r: Record, fault: AppendFault) returns (result: Result<AppendOutcome, WalError>)
      requires Valid()
      modifies this, file
      ensures Valid()
      ensures Appended(State(), result) == AppendWal(crc, old(State()), r, fault)
      ensures result.Ok? ==> Contents() == old(Contents()) + [r]
    {
      hide Frame, Parse, Session, Write, EncodeLog;
      if poisoned {
        return Err(Poisoned);
      }
      AppendKeepsContents(r, fault);
      var actual, maximum := |r.payload|, config.maxRecordBytes;
      if actual > maximum {
        return Err(RecordTooLarge(actual, maximum));
      }
      if lastLsn == U64_MAX {
        return Err(LsnExhausted);
      }
      var lsn := lastLsn + 1;
      var encoded := FillFrame(crc, lsn, r);
      var frame := encoded.value;
      if fault.seekFails || validLength > MAX_FILE_LENGTH {
        return Err(Io);
      }
      var ok := file.WriteAt(validLength, frame, fault.writeStopsAt);
      if !ok {
        poisoned := true;
        return Err(Io);
      }
      assert frame[..|frame|] == frame;
      // The source also checks this addition; a file never reaches 2^64 bytes.
      validLength := validLength + |frame|;
      lastLsn := lsn;
      if unsynced == U32_MAX {
        poisoned := true;
        return Err(LsnExhausted);
      }
      unsynced := unsynced + 1;
      var mustSync := MustSync(config.sync, unsynced);
      if mustSync {
        var synced := SyncNow(fault.syncFails);
        if synced.Err? {
          return Err(synced.error);
        }
      }
      result := Ok(AppendOutcome(lsn, durableThrough));
    }

    lemma AppendKeepsContents(r: Record, fault: AppendFault)
      requires Valid() && !poisoned
      ensures var a := AppendWal(crc, State(), r, fault);
              && ValidFile(a.wal.file)
              && (!a.wal.poisoned ==>
                    Session(crc, a.wal, Written(crc, config.maxRecordBytes, a.wal.file.content)))
              && (a.result.Ok? ==>
                    Written(crc, config.maxRecordBytes, a.wal.file.content) == Contents() + [r])
    {
      hide Frame, ParseHead;
      AppendKeepsSession(crc, State(), r, fault, Contents());
      var a := AppendWal(crc, State(), r, fault);
      if a.result.Ok? {
        EncodesLogParses(crc, config.maxRecordBytes, a.wal.file.content, Contents() + [r]);
      }
    }

    method Flush(syncFails: bool) returns (result: Result<nat, WalError>)
      requires Valid()
      modifies this, file
      ensures Valid()
      ensures Flushed(State(), result) == FlushWal(old(State()), syncFails)
      ensures Contents() == old(Contents())
    {
      hide ParseHead, Frame;
      if poisoned {
        return Err(Poisoned);
      }
      SyncKeepsSession(crc, State(), syncFails, Contents());
      result := SyncNow(syncFails);
    }

    method ReplayAll(syncFails: bool, fault: ScanFault) returns (result: Result<Replay, WalError>)
      requires Valid()
      modifies this, file
      ensures Valid()
      ensures Replayed(State(), result) == ReplayWal(crc, old(State()), syncFails, fault)
      ensures result.Ok? ==> result.value.records == Numbered(old(Contents()), 1)
    {
      hide ParseHead, Frame;
      if !poisoned {
        ReplayReturnsSession(crc, State(), syncFails, fault, Contents());
      }
      var flushed := Flush(syncFails);
      if flushed.Err? {
        return Err(flushed.error);
      }
      result := Scan(crc, config.maxRecordBytes, config.tail, file, fault);
      if result.Ok? {
        var report := result.value.report;
        lastLsn := report.lastLsn;
        durableThrough := report.lastLsn;
        validLength := report.durableFileLength;
        unsynced := 0;
      }
    }

    method SyncNow(fails: bool) returns (result: Result<nat, WalError>)
      modifies this, file
      ensures Flushed(State(), result) == SyncCurrent(old(State()), fails)
    {
      var ok := file.SyncData(fails);
      if !ok {
        poisoned := true;
        return Err(Io);
      }
      durableThrough := lastLsn;
      unsynced := 0;
      result := Ok(durableThrough);
    }
  }
}
