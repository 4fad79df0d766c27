/** The scanning loop and the torn-tail repair over an actual file. */
module WalScanner {
  import opened Core
  import opened WalFormat
  import opened WalScan
  import opened WalDisk

  datatype TailRepair = Reject | Truncate

  datatype Repair = Repair(offset: nat, bytesRemoved: nat, lastValidLsn: nat)

  datatype Report = Report(recordCount: nat, lastLsn: nat, durableFileLength: nat, repair: Option<Repair>)

  datatype Replay = Replay(records: seq<WalRecord>, report: Report)

  /** Where the device fails during a scan, if anywhere: on the file length or
      the first seek, on a numbered read, or during the repair. */
  datatype ScanFault = NoFault | LengthFails | ReadFails(at: nat) | TruncateFails | RepairSyncFails

  /** Whether the fault strikes before the scan has come to a result of its own:
      a read it would only have performed later never fails. */
  predicate Interrupts(crc: Checksum, max: nat, content: seq<byte>, fault: ScanFault) {
    fault.LengthFails? || (fault.ReadFails? && fault.at < Reads(crc, max, content, 0, 0))
  }

  /** The file and the result after a scan. */
  datatype Scanned = Scanned(file: File, result: Result<Replay, WalError>)

  /** Torn-tail repair: under Truncate the file is cut to the whole frames and
      synchronized; under Reject no byte changes. */
  function FinishTornTail(records: seq<WalRecord>, offset: nat, tail: TailRepair, f: File, fault: ScanFault): Scanned
    requires offset <= |f.content|
  {
    match tail
    case Reject => Scanned(f, Err(TornTail(offset, |f.content|, |records|)))
    case Truncate =>
      if fault.TruncateFails? then Scanned(f, Err(Io))
      else if fault.RepairSyncFails? then
        Scanned(File(f.content[..offset], Min(f.synced, offset)), Err(Io))
      else
        var repair := Repair(offset, |f.content| - offset, |records|);
        Scanned(File(f.content[..offset], offset),
                Ok(Replay(records, Report(|records|, |records|, offset, Some(repair)))))
  }

  function ScanFile(crc: Checksum, max: nat, tail: TailRepair, f: File, fault: ScanFault): Scanned {
    if Interrupts(crc, max, f.content, fault) then Scanned(f, Err(Io))
    else
      match Parse(crc, max, f.content, 0, 0)
      case Failed(e) => Scanned(f, Err(e))
      case Clean(rs) =>
        Scanned(f, Ok(Replay(Numbered(rs, 1), Report(|rs|, |rs|, |f.content|, None))))
      case Torn(rs, offset) =>
        EncodeParsed(crc, max, f.content, 0, 0);
        FinishTornTail(Numbered(rs, 1), offset, tail, f, fault)
  }

  /** The repair step of the scanner. */
  method RepairTail(records: seq<WalRecord>, offset: nat, tail: TailRepair, disk: Disk, fault: ScanFault)
    returns (r: Result<Replay, WalError>)
    requires offset <= |disk.content|
    modifies disk
    ensures Scanned(disk.State(), r) == FinishTornTail(records, offset, tail, old(disk.State()), fault)
  {
    var fileLength := |disk.content|;
    match tail
    case Reject =>
      r := Err(TornTail(offset, fileLength, |records|));
    case Truncate =>
      if fault == TruncateFails {
        return Err(Io);
      }
      disk.SetLen(offset);
      var ok := disk.SyncData(fault == RepairSyncFails);
      if !ok {
        return Err(Io);
      }
      var repair := Repair(offset, fileLength - offset, |records|);
      r := Ok(Replay(records, Report(|records|, |records|, offset, Some(repair))));
  }

  /** One turn of the loop: reads and validates the frame at an offset, given
      the number of reads before it.  There is no head when a read fails. */
  method ReadFrame(crc: Checksum, max: nat, disk: Disk, offset: nat, last: nat, used: nat, fault: ScanFault)
    returns (head: Option<Head>, total: nat)
    requires offset < |disk.content| && (fault.ReadFails? ==> used <= fault.at)
    ensures var count := FrameReads(crc, max, disk.content[offset..], offset, last);
            && head == (if fault.ReadFails? && fault.at < used + count then None
                        else Some(ParseHead(crc, max, disk.content[offset..], offset, last)))
            && (head.Some? ==> total == used + count)
  {
    hide DecodeHeader;
    var fileLength := |disk.content|;
    ghost var rest := disk.content[offset..];
    var remaining := fileLength - offset;
    total := used;
    if remaining < HEADER_LEN {
      return Some(Incomplete), total;
    }
    if fault == ReadFails(total) {
      return None, total;
    }
    total := total + 1;
    var header := disk.content[offset..offset + HEADER_LEN];
    assert header == rest[..HEADER_LEN];
    var decoded := DecodeHeader(crc, header, offset, last);
    if decoded.Err? {
      return Some(Bad(decoded.error)), total;
    }
    var d := decoded.value;
    if d.payloadLen > max {
      return Some(Bad(OnDiskRecordTooLarge(offset, d.payloadLen, max))), total;
    }
    if offset + d.totalFrameLen > U64_MAX {
      return Some(Bad(Corruption(offset, last, LengthMismatch))), total;
    }
    var frameEnd := offset + d.totalFrameLen;
    if frameEnd > fileLength {
      return Some(Incomplete), total;
    }
    EncodeDecodedHeader(crc, header, offset, last);
    if fault == ReadFails(total) {
      return None, total;
    }
    total := total + 1;
    var payload := disk.content[offset + HEADER_LEN..frameEnd];
    assert payload == rest[HEADER_LEN..d.totalFrameLen];
    if crc(payload) != d.payloadCrc {
      return Some(Bad(Corruption(offset, last, PayloadChecksum))), total;
    }
    var lsn := ValidateLsn(d.lsn, last, offset);
    if lsn.Err? {
      return Some(Bad(lsn.error)), total;
    }
    head := Some(Whole(Record(d.kind, d.schema, payload), d.totalFrameLen));
  }

  /** The strict scanning loop. */
  method Scan(crc: Checksum, max: nat, tail: TailRepair, disk: Disk, fault: ScanFault)
    returns (r: Result<Replay, WalError>)
    modifies disk
    ensures Scanned(disk.State(), r) == ScanFile(crc, max, tail, old(disk.State()), fault)
  {
    hide ParseHead, FrameReads;
    if fault == LengthFails {
      return Err(Io);
    }
    var fileLength := |disk.content|;
    var offset, last, used: nat := 0, 0, 0;
    var records: seq<WalRecord> := [];
    ghost var accepted: seq<Record> := [];
    assert disk.content[0..] == disk.content;
    ContinueNothing(Parse(crc, max, disk.content, 0, 0));
    while offset < fileLength
      invariant offset <= fileLength && last == |accepted| && records == Numbered(accepted, 1)
      invariant disk.State() == old(disk.State())
      invariant Parse(crc, max, disk.content, 0, 0)
             == Continue(accepted, Parse(crc, max, disk.content[offset..], offset, last))
      invariant Reads(crc, max, disk.content, 0, 0)
             == used + Reads(crc, max, disk.content[offset..], offset, last)
      invariant fault.ReadFails? ==> used <= fault.at
    {
      assert accepted + [] == accepted;
      var head;
      head, used := ReadFrame(crc, max, disk, offset, last, used, fault);
      match head {
        case None =>
          return Err(Io);
        case Some(Incomplete) =>
          r := RepairTail(records, offset, tail, disk, fault);
          return;
        case Some(Bad(e)) =>
          return Err(e);
        case Some(Whole(record, length)) =>
          assert disk.content[offset..][length..] == disk.content[offset + length..];
          ContinueTwice(accepted, [record],
                        Parse(crc, max, disk.content[offset + length..], offset + length, last + 1));
          last := last + 1;
          records := records + [WalRecord(last, record)];
          offset := offset + length;
          accepted := accepted + [record];
      }
    }
    assert disk.content[offset..] == [] && accepted + [] == accepted;
    r := Ok(Replay(records, Report(last, last, fileLength, None)));
  }

  /** Torn-tail repair is exact.  Truncate leaves the encoding of the records
      it returns, synchronized, and a second scan finds the same records with
      nothing to repair; the bytes dropped hold no complete frame. */
  lemma TruncateKeepsWholeFrames(crc: Checksum, max: nat, f: File, records: seq<Record>, offset: nat)
    requires max <= PAYLOAD_LIMIT
    requires Parse(crc, max, f.content, 0, 0) == Torn(records, offset)
    ensures offset < |f.content|
    ensures var s := ScanFile(crc, max, Truncate, f, NoFault);
            && s.file == File(f.content[..offset], offset)
            && EncodesLog(crc, max, s.file.content, records)
            && s.result == Ok(Replay(Numbered(records, 1), Report(|records|, |records|, offset,
                 Some(Repair(offset, |f.content| - offset, |records|)))))
    ensures ScanFile(crc, max, Truncate, File(f.content[..offset], offset), NoFault)
         == Scanned(File(f.content[..offset], offset),
                    Ok(Replay(Numbered(records, 1), Report(|records|, |records|, offset, None))))
    ensures IsTornTail(crc, max, f.content[offset..], offset)
  {
    hide ParseHead, Frame, DecodeHeader;
    TornTailExact(crc, max, f.content, records, offset);
    EncodeParsed(crc, max, f.content, 0, 0);
    ScanInvertsEncode(crc, max, f.content[..offset], records);
  }

  /** Whatever the policy and the device do, a scan never changes a byte of the
      whole frames, and changes nothing at all unless it repairs. */
  lemma ScanPreserves(crc: Checksum, max: nat, tail: TailRepair, f: File, fault: ScanFault)
    requires ValidFile(f)
    ensures var s := ScanFile(crc, max, tail, f, fault);
            && ValidFile(s.file)
            && (s.file == f
                || (var p := Parse(crc, max, f.content, 0, 0);
                    tail.Truncate? && p.Torn? && p.offset <= |f.content|
                    && s.file.content == f.content[..p.offset]))
            && (s.result.Err? ==> s.file.synced <= f.synced)
  {
    hide ParseHead, Frame, IsTornTail;
    EncodeParsedIfScanned(crc, max, f.content);
  }

  lemma EncodeParsedIfScanned(crc: Checksum, max: nat, content: seq<byte>)
    ensures var p := Parse(crc, max, content, 0, 0);
            p.Torn? ==> p.offset <= |content|
  {
    hide ParseHead, Frame, IsTornTail;
    if !Parse(crc, max, content, 0, 0).Failed? {
      EncodeParsed(crc, max, content, 0, 0);
    }
  }
}
