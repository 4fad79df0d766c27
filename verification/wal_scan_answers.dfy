/** What the scan of any file answers, whatever the device does meanwhile: the file
    is whole frames, and then nothing, a torn tail, or a frame that fails a check. */
module WalScanAnswers {
  import opened Core
  import opened WalFormat
  import opened WalScan
  import opened WalDisk
  import opened WalScanner
  import opened WalSession
  import opened WalFaults

  /** A fault that strikes within the first so many reads. */
  predicate Strikes(fault: ScanFault, count: nat) {
    fault.LengthFails? || (fault.ReadFails? && fault.at < count)
  }

  /** Every whole frame takes two reads, one for its header and one for its payload. */
  lemma {:induction false} FramesRead(crc: Checksum, max: nat, records: seq<Record>, rest: seq<byte>,
                                      offset: nat, last: nat)
    requires Fits(records, max) && max <= PAYLOAD_LIMIT && last + |records| <= U64_MAX
    requires offset + |EncodeLog(crc, records, last + 1)| <= U64_MAX
    ensures var log := EncodeLog(crc, records, last + 1);
            Reads(crc, max, log + rest, offset, last)
              == 2 * |records| + Reads(crc, max, rest, offset + |log|, last + |records|)
  {
    hide ParseHead, Frame, FrameReads;
    var log := EncodeLog(crc, records, last + 1);
    if records == [] {
      assert log + rest == rest;
    } else {
      var f := Frame(crc, last + 1, records[0]);
      var log' := EncodeLog(crc, records[1..], last + 2);
      assert log + rest == f + (log' + rest);
      HeadOfFrame(crc, max, records[0], log' + rest, offset, last);
      WholeTakesTwo(crc, max, log + rest, offset, last);
      assert (log + rest)[|f|..] == log' + rest;
      FramesRead(crc, max, records[1..], rest, offset + |f|, last + 1);
    }
  }

  lemma WholeTakesTwo(crc: Checksum, max: nat, bytes: seq<byte>, offset: nat, last: nat)
    requires bytes != [] && ParseHead(crc, max, bytes, offset, last).Whole?
    ensures FrameReads(crc, max, bytes, offset, last) == 2
  {
  }

  lemma TornTakesOne(crc: Checksum, max: nat, bytes: seq<byte>, offset: nat, last: nat)
    requires bytes != [] && ParseHead(crc, max, bytes, offset, last).Incomplete?
    ensures FrameReads(crc, max, bytes, offset, last) == if |bytes| < HEADER_LEN then 0 else 1
  {
  }

  /** The payload is read only behind a header without fault, within the limits. */
  lemma FaultTakes(crc: Checksum, max: nat, bytes: seq<byte>, offset: nat, last: nat, k: nat)
    requires |bytes| >= HEADER_LEN && FirstFailure(Checks(crc, max, bytes, offset, last), k)
    ensures FrameReads(crc, max, bytes, offset, last) == if k < 9 then 1 else 2
  {
    hide DecodeHeader, HeaderChecks, BE.Decode;
    var h := bytes[..HEADER_LEN];
    var checks, header := Checks(crc, max, bytes, offset, last), HeaderChecks(crc, h, offset, last);
    assert forall i | 0 <= i < 7 :: checks[i] == header[i];
    if k < 7 {
      HeaderFault(crc, h, offset, last, k);
    } else {
      assert forall i | 0 <= i < 7 :: checks[i].passes;
      HeaderPasses(crc, h, offset, last);
      var limits := LimitChecks(h, max, offset, last);
      assert checks[7] == limits[0] && checks[8] == limits[1];
      if k > 8 {
        assert checks[7].passes && checks[8].passes;
      }
    }
  }

  /** A clean file: its records, unless a fault strikes within its reads. */
  lemma CleanAnswers(crc: Checksum, max: nat, tail: TailRepair, f: File, fault: ScanFault, records: seq<Record>)
    requires max <= PAYLOAD_LIMIT && EncodesLog(crc, max, f.content, records)
    ensures ScanFile(crc, max, tail, f, fault)
         == Scanned(f, if Strikes(fault, 2 * |records|) then Err(Io)
                       else Ok(Replay(Numbered(records, 1), Report(|records|, |records|, |f.content|, None))))
  {
    hide Parse, Reads, Numbered, Frame;
    ScanInvertsEncode(crc, max, f.content, records);
    FramesRead(crc, max, records, [], 0, 0);
    assert f.content + [] == f.content;
    NothingToRead(crc, max, |f.content|, |records|);
  }

  lemma NothingToRead(crc: Checksum, max: nat, offset: nat, last: nat)
    ensures Reads(crc, max, [], offset, last) == 0
  {
  }

  /** A torn file: refused with its exact extent under Reject; under Truncate cut to
      its whole frames, synchronized, and reported so, unless the cut or its
      synchronization fails. */
  lemma TornAnswers(crc: Checksum, max: nat, tail: TailRepair, f: File, fault: ScanFault,
                    records: seq<Record>, offset: nat)
    requires max <= PAYLOAD_LIMIT && offset <= |f.content| && EncodesLog(crc, max, f.content[..offset], records)
    requires IsTornTail(crc, max, f.content[offset..], offset)
    ensures var s := ScanFile(crc, max, tail, f, fault);
            var length, whole := |f.content|, f.content[..offset];
            var stopped := Strikes(fault, 2 * |records| + if length - offset < HEADER_LEN then 0 else 1);
            && (stopped ==> s == Scanned(f, Err(Io)))
            && (!stopped && tail.Reject? ==> s == Scanned(f, Err(TornTail(offset, length, |records|))))
            && (!stopped && tail.Truncate? ==>
                  && s.file.content == (if fault.TruncateFails? then f.content else whole)
                  && s.file.synced == (if fault.TruncateFails? then f.synced
                                       else if fault.RepairSyncFails? && f.synced < offset then f.synced else offset)
                  && s.result == if fault.TruncateFails? || fault.RepairSyncFails? then Err(Io)
                                 else Ok(Replay(Numbered(records, 1),
                                                Report(|records|, |records|, offset,
                                                       Some(Repair(offset, length - offset, |records|))))))
  {
    hide Parse, Reads, IsTornTail, EncodesLog, Numbered;
    TornTailExact(crc, max, f.content, records, offset);
    ReadsOfTornFile(crc, max, f.content, records, offset);
    NumberedLength(records);
  }

  lemma NumberedLength(records: seq<Record>)
    ensures |Numbered(records, 1)| == |records|
  {
  }

  lemma ReadsOfTornFile(crc: Checksum, max: nat, file: seq<byte>, records: seq<Record>, offset: nat)
    requires max <= PAYLOAD_LIMIT && offset <= |file| && EncodesLog(crc, max, file[..offset], records)
    requires IsTornTail(crc, max, file[offset..], offset)
    ensures Reads(crc, max, file, 0, 0) == 2 * |records| + if |file| - offset < HEADER_LEN then 0 else 1
  {
    hide Parse, Reads, IsTornTail, EncodeLog;
    var rest := file[offset..];
    FramesRead(crc, max, records, rest, 0, 0);
    assert file[..offset] + rest == file;
    ReadsOfTorn(crc, max, rest, offset, |records|);
  }

  lemma ReadsOfTorn(crc: Checksum, max: nat, bytes: seq<byte>, offset: nat, last: nat)
    requires IsTornTail(crc, max, bytes, offset)
    ensures Reads(crc, max, bytes, offset, last) == if |bytes| < HEADER_LEN then 0 else 1
  {
    hide ParseHead, FrameReads;
    HeadTorn(crc, max, bytes, offset, last);
    TornTakesOne(crc, max, bytes, offset, last);
  }

  /** A file with a faulty frame: untouched, and the first failing check of that
      frame is the answer, unless a fault strikes before it is reached. */
  lemma FaultyAnswers(crc: Checksum, max: nat, tail: TailRepair, f: File, fault: ScanFault,
                      records: seq<Record>, rest: seq<byte>, k: nat)
    requires max <= PAYLOAD_LIMIT && Fits(records, max) && |records| <= U64_MAX
    requires |EncodeLog(crc, records, 1)| <= U64_MAX && |rest| >= HEADER_LEN
    requires f.content == EncodeLog(crc, records, 1) + rest
    requires FirstFailure(Checks(crc, max, rest, |EncodeLog(crc, records, 1)|, |records|), k)
    ensures var checks := Checks(crc, max, rest, |EncodeLog(crc, records, 1)|, |records|);
            var count := 2 * |records| + if k < 9 then 1 else 2;
            ScanFile(crc, max, tail, f, fault)
              == Scanned(f, Err(if Strikes(fault, count) then Io else checks[k].error))
  {
    hide ParseHead, FrameReads, Checks, EncodeLog;
    var offset := |EncodeLog(crc, records, 1)|;
    HeadFault(crc, max, rest, offset, |records|, k);
    FaultTakes(crc, max, rest, offset, |records|, k);
    ParseEncoded(crc, max, records, rest, 0, 0);
    FramesRead(crc, max, records, rest, 0, 0);
  }

  /** Nothing prevents the scan. */
  predicate Unhindered(setup: Setup) {
    setup.available && !setup.locked && !(setup.created && setup.syncFails)
  }

  /** Opening refuses a faulty file with that answer, and leaves it untouched. */
  lemma OpenRefusesFault(crc: Checksum, config: Config, f: File, setup: Setup, fault: ScanFault,
                         records: seq<Record>, rest: seq<byte>, k: nat)
    requires config.maxRecordBytes <= PAYLOAD_LIMIT && Fits(records, config.maxRecordBytes) && |records| <= U64_MAX
    requires |EncodeLog(crc, records, 1)| <= U64_MAX && |rest| >= HEADER_LEN
    requires f.content == EncodeLog(crc, records, 1) + rest && Unhindered(setup)
    requires FirstFailure(Checks(crc, config.maxRecordBytes, rest, |EncodeLog(crc, records, 1)|, |records|), k)
    ensures var checks := Checks(crc, config.maxRecordBytes, rest, |EncodeLog(crc, records, 1)|, |records|);
            var struck := Strikes(fault, 2 * |records| + if k < 9 then 1 else 2);
            OpenLog(crc, config, f, setup, fault) == Opened(f, Err(if struck then Io else checks[k].error))
  {
    hide ScanFile, Checks, EncodeLog;
    FaultyAnswers(crc, config.maxRecordBytes, config.tail, f, fault, records, rest, k);
  }

  /** Under Reject it refuses a torn file, with its exact extent, and leaves it
      untouched; under Truncate it fails only if a fault strikes or the repair
      fails. */
  lemma OpenOfTorn(crc: Checksum, config: Config, f: File, setup: Setup, fault: ScanFault,
                   records: seq<Record>, offset: nat)
    requires config.maxRecordBytes <= PAYLOAD_LIMIT && offset <= |f.content| && Unhindered(setup)
    requires EncodesLog(crc, config.maxRecordBytes, f.content[..offset], records)
    requires IsTornTail(crc, config.maxRecordBytes, f.content[offset..], offset)
    ensures var o, length := OpenLog(crc, config, f, setup, fault), |f.content|;
            var struck := Strikes(fault, 2 * |records| + if length - offset < HEADER_LEN then 0 else 1);
            && (struck ==> o == Opened(f, Err(Io)))
            && (!struck && config.tail.Reject? ==> o == Opened(f, Err(TornTail(offset, length, |records|))))
            && (!struck && config.tail.Truncate? ==>
                  o.result == if fault.TruncateFails? || fault.RepairSyncFails? then Err(Io)
                              else Ok(Wal(File(f.content[..offset], offset), config, |records|, |records|,
                                          offset, 0, false)))
  {
    hide ScanFile, EncodesLog, IsTornTail, Numbered;
    TornAnswers(crc, config.maxRecordBytes, config.tail, f, fault, records, offset);
  }
}
