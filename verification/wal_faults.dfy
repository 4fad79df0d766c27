/** Which error a scan reports: the first check that fails, at the first frame
    that is not whole and valid. */
module WalFaults {
  import opened Core
  import opened WalFormat
  import opened WalScan

  /** A check on the frame at the head of the remaining bytes, and its error. */
  datatype Check = Check(passes: bool, error: WalError)

  /** The checks on a frame header, in order. */
  function HeaderChecks(crc: Checksum, h: seq<byte>, offset: nat, last: nat): (checks: seq<Check>)
    requires |h| == HEADER_LEN
    ensures |checks| == 7
  {
    var version, length, flags := ReadU16(h, 4), ReadU16(h, 6), ReadU32(h, 12);
    var total, payload := ReadU32(h, 8), ReadU32(h, 28);
    [ Check(h[..4] == [0x49, 0x43, 0x57, 0x4C], Corruption(offset, last, BadMagic)),
      Check(ReadU32(h, 36) == crc(h[..36]), Corruption(offset, last, HeaderChecksum)),
      Check(version == 1, UnsupportedFormat(offset, FormatVersion, version)),
      Check(length == 40, UnsupportedFormat(offset, HeaderLength, length)),
      Check(flags == 0, UnsupportedFormat(offset, Flags, flags)),
      Check(total == 40 + payload && total <= U32_MAX, Corruption(offset, last, LengthMismatch)),
      Check(ReadU16(h, 24) > 0 && ReadU16(h, 26) > 0, Corruption(offset, last, ZeroRecordMetadata)) ]
  }

  /** The checks against the reader's limit and the file offset. */
  function LimitChecks(h: seq<byte>, max: nat, offset: nat, last: nat): (checks: seq<Check>)
    requires |h| == HEADER_LEN
    ensures |checks| == 2
  {
    var total, payload := ReadU32(h, 8), ReadU32(h, 28);
    [ Check(payload <= max, OnDiskRecordTooLarge(offset, payload, max)),
      Check(offset + total <= U64_MAX, Corruption(offset, last, LengthMismatch)) ]
  }

  /** The checks on the payload and the sequence number of a frame that fits. */
  function PayloadChecks(crc: Checksum, bytes: seq<byte>, offset: nat, last: nat): (checks: seq<Check>)
    requires |bytes| >= HEADER_LEN && HEADER_LEN <= ReadU32(bytes[..HEADER_LEN], 8) <= |bytes|
    ensures |checks| == 3
  {
    var h := bytes[..HEADER_LEN];
    var payload, lsn := bytes[HEADER_LEN..ReadU32(h, 8)], ReadU64(h, 16);
    [ Check(crc(payload) == ReadU32(h, 32), Corruption(offset, last, PayloadChecksum)),
      Check(last != U64_MAX, LsnExhausted),
      Check(lsn == last + 1, Corruption(offset, last, LsnSequence(last + 1, lsn))) ]
  }

  /** Check k is the first that does not pass. */
  predicate FirstFailure(checks: seq<Check>, k: nat) {
    k < |checks| && !checks[k].passes && forall i | 0 <= i < k :: checks[i].passes
  }

  predicate AllPass(checks: seq<Check>) {
    forall i | 0 <= i < |checks| :: checks[i].passes
  }

  /** The frame's checks, the payload's only when the frame lies in the file. */
  function Checks(crc: Checksum, max: nat, bytes: seq<byte>, offset: nat, last: nat): seq<Check>
    requires |bytes| >= HEADER_LEN
  {
    var h := bytes[..HEADER_LEN];
    HeaderChecks(crc, h, offset, last) + LimitChecks(h, max, offset, last)
    + if HEADER_LEN <= ReadU32(h, 8) <= |bytes| then PayloadChecks(crc, bytes, offset, last) else []
  }

  lemma ReadsInRange(h: seq<byte>)
    requires |h| == HEADER_LEN
    ensures ReadU32(h, 8) <= U32_MAX && ReadU32(h, 28) <= U32_MAX
    ensures h[0..4] == h[..4] && h[0..36] == h[..36]
  {
    BE.Widths();
  }

  lemma HeaderFault(crc: Checksum, h: seq<byte>, offset: nat, last: nat, k: nat)
    requires |h| == HEADER_LEN && FirstFailure(HeaderChecks(crc, h, offset, last), k)
    ensures DecodeHeader(crc, h, offset, last) == Err(HeaderChecks(crc, h, offset, last)[k].error)
  {
    hide BE.Decode;
    ReadsInRange(h);
    var checks := HeaderChecks(crc, h, offset, last);
    assert k > 0 ==> checks[0].passes;
    assert k > 1 ==> checks[1].passes;
    assert k > 2 ==> checks[2].passes;
    assert k > 3 ==> checks[3].passes;
    assert k > 4 ==> checks[4].passes;
    assert k > 5 ==> checks[5].passes;
  }

  lemma HeaderPasses(crc: Checksum, h: seq<byte>, offset: nat, last: nat)
    requires |h| == HEADER_LEN && AllPass(HeaderChecks(crc, h, offset, last))
    ensures var d := DecodeHeader(crc, h, offset, last);
            d.Ok? && d.value.totalFrameLen == ReadU32(h, 8) && d.value.payloadLen == ReadU32(h, 28)
            && d.value.totalFrameLen == HEADER_LEN + d.value.payloadLen
            && d.value.lsn == ReadU64(h, 16) && d.value.payloadCrc == ReadU32(h, 32)
            && d.value.kind == ReadU16(h, 24) && d.value.schema == ReadU16(h, 26)
  {
    hide BE.Decode;
    ReadsInRange(h);
    var checks := HeaderChecks(crc, h, offset, last);
    assert checks[0].passes && checks[1].passes && checks[2].passes && checks[3].passes
      && checks[4].passes && checks[5].passes && checks[6].passes;
  }

  /** A head is reported bad with the error of the first check that fails. */
  lemma HeadFault(crc: Checksum, max: nat, bytes: seq<byte>, offset: nat, last: nat, k: nat)
    requires |bytes| >= HEADER_LEN && FirstFailure(Checks(crc, max, bytes, offset, last), k)
    ensures ParseHead(crc, max, bytes, offset, last) == Bad(Checks(crc, max, bytes, offset, last)[k].error)
  {
    hide DecodeHeader, HeaderChecks, BE.Decode;
    var h := bytes[..HEADER_LEN];
    var checks := Checks(crc, max, bytes, offset, last);
    var header := HeaderChecks(crc, h, offset, last);
    assert forall i | 0 <= i < 7 :: checks[i] == header[i];
    if k < 7 {
      HeaderFault(crc, h, offset, last, k);
    } else {
      assert forall i | 0 <= i < 7 :: checks[i].passes;
      HeaderPasses(crc, h, offset, last);
      var limits := LimitChecks(h, max, offset, last);
      assert checks[7] == limits[0] && checks[8] == limits[1];
      if k > 8 {
        assert checks[7].passes && checks[8].passes;
        var payload := PayloadChecks(crc, bytes, offset, last);
        assert checks == header + limits + payload;
        assert checks[9] == payload[0] && checks[10] == payload[1] && checks[11] == payload[2];
        PayloadFault(crc, max, bytes, offset, last, k - 9);
      }
    }
  }

  lemma PayloadFault(crc: Checksum, max: nat, bytes: seq<byte>, offset: nat, last: nat, k: nat)
    requires |bytes| >= HEADER_LEN && HEADER_LEN <= ReadU32(bytes[..HEADER_LEN], 8) <= |bytes|
    requires AllPass(HeaderChecks(crc, bytes[..HEADER_LEN], offset, last))
    requires AllPass(LimitChecks(bytes[..HEADER_LEN], max, offset, last))
    requires FirstFailure(PayloadChecks(crc, bytes, offset, last), k)
    ensures ParseHead(crc, max, bytes, offset, last) == Bad(PayloadChecks(crc, bytes, offset, last)[k].error)
  {
    hide DecodeHeader, HeaderChecks, BE.Decode;
    HeaderPasses(crc, bytes[..HEADER_LEN], offset, last);
    var limits, checks := LimitChecks(bytes[..HEADER_LEN], max, offset, last), PayloadChecks(crc, bytes, offset, last);
    assert limits[0].passes && limits[1].passes;
    if k == 0 {
      assert !checks[0].passes;
    } else if k == 1 {
      assert checks[0].passes && !checks[1].passes;
    } else {
      assert checks[0].passes && checks[1].passes && !checks[2].passes;
    }
  }

  /** When every check passes, the frame is whole, or reaches past the end. */
  lemma HeadPasses(crc: Checksum, max: nat, bytes: seq<byte>, offset: nat, last: nat)
    requires |bytes| >= HEADER_LEN && AllPass(Checks(crc, max, bytes, offset, last))
    ensures !ParseHead(crc, max, bytes, offset, last).Bad?
  {
    hide DecodeHeader, HeaderChecks, BE.Decode;
    var checks := Checks(crc, max, bytes, offset, last);
    assert forall i | 0 <= i < 7 :: checks[i] == HeaderChecks(crc, bytes[..HEADER_LEN], offset, last)[i];
    HeaderPasses(crc, bytes[..HEADER_LEN], offset, last);
    assert checks[7].passes && checks[8].passes;
    var limits := LimitChecks(bytes[..HEADER_LEN], max, offset, last);
    assert checks[7] == limits[0] && checks[8] == limits[1];
    assert |checks| > 9 ==> checks[9].passes && checks[10].passes && checks[11].passes;
  }

  lemma SomeFirstFailure(checks: seq<Check>) returns (k: nat)
    requires !AllPass(checks)
    ensures FirstFailure(checks, k)
  {
    k := 0;
    while k < |checks| && checks[k].passes
      invariant k <= |checks| && forall i | 0 <= i < k :: checks[i].passes
    {
      k := k + 1;
    }
  }

  /** e is the error of the first check that does not pass. */
  ghost predicate FirstError(checks: seq<Check>, e: WalError) {
    exists k: nat :: FirstFailure(checks, k) && checks[k].error == e
  }

  /** The scan of some bytes fails with e after `records`: these are whole frames,
      and the first check that fails on what follows gives e. */
  ghost predicate FailsAfter(crc: Checksum, max: nat, bytes: seq<byte>, offset: nat, last: nat,
                             records: seq<Record>, e: WalError) {
    var log := EncodeLog(crc, records, last + 1);
    && Fits(records, max) && last + |records| <= U64_MAX && offset + |log| <= U64_MAX && log <= bytes
    && |bytes| >= |log| + HEADER_LEN
    && FirstError(Checks(crc, max, bytes[|log|..], offset + |log|, last + |records|), e)
  }

  lemma BadHeadFails(crc: Checksum, max: nat, bytes: seq<byte>, offset: nat, last: nat)
    requires bytes != [] && ParseHead(crc, max, bytes, offset, last).Bad? && offset <= U64_MAX && last <= U64_MAX
    ensures FailsAfter(crc, max, bytes, offset, last, [], ParseHead(crc, max, bytes, offset, last).error)
  {
    hide DecodeHeader, Checks, Frame;
    if AllPass(Checks(crc, max, bytes, offset, last)) {
      HeadPasses(crc, max, bytes, offset, last);
    } else {
      var k := SomeFirstFailure(Checks(crc, max, bytes, offset, last));
      HeadFault(crc, max, bytes, offset, last, k);
      assert bytes[0..] == bytes;
    }
  }

  lemma FailsAfterFrame(crc: Checksum, max: nat, f: seq<byte>, r: Record, rest: seq<byte>,
                        offset: nat, last: nat, records: seq<Record>, e: WalError)
    requires f == Frame(crc, last + 1, r) && |r.payload| <= max
    requires FailsAfter(crc, max, rest, offset + |f|, last + 1, records, e)
    ensures FailsAfter(crc, max, f + rest, offset, last, [r] + records, e)
  {
    hide Frame, Checks;
    assert ([r] + records)[1..] == records;
    var log := EncodeLog(crc, records, last + 2);
    assert EncodeLog(crc, [r] + records, last + 1) == f + log;
    assert (f + rest)[|f + log|..] == rest[|log|..];
  }

  lemma {:induction false} FailureFound(crc: Checksum, max: nat, bytes: seq<byte>, offset: nat, last: nat)
    returns (records: seq<Record>)
    requires Parse(crc, max, bytes, offset, last).Failed? && offset <= U64_MAX && last <= U64_MAX
    ensures FailsAfter(crc, max, bytes, offset, last, records, Parse(crc, max, bytes, offset, last).error)
    decreases |bytes|
  {
    hide ParseHead, Frame, FailsAfter;
    var head := ParseHead(crc, max, bytes, offset, last);
    if head.Bad? {
      records := [];
      BadHeadFails(crc, max, bytes, offset, last);
    } else {
      FrameOfHead(crc, max, bytes, offset, last);
      var f, rest := bytes[..head.length], bytes[head.length..];
      var later := FailureFound(crc, max, rest, offset + head.length, last + 1);
      records := [head.record] + later;
      FailsAfterFrame(crc, max, f, head.record, rest, offset, last, later,
                      Parse(crc, max, rest, offset + head.length, last + 1).error);
      assert f + rest == bytes;
    }
  }

  /** Scan errors are exact: a scan fails with an error if and only if the file is
      some whole frames and then a frame whose first failing check has that error;
      the offset and last sequence number it names are those of the frames. */
  lemma ScanFailsExactly(crc: Checksum, max: nat, file: seq<byte>, e: WalError)
    requires max <= PAYLOAD_LIMIT
    ensures Parse(crc, max, file, 0, 0) == Failed(e) <==> exists records :: FailsAfter(crc, max, file, 0, 0, records, e)
  {
    hide ParseHead, Frame, Checks;
    if Parse(crc, max, file, 0, 0) == Failed(e) {
      var records := FailureFound(crc, max, file, 0, 0);
    }
    if records :| FailsAfter(crc, max, file, 0, 0, records, e) {
      var log := EncodeLog(crc, records, 1);
      var rest := file[|log|..];
      assert file == log + rest;
      ParseEncoded(crc, max, records, rest, 0, 0);
      var k: nat :| FirstFailure(Checks(crc, max, rest, |log|, |records|), k)
                    && Checks(crc, max, rest, |log|, |records|)[k].error == e;
      HeadFault(crc, max, rest, |log|, |records|, k);
    }
  }

  /** Encoding: refused, with the length and the largest one possible, exactly when
      the frame's length does not fit in 32 bits. */
  lemma EncodeAnswers(crc: Checksum, lsn: nat, r: Record)
    ensures var frame, tooLong := EncodeFrame(crc, lsn, r), |r.payload| + 40 > U32_MAX;
            && (frame.Err? <==> tooLong)
            && (tooLong ==> frame == Err(RecordTooLarge(|r.payload|, 4294967255)))
            && (!tooLong ==> |frame.value| == |r.payload| + 40)
  {
    hide Frame;
  }

  /** The frame of the source's own example, byte for byte, up to the checksums. */
  lemma GoldenFrame(crc: Checksum)
    ensures var payload: seq<byte> := [97, 98, 99];
            var fields: seq<byte> := [73, 67, 87, 76, 0, 1, 0, 40, 0, 0, 0, 43, 0, 0, 0, 0, 0, 0, 0, 0, 0, 0, 0, 1,
                                      4, 0, 0, 1, 0, 0, 0, 3] + BE.Encode(crc(payload), 4);
            EncodeFrame(crc, 1, Record(1024, 1, payload)) == Ok(fields + BE.Encode(crc(fields), 4) + payload)
  {
    hide BE.Encode;
    var payload: seq<byte> := [97, 98, 99];
    SmallNumbers();
    GoldenFields(Describe(crc, 1, Record(1024, 1, payload)));
  }

  lemma GoldenFields(d: DecodedHeader)
    requires d.totalFrameLen == 43 && d.lsn == 1 && d.kind == 1024 && d.schema == 1 && d.payloadLen == 3
    ensures HeaderFields(d) == [73, 67, 87, 76, 0, 1, 0, 40, 0, 0, 0, 43, 0, 0, 0, 0, 0, 0, 0, 0, 0, 0, 0, 1,
                                4, 0, 0, 1, 0, 0, 0, 3] + BE.Encode(d.payloadCrc, 4)
  {
    hide BE.Encode;
    SmallNumbers();
  }

  lemma SmallNumbers()
    ensures BE.Encode(1, 2) == [0, 1] && BE.Encode(40, 2) == [0, 40] && BE.Encode(1024, 2) == [4, 0]
    ensures BE.Encode(43, 4) == [0, 0, 0, 43] && BE.Encode(0, 4) == [0, 0, 0, 0] && BE.Encode(3, 4) == [0, 0, 0, 3]
    ensures BE.Encode(1, 8) == [0, 0, 0, 0, 0, 0, 0, 1]
  {
    Zeros();
    OneByte(1, 2);
    OneByte(40, 2);
    assert BE.Encode(1024, 2) == BE.Encode(4, 1) + [0];
    assert BE.Encode(4, 1) == BE.Encode(0, 0) + [4];
    OneByte(43, 4);
    OneByte(3, 4);
    OneByte(1, 8);
  }

  lemma OneByte(value: nat, width: nat)
    requires value < 256 && width > 0
    ensures BE.Encode(value, width) == BE.Encode(0, width - 1) + [value]
  {
    assert value / 256 == 0;
  }

  lemma Zeros()
    ensures BE.Encode(0, 1) == [0] && BE.Encode(0, 3) == [0, 0, 0] && BE.Encode(0, 4) == [0, 0, 0, 0]
    ensures BE.Encode(0, 7) == [0, 0, 0, 0, 0, 0, 0]
  {
    assert BE.Encode(0, 1) == BE.Encode(0, 0) + [0];
    assert BE.Encode(0, 2) == BE.Encode(0, 1) + [0];
    assert BE.Encode(0, 3) == BE.Encode(0, 2) + [0];
    assert BE.Encode(0, 4) == BE.Encode(0, 3) + [0];
    assert BE.Encode(0, 5) == BE.Encode(0, 4) + [0];
    assert BE.Encode(0, 6) == BE.Encode(0, 5) + [0];
    assert BE.Encode(0, 7) == BE.Encode(0, 6) + [0];
  }
}
