/** The strict scanner: what it accepts, what it calls a torn tail, and that it
    is the exact inverse of the encoder. */
module WalScan {
  import opened Core
  import opened WalFormat

  /** The frames of consecutive records, the first numbered `first`. */
  function EncodeLog(crc: Checksum, records: seq<Record>, first: nat): seq<byte> {
    if records == [] then []
    else Frame(crc, first, records[0]) + EncodeLog(crc, records[1..], first + 1)
  }

  function Numbered(records: seq<Record>, first: nat): seq<WalRecord> {
    seq(|records|, i requires 0 <= i < |records| => WalRecord(first + i, records[i]))
  }

  /** What scanning finds: whole frames to the end, whole frames and then an
      incomplete one starting at `offset`, or an error. */
  datatype Parsed =
    | Clean(records: seq<Record>)
    | Torn(records: seq<Record>, offset: nat)
    | Failed(error: WalError)

  /** A scan that has already accepted `before` and goes on to find p. */
  function Continue(before: seq<Record>, p: Parsed): Parsed {
    match p
    case Clean(rs) => Clean(before + rs)
    case Torn(rs, offset) => Torn(before + rs, offset)
    case Failed(_) => p
  }

  lemma ContinueNothing(p: Parsed)
    ensures Continue([], p) == p
  {
    assert !p.Failed? ==> [] + p.records == p.records;
  }

  lemma ContinueTwice(a: seq<Record>, b: seq<Record>, p: Parsed)
    ensures Continue(a, Continue(b, p)) == Continue(a + b, p)
  {
    assert !p.Failed? ==> a + (b + p.records) == a + b + p.records;
  }

  /** The outcome for one frame at the head of the remaining bytes. */
  datatype Head =
    | Whole(record: Record, length: nat)
    | Incomplete
    | Bad(error: WalError)

  function ParseHead(crc: Checksum, max: nat, bytes: seq<byte>, offset: nat, last: nat): (head: Head)
    requires bytes != []
    ensures head.Whole? ==> HEADER_LEN <= head.length <= |bytes|
    ensures head.Whole? ==> head.length == HEADER_LEN + |head.record.payload|
  {
    if |bytes| < HEADER_LEN then Incomplete
    else
      match DecodeHeader(crc, bytes[..HEADER_LEN], offset, last)
      case Err(e) => Bad(e)
      case Ok(d) =>
        if d.payloadLen > max then Bad(OnDiskRecordTooLarge(offset, d.payloadLen, max))
        else if offset + d.totalFrameLen > U64_MAX then Bad(Corruption(offset, last, LengthMismatch))
        else if d.totalFrameLen > |bytes| then Incomplete
        else
          EncodeDecodedHeader(crc, bytes[..HEADER_LEN], offset, last);
          var payload := bytes[HEADER_LEN..d.totalFrameLen];
          if crc(payload) != d.payloadCrc then Bad(Corruption(offset, last, PayloadChecksum))
          else
            match ValidateLsn(d.lsn, last, offset)
            case Err(e) => Bad(e)
            case Ok(_) => Whole(Record(d.kind, d.schema, payload), d.totalFrameLen)
  }

  /** Scanning the bytes that start at file offset `offset`, after record
      number `last`. */
  function Parse(crc: Checksum, max: nat, bytes: seq<byte>, offset: nat, last: nat): Parsed
    decreases |bytes|
  {
    if bytes == [] then Clean([])
    else
      match ParseHead(crc, max, bytes, offset, last)
      case Incomplete => Torn([], offset)
      case Bad(e) => Failed(e)
      case Whole(r, length) =>
        Continue([r], Parse(crc, max, bytes[length..], offset + length, last + 1))
  }

  /** How many reads one turn of the scan performs: the header if there is room
      for one, and the payload if the header is acceptable and the frame fits. */
  function FrameReads(crc: Checksum, max: nat, bytes: seq<byte>, offset: nat, last: nat): nat {
    if |bytes| < HEADER_LEN then 0
    else
      match DecodeHeader(crc, bytes[..HEADER_LEN], offset, last)
      case Err(_) => 1
      case Ok(d) =>
        if d.payloadLen > max || offset + d.totalFrameLen > U64_MAX || d.totalFrameLen > |bytes| then 1 else 2
  }

  /** How many reads a whole scan performs when none of them fails. */
  function Reads(crc: Checksum, max: nat, bytes: seq<byte>, offset: nat, last: nat): nat
    decreases |bytes|
  {
    if bytes == [] then 0
    else
      FrameReads(crc, max, bytes, offset, last)
      + match ParseHead(crc, max, bytes, offset, last)
        case Whole(_, length) => Reads(crc, max, bytes[length..], offset + length, last + 1)
        case _ => 0
  }

  // ---------------------------------------------------------- frame by frame

  predicate Fits(records: seq<Record>, max: nat) {
    forall r <- records :: |r.payload| <= max
  }

  /** A nonempty remainder that is shorter than a header, or whose valid header
      declares a frame reaching past the end. */
  ghost predicate IsTornTail(crc: Checksum, max: nat, tail: seq<byte>, offset: nat) {
    tail != []
    && (|tail| < HEADER_LEN
        || match DecodeHeader(crc, tail[..HEADER_LEN], 0, 0)
           case Ok(d) => d.payloadLen <= max && d.totalFrameLen > |tail|
                         && offset + d.totalFrameLen <= U64_MAX
           case Err(_) => false)
  }

  lemma HeadTorn(crc: Checksum, max: nat, bytes: seq<byte>, offset: nat, last: nat)
    requires bytes != []
    ensures ParseHead(crc, max, bytes, offset, last).Incomplete? <==> IsTornTail(crc, max, bytes, offset)
  {
  }

  /** The head of an encoded frame parses to its record. */
  lemma HeadOfFrame(crc: Checksum, max: nat, r: Record, rest: seq<byte>, offset: nat, last: nat)
    requires |r.payload| <= max && max <= PAYLOAD_LIMIT && last < U64_MAX
    requires offset + |Frame(crc, last + 1, r)| <= U64_MAX
    ensures ParseHead(crc, max, Frame(crc, last + 1, r) + rest, offset, last)
         == Whole(r, |Frame(crc, last + 1, r)|)
  {
    var d := Describe(crc, last + 1, r);
    var bytes := Frame(crc, last + 1, r) + rest;
    assert bytes[..HEADER_LEN] == Header(crc, d);
    DecodeEncodedHeader(crc, d, offset, last);
    assert bytes[HEADER_LEN..d.totalFrameLen] == r.payload;
  }

  /** A head that parses is exactly one encoded frame. */
  lemma FrameOfHead(crc: Checksum, max: nat, bytes: seq<byte>, offset: nat, last: nat)
    requires bytes != [] && ParseHead(crc, max, bytes, offset, last).Whole?
    ensures var head := ParseHead(crc, max, bytes, offset, last);
            && bytes[..head.length] == Frame(crc, last + 1, head.record)
            && |head.record.payload| <= max && |head.record.payload| <= PAYLOAD_LIMIT
            && last < U64_MAX && offset + head.length <= U64_MAX
  {
    var head := ParseHead(crc, max, bytes, offset, last);
    EncodeDecodedHeader(crc, bytes[..HEADER_LEN], offset, last);
    assert bytes[..head.length] == bytes[..HEADER_LEN] + bytes[HEADER_LEN..head.length];
  }

  // --------------------------------------------------- scanner and encoder

  /** Encoded frames in front of any remainder parse to their records. */
  lemma {:induction false} ParseEncoded(crc: Checksum, max: nat, records: seq<Record>, rest: seq<byte>,
                                        offset: nat, last: nat)
    requires Fits(records, max) && max <= PAYLOAD_LIMIT && last + |records| <= U64_MAX
    requires offset + |EncodeLog(crc, records, last + 1)| <= U64_MAX
    ensures var log := EncodeLog(crc, records, last + 1);
            Parse(crc, max, log + rest, offset, last)
              == Continue(records, Parse(crc, max, rest, offset + |log|, last + |records|))
  {
    hide ParseHead, Frame, Continue;
    var log := EncodeLog(crc, records, last + 1);
    if records == [] {
      assert log + rest == rest;
      ContinueNothing(Parse(crc, max, rest, offset, last));
    } else {
      var f := Frame(crc, last + 1, records[0]);
      var log' := EncodeLog(crc, records[1..], last + 2);
      assert log + rest == f + (log' + rest);
      HeadOfFrame(crc, max, records[0], log' + rest, offset, last);
      assert (log + rest)[|f|..] == log' + rest;
      ParseEncoded(crc, max, records[1..], rest, offset + |f|, last + 1);
      assert [records[0]] + records[1..] == records;
      ContinueTwice([records[0]], records[1..],
        Parse(crc, max, rest, offset + |f| + |log'|, last + |records|));
    }
  }

  /** The result p accounts for every byte: whole frames, then a torn tail
      exactly when p says so. */
  ghost predicate Explains(crc: Checksum, max: nat, bytes: seq<byte>, offset: nat, last: nat, p: Parsed) {
    !p.Failed? &&
    var log := EncodeLog(crc, p.records, last + 1);
    && Fits(p.records, max) && Fits(p.records, PAYLOAD_LIMIT)
    && last + |p.records| <= U64_MAX && offset + |log| <= U64_MAX
    && log <= bytes
    && (p.Clean? ==> bytes == log)
    && (p.Torn? ==> p.offset == offset + |log| && IsTornTail(crc, max, bytes[|log|..], p.offset))
  }

  lemma ExplainsFrame(crc: Checksum, max: nat, f: seq<byte>, r: Record, bytes: seq<byte>,
                      offset: nat, last: nat, p: Parsed)
    requires f == Frame(crc, last + 1, r) && |r.payload| <= max && |r.payload| <= PAYLOAD_LIMIT
    requires Explains(crc, max, bytes, offset + |f|, last + 1, p)
    ensures Explains(crc, max, f + bytes, offset, last, Continue([r], p))
  {
    hide Frame, IsTornTail;
    var q := Continue([r], p);
    assert q.records[1..] == p.records;
    var log := EncodeLog(crc, p.records, last + 2);
    assert EncodeLog(crc, q.records, last + 1) == f + log;
    assert (f + bytes)[|f + log|..] == bytes[|log|..];
  }

  /** Whatever the scanner accepts is the encoding of what it returns. */
  lemma {:induction false} EncodeParsed(crc: Checksum, max: nat, bytes: seq<byte>, offset: nat, last: nat)
    requires !Parse(crc, max, bytes, offset, last).Failed?
    requires offset <= U64_MAX && last <= U64_MAX
    ensures Explains(crc, max, bytes, offset, last, Parse(crc, max, bytes, offset, last))
    decreases |bytes|
  {
    hide ParseHead, Frame, IsTornTail, Explains;
    if bytes == [] || ParseHead(crc, max, bytes, offset, last).Incomplete? {
      ExplainsNothing(crc, max, bytes, offset, last);
    } else {
      var head := ParseHead(crc, max, bytes, offset, last);
      FrameOfHead(crc, max, bytes, offset, last);
      var f, rest := bytes[..head.length], bytes[head.length..];
      EncodeParsed(crc, max, rest, offset + head.length, last + 1);
      ExplainsFrame(crc, max, f, head.record, rest, offset, last,
                    Parse(crc, max, rest, offset + head.length, last + 1));
      assert f + rest == bytes;
    }
  }

  lemma ExplainsNothing(crc: Checksum, max: nat, bytes: seq<byte>, offset: nat, last: nat)
    requires offset <= U64_MAX && last <= U64_MAX
    requires bytes == [] || ParseHead(crc, max, bytes, offset, last).Incomplete?
    ensures Explains(crc, max, bytes, offset, last, Parse(crc, max, bytes, offset, last))
  {
    hide ParseHead, IsTornTail;
    if bytes != [] {
      HeadTorn(crc, max, bytes, offset, last);
    }
  }

  /** A log as the writer produces it: records 1, 2, ... within the payload
      bound, in a file whose length and numbering fit in 64 bits. */
  ghost predicate EncodesLog(crc: Checksum, max: nat, file: seq<byte>, records: seq<Record>) {
    file == EncodeLog(crc, records, 1) && Fits(records, max) && |records| <= U64_MAX && |file| <= U64_MAX
  }

  /** The scanner and the encoder are exact inverses: a file scans without
      repair if and only if it is the encoding of the records returned. */
  lemma ScanInvertsEncode(crc: Checksum, max: nat, file: seq<byte>, records: seq<Record>)
    requires max <= PAYLOAD_LIMIT
    ensures Parse(crc, max, file, 0, 0) == Clean(records) <==> EncodesLog(crc, max, file, records)
  {
    hide ParseHead, Frame;
    if EncodesLog(crc, max, file, records) {
      ParseEncoded(crc, max, records, [], 0, 0);
      assert file + [] == file && records + [] == records;
    }
    if Parse(crc, max, file, 0, 0) == Clean(records) {
      EncodeParsed(crc, max, file, 0, 0);
    }
  }

  /** Torn-tail detection is exact: a file is reported torn at `offset` if and
      only if it is whole frames up to there followed by a torn tail. */
  lemma TornTailExact(crc: Checksum, max: nat, file: seq<byte>, records: seq<Record>, offset: nat)
    requires max <= PAYLOAD_LIMIT
    ensures Parse(crc, max, file, 0, 0) == Torn(records, offset)
       <==> (offset <= |file| && EncodesLog(crc, max, file[..offset], records)
             && IsTornTail(crc, max, file[offset..], offset))
  {
    hide ParseHead, DecodeHeader, Frame;
    if offset <= |file| && EncodesLog(crc, max, file[..offset], records)
       && IsTornTail(crc, max, file[offset..], offset) {
      assert file == file[..offset] + file[offset..];
      ParseEncoded(crc, max, records, file[offset..], 0, 0);
      HeadTorn(crc, max, file[offset..], offset, |records|);
      assert records + [] == records;
    }
    if Parse(crc, max, file, 0, 0) == Torn(records, offset) {
      EncodeParsed(crc, max, file, 0, 0);
    }
  }

  // ------------------------------------------------------------- cut points

  /** The head of a cut file: unchanged when its frame fits, otherwise
      incomplete. */
  lemma HeadCut(crc: Checksum, max: nat, bytes: seq<byte>, cut: nat, offset: nat, last: nat)
    requires 0 < cut <= |bytes| && !ParseHead(crc, max, bytes, offset, last).Bad?
    ensures var head := ParseHead(crc, max, bytes, offset, last);
            ParseHead(crc, max, bytes[..cut], offset, last)
              == if head.Whole? && head.length <= cut then head else Incomplete
  {
    hide DecodeHeader;
    var head := ParseHead(crc, max, bytes, offset, last);
    if cut >= HEADER_LEN {
      assert bytes[..cut][..HEADER_LEN] == bytes[..HEADER_LEN];
      if head.Whole? && head.length <= cut {
        assert bytes[..cut][HEADER_LEN..head.length] == bytes[HEADER_LEN..head.length];
      }
    }
  }

  /** The records of q are those of p whose frames end within `cut` bytes. */
  ghost predicate KeepsWhole(crc: Checksum, p: seq<Record>, q: seq<Record>, cut: nat, first: nat) {
    q <= p && (|q| < |p| ==> cut < |EncodeLog(crc, p[..|q| + 1], first)|)
  }

  lemma KeepsWholeFrame(crc: Checksum, r: Record, p: seq<Record>, q: seq<Record>, cut: nat, first: nat)
    requires KeepsWhole(crc, p, q, cut, first + 1)
    ensures KeepsWhole(crc, [r] + p, [r] + q, |Frame(crc, first, r)| + cut, first)
  {
    hide Frame;
    if |q| < |p| {
      var longer := ([r] + p)[..|q| + 2];
      assert longer[1..] == p[..|q| + 1];
    }
  }

  lemma KeepsNone(crc: Checksum, p: seq<Record>, cut: nat, first: nat)
    requires p != [] ==> cut < |Frame(crc, first, p[0])|
    ensures KeepsWhole(crc, p, [], cut, first)
  {
    hide Frame;
    if p != [] {
      assert p[..1] == [p[0]];
      assert EncodeLog(crc, [p[0]], first) == Frame(crc, first, p[0]) + [];
    }
  }

  /** Cutting a scannable file anywhere keeps exactly the frames that fit. */
  lemma {:induction false} ParseCut(crc: Checksum, max: nat, bytes: seq<byte>, cut: nat, offset: nat, last: nat)
    requires cut <= |bytes| && !Parse(crc, max, bytes, offset, last).Failed?
    ensures var q := Parse(crc, max, bytes[..cut], offset, last);
            !q.Failed?
            && KeepsWhole(crc, Parse(crc, max, bytes, offset, last).records, q.records, cut, last + 1)
    decreases |bytes|
  {
    hide ParseHead, Frame, KeepsWhole;
    var p := Parse(crc, max, bytes, offset, last);
    if bytes == [] {
      KeepsNone(crc, p.records, cut, last + 1);
    } else {
      var head := ParseHead(crc, max, bytes, offset, last);
      if head.Whole? {
        FrameOfHead(crc, max, bytes, offset, last);
      }
      if cut > 0 {
        HeadCut(crc, max, bytes, cut, offset, last);
      }
      if head.Whole? && head.length <= cut {
        var rest := bytes[head.length..];
        assert bytes[..cut][head.length..] == rest[..cut - head.length];
        ParseCut(crc, max, rest, cut - head.length, offset + head.length, last + 1);
        KeepsWholeFrame(crc, head.record, Parse(crc, max, rest, offset + head.length, last + 1).records,
          Parse(crc, max, rest[..cut - head.length], offset + head.length, last + 1).records,
          cut - head.length, last + 1);
      } else {
        KeepsNone(crc, p.records, cut, last + 1);
      }
    }
  }

  /** Every cut point of every valid log: the whole frames before the cut are
      all kept, and nothing else. */
  lemma CutKeepsWholeFrames(crc: Checksum, max: nat, records: seq<Record>, cut: nat)
    requires max <= PAYLOAD_LIMIT && Fits(records, max) && |records| <= U64_MAX
    requires cut <= |EncodeLog(crc, records, 1)| <= U64_MAX
    ensures var p := Parse(crc, max, EncodeLog(crc, records, 1)[..cut], 0, 0);
            && !p.Failed? && KeepsWhole(crc, records, p.records, cut, 1)
            && |EncodeLog(crc, p.records, 1)| <= cut
            && (p.Clean? <==> |EncodeLog(crc, p.records, 1)| == cut)
  {
    hide Parse, Frame, DecodeHeader, KeepsWhole;
    var file := EncodeLog(crc, records, 1);
    ScanInvertsEncode(crc, max, file, records);
    ParseCut(crc, max, file, cut, 0, 0);
    EncodeParsed(crc, max, file[..cut], 0, 0);
  }

  // ------------------------------------------------------------ extensions

  lemma {:induction false} EncodeLogAppend(crc: Checksum, a: seq<Record>, b: seq<Record>, first: nat)
    ensures EncodeLog(crc, a + b, first) == EncodeLog(crc, a, first) + EncodeLog(crc, b, first + |a|)
  {
    hide Frame;
    if a == [] {
      assert a + b == b;
    } else {
      assert (a + b)[1..] == a[1..] + b;
      EncodeLogAppend(crc, a[1..], b, first + 1);
    }
  }

  /** A larger payload bound accepts the same files with the same result. */
  lemma {:induction false} LooserBound(crc: Checksum, max: nat, max': nat, bytes: seq<byte>, offset: nat, last: nat)
    requires max <= max' && !Parse(crc, max, bytes, offset, last).Failed?
    ensures Parse(crc, max', bytes, offset, last) == Parse(crc, max, bytes, offset, last)
    decreases |bytes|
  {
    hide DecodeHeader;
    if bytes != [] {
      var head := ParseHead(crc, max, bytes, offset, last);
      assert ParseHead(crc, max', bytes, offset, last) == head;
      if head.Whole? {
        LooserBound(crc, max, max', bytes[head.length..], offset + head.length, last + 1);
      }
    }
  }
}
