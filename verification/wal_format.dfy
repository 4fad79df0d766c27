/** Fixed-width big-endian integers as byte sequences. */
module BigEndian {
  import opened Core

  function Pow256(width: nat): (p: nat)
    ensures p > 0
  {
    if width == 0 then 1 else 256 * Pow256(width - 1)
  }

  /** The low `width` bytes of a value, most significant first. */
  function Encode(value: nat, width: nat): (bytes: seq<byte>)
    ensures |bytes| == width
  {
    if width == 0 then [] else Encode(value / 256, width - 1) + [value % 256]
  }

  function Decode(bytes: seq<byte>): (value: nat)
    ensures value < Pow256(|bytes|)
  {
    if bytes == [] then 0 else Decode(bytes[..|bytes| - 1]) * 256 + bytes[|bytes| - 1]
  }

  lemma {:induction false} DecodeEncode(value: nat, width: nat)
    requires value < Pow256(width)
    ensures Decode(Encode(value, width)) == value
  {
    if width > 0 {
      DecodeEncode(value / 256, width - 1);
      assert Encode(value, width)[..width - 1] == Encode(value / 256, width - 1);
    }
  }

  lemma {:induction false} EncodeDecode(bytes: seq<byte>)
    ensures Encode(Decode(bytes), |bytes|) == bytes
  {
    if bytes != [] {
      var front := bytes[..|bytes| - 1];
      EncodeDecode(front);
      assert Decode(bytes) / 256 == Decode(front);
      assert bytes == front + [bytes[|bytes| - 1]];
    }
  }

  /** The widths the frame header uses hold the machine integers exactly. */
  lemma Widths()
    ensures Pow256(2) == U16_MAX + 1
    ensures Pow256(4) == U32_MAX + 1
    ensures Pow256(8) == U64_MAX + 1
  {
    assert Pow256(1) == 256;
    assert Pow256(3) == 256 * 256 * 256;
    assert Pow256(4) == 256 * Pow256(3);
    assert Pow256(5) == 256 * Pow256(4);
    assert Pow256(6) == 256 * Pow256(5);
    assert Pow256(7) == 256 * Pow256(6);
    assert Pow256(8) == 256 * Pow256(7);
  }
}

/** The v1 frame: a 40-byte header with two checksums, then the payload.  The
    checksum is a parameter: nothing here depends on which function it is. */
module WalFormat {
  import opened Core
  import BE = BigEndian

  type u16 = x: int | 0 <= x <= 0xFFFF
  type u32 = x: int | 0 <= x <= 0xFFFF_FFFF

  type Checksum = seq<byte> -> u32

  const MAGIC: seq<byte> := [0x49, 0x43, 0x57, 0x4C]
  const FORMAT_VERSION: nat := 1
  const HEADER_LEN: nat := 40
  const FLAGS_V1: nat := 0

  /** The longest payload whose frame length still fits in 32 bits. */
  const PAYLOAD_LIMIT: nat := U32_MAX - HEADER_LEN

  datatype RecordData = Record(kind: nat, schema: nat, payload: seq<byte>)

  /** A record input: kind and schema version are nonzero 16-bit numbers. */
  type Record = r: RecordData | 1 <= r.kind <= U16_MAX && 1 <= r.schema <= U16_MAX
    witness Record(1, 1, [])

  /** A replayed record with its sequence number. */
  datatype WalRecord = WalRecord(lsn: nat, record: Record)

  datatype CorruptionKind =
    | BadMagic
    | HeaderChecksum
    | PayloadChecksum
    | LengthMismatch
    | ZeroRecordMetadata
    | LsnSequence(expected: nat, actual: nat)

  datatype UnsupportedField = FormatVersion | HeaderLength | Flags

  /** Sequence numbers start at 1, so 0 stands for "no valid record yet". */
  datatype WalError =
    | Io
    | AlreadyOpen
    | UnsupportedFormat(offset: nat, field: UnsupportedField, actual: nat)
    | Corruption(offset: nat, lastValidLsn: nat, kind: CorruptionKind)
    | TornTail(offset: nat, fileLength: nat, lastValidLsn: nat)
    | RecordTooLarge(actual: nat, maximum: nat)
    | OnDiskRecordTooLarge(offset: nat, actual: nat, maximum: nat)
    | LsnExhausted
    | Poisoned

  datatype DecodedHeader = DecodedHeader(
    totalFrameLen: nat, lsn: nat, kind: nat, schema: nat, payloadLen: nat, payloadCrc: nat)

  // ---------------------------------------------------------------- encoding

  /** Header bytes 0 to 35 for given field values. */
  function HeaderFields(d: DecodedHeader): (bytes: seq<byte>)
    ensures |bytes| == 36
  {
    MAGIC + BE.Encode(FORMAT_VERSION, 2) + BE.Encode(HEADER_LEN, 2)
    + BE.Encode(d.totalFrameLen, 4) + BE.Encode(FLAGS_V1, 4) + BE.Encode(d.lsn, 8)
    + BE.Encode(d.kind, 2) + BE.Encode(d.schema, 2)
    + BE.Encode(d.payloadLen, 4) + BE.Encode(d.payloadCrc, 4)
  }

  function Header(crc: Checksum, d: DecodedHeader): (bytes: seq<byte>)
    ensures |bytes| == HEADER_LEN
  {
    HeaderFields(d) + BE.Encode(crc(HeaderFields(d)), 4)
  }

  function Describe(crc: Checksum, lsn: nat, r: Record): DecodedHeader {
    DecodedHeader(HEADER_LEN + |r.payload|, lsn, r.kind, r.schema, |r.payload|, crc(r.payload))
  }

  function Frame(crc: Checksum, lsn: nat, r: Record): (bytes: seq<byte>)
    ensures |bytes| == HEADER_LEN + |r.payload|
  {
    Header(crc, Describe(crc, lsn, r)) + r.payload
  }

  /** A frame is refused only when its length does not fit in 32 bits. */
  function EncodeFrame(crc: Checksum, lsn: nat, r: Record): Result<seq<byte>, WalError> {
    if |r.payload| > PAYLOAD_LIMIT then Err(RecordTooLarge(|r.payload|, PAYLOAD_LIMIT))
    else Ok(Frame(crc, lsn, r))
  }

  method CopyInto(frame: array<byte>, at: nat, bytes: seq<byte>)
    requires at + |bytes| <= frame.Length
    modifies frame
    ensures frame[..at + |bytes|] == old(frame[..at]) + bytes
    ensures frame[at + |bytes|..] == old(frame[at + |bytes|..])
  {
    for i := 0 to |bytes|
      invariant frame[..at] == old(frame[..at])
      invariant frame[at..at + i] == bytes[..i]
      invariant frame[at + |bytes|..] == old(frame[at + |bytes|..])
    {
      frame[at + i] := bytes[i];
      assert frame[at..at + i + 1] == frame[at..at + i] + [bytes[i]];
    }
    assert frame[..at + |bytes|] == frame[..at] + frame[at..at + |bytes|];
  }

  /** The encoder: it fills one zeroed buffer field by field. */
  method FillFrame(crc: Checksum, lsn: nat, r: Record) returns (result: Result<seq<byte>, WalError>)
    ensures result == EncodeFrame(crc, lsn, r)
  {
    hide BE.Encode;
    var payloadLen := |r.payload|;
    if payloadLen > U32_MAX || HEADER_LEN + payloadLen > U32_MAX {
      return Err(RecordTooLarge(payloadLen, U32_MAX - HEADER_LEN));
    }
    var frame := new byte[HEADER_LEN + payloadLen](_ => 0);
    var d := DecodedHeader(HEADER_LEN + payloadLen, lsn, r.kind, r.schema, payloadLen, crc(r.payload));
    CopyInto(frame, 0, MAGIC);
    CopyInto(frame, 4, BE.Encode(FORMAT_VERSION, 2));
    CopyInto(frame, 6, BE.Encode(HEADER_LEN, 2));
    CopyInto(frame, 8, BE.Encode(HEADER_LEN + payloadLen, 4));
    CopyInto(frame, 12, BE.Encode(FLAGS_V1, 4));
    CopyInto(frame, 16, BE.Encode(lsn, 8));
    CopyInto(frame, 24, BE.Encode(r.kind, 2));
    CopyInto(frame, 26, BE.Encode(r.schema, 2));
    CopyInto(frame, 28, BE.Encode(payloadLen, 4));
    CopyInto(frame, 32, BE.Encode(crc(r.payload), 4));
    assert frame[..36] == HeaderFields(d);
    assert frame[0..36] == frame[..36];
    var headerCrc := crc(frame[0..36]);
    CopyInto(frame, 36, BE.Encode(headerCrc, 4));
    assert frame[..HEADER_LEN] == Header(crc, d);
    CopyInto(frame, HEADER_LEN, r.payload);
    assert frame[..] == frame[..HEADER_LEN + |r.payload|];
    result := Ok(frame[..]);
  }

  // ---------------------------------------------------------------- decoding

  function ReadU16(h: seq<byte>, at: nat): nat
    requires at + 2 <= |h|
  {
    BE.Decode(h[at..at + 2])
  }

  function ReadU32(h: seq<byte>, at: nat): nat
    requires at + 4 <= |h|
  {
    BE.Decode(h[at..at + 4])
  }

  function ReadU64(h: seq<byte>, at: nat): nat
    requires at + 8 <= |h|
  {
    BE.Decode(h[at..at + 8])
  }

  function DecodeHeader(crc: Checksum, h: seq<byte>, offset: nat, last: nat): Result<DecodedHeader, WalError>
    requires |h| == HEADER_LEN
  {
    if h[0..4] != MAGIC then Err(Corruption(offset, last, BadMagic))
    else if ReadU32(h, 36) != crc(h[0..36]) then Err(Corruption(offset, last, HeaderChecksum))
    else if ReadU16(h, 4) != FORMAT_VERSION then
      Err(UnsupportedFormat(offset, FormatVersion, ReadU16(h, 4)))
    else if ReadU16(h, 6) != HEADER_LEN then
      Err(UnsupportedFormat(offset, HeaderLength, ReadU16(h, 6)))
    else if ReadU32(h, 12) != FLAGS_V1 then
      Err(UnsupportedFormat(offset, Flags, ReadU32(h, 12)))
    else if HEADER_LEN + ReadU32(h, 28) > U32_MAX then Err(Corruption(offset, last, LengthMismatch))
    else if ReadU32(h, 8) != HEADER_LEN + ReadU32(h, 28) then
      Err(Corruption(offset, last, LengthMismatch))
    else if ReadU16(h, 24) == 0 || ReadU16(h, 26) == 0 then
      Err(Corruption(offset, last, ZeroRecordMetadata))
    else
      Ok(DecodedHeader(ReadU32(h, 8), ReadU64(h, 16), ReadU16(h, 24), ReadU16(h, 26),
                       ReadU32(h, 28), ReadU32(h, 32)))
  }

  function ValidateLsn(actual: nat, last: nat, offset: nat): Result<nat, WalError> {
    if last == U64_MAX then Err(LsnExhausted)
    else if actual != last + 1 then Err(Corruption(offset, last, LsnSequence(last + 1, actual)))
    else Ok(last + 1)
  }

  // ------------------------------------------------------- encode and decode

  /** Field values a v1 header can carry. */
  predicate ValidFields(d: DecodedHeader) {
    && d.payloadLen <= PAYLOAD_LIMIT && d.totalFrameLen == HEADER_LEN + d.payloadLen
    && d.lsn <= U64_MAX && 1 <= d.kind <= U16_MAX && 1 <= d.schema <= U16_MAX
    && d.payloadCrc <= U32_MAX
  }

  lemma FieldSlices(crc: Checksum, d: DecodedHeader)
    ensures var h := Header(crc, d);
            && h[0..4] == MAGIC && h[0..36] == HeaderFields(d)
            && h[4..6] == BE.Encode(FORMAT_VERSION, 2) && h[6..8] == BE.Encode(HEADER_LEN, 2)
            && h[8..12] == BE.Encode(d.totalFrameLen, 4) && h[12..16] == BE.Encode(FLAGS_V1, 4)
            && h[16..24] == BE.Encode(d.lsn, 8)
            && h[24..26] == BE.Encode(d.kind, 2) && h[26..28] == BE.Encode(d.schema, 2)
            && h[28..32] == BE.Encode(d.payloadLen, 4) && h[32..36] == BE.Encode(d.payloadCrc, 4)
            && h[36..40] == BE.Encode(crc(HeaderFields(d)), 4)
  {
  }

  /** Decoding the header of valid fields gives the fields back. */
  lemma DecodeEncodedHeader(crc: Checksum, d: DecodedHeader, offset: nat, last: nat)
    requires ValidFields(d)
    ensures DecodeHeader(crc, Header(crc, d), offset, last) == Ok(d)
  {
    BE.Widths();
    FieldSlices(crc, d);
    BE.DecodeEncode(FORMAT_VERSION, 2);
    BE.DecodeEncode(HEADER_LEN, 2);
    BE.DecodeEncode(d.totalFrameLen, 4);
    BE.DecodeEncode(FLAGS_V1, 4);
    BE.DecodeEncode(d.lsn, 8);
    BE.DecodeEncode(d.kind, 2);
    BE.DecodeEncode(d.schema, 2);
    BE.DecodeEncode(d.payloadLen, 4);
    BE.DecodeEncode(d.payloadCrc, 4);
    BE.DecodeEncode(crc(HeaderFields(d)), 4);
  }

  /** A header that decodes has valid fields and is exactly their encoding:
      no two byte strings decode to the same header. */
  lemma EncodeDecodedHeader(crc: Checksum, h: seq<byte>, offset: nat, last: nat)
    requires |h| == HEADER_LEN && DecodeHeader(crc, h, offset, last).Ok?
    ensures ValidFields(DecodeHeader(crc, h, offset, last).value)
    ensures h == Header(crc, DecodeHeader(crc, h, offset, last).value)
  {
    hide BE.Encode, BE.Decode;
    var d := DecodeHeader(crc, h, offset, last).value;
    BE.Widths();
    BE.EncodeDecode(h[4..6]);
    BE.EncodeDecode(h[6..8]);
    BE.EncodeDecode(h[8..12]);
    BE.EncodeDecode(h[12..16]);
    BE.EncodeDecode(h[16..24]);
    BE.EncodeDecode(h[24..26]);
    BE.EncodeDecode(h[26..28]);
    BE.EncodeDecode(h[28..32]);
    BE.EncodeDecode(h[32..36]);
    BE.EncodeDecode(h[36..40]);
    assert h[0..36] == h[0..4] + h[4..6] + h[6..8] + h[8..12] + h[12..16] + h[16..24]
                       + h[24..26] + h[26..28] + h[28..32] + h[32..36];
    assert h[0..36] == HeaderFields(d);
    assert h == h[0..36] + h[36..40];
  }
}
