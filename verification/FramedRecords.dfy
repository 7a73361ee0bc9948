/**
  FramedRecordV1: a 32-byte header and a payload per record, records one after the other in a block.
  A block decodes to exactly the records that were encoded, nothing else is accepted, and no block
  survives the change of a single byte.
 */
module FramedRecords {
  import opened Bytes
  import opened Crc32c
  import opened Layout
  import opened Formats
  import opened Framing

  const HEADER := 32
  const CRC_AT := 28
  const CRC_FIELD := 6
  const LIMIT := 0x1_0000_0000

  datatype FramedRecord = FramedRecord(time: i64, selector: u64, flags: u16, payload: seq<byte>)

  /** The encoder refuses payloads whose frame size would not fit 32 bits. */
  predicate Encodable(r: FramedRecord) {
    |r.payload| <= LIMIT - 1 - HEADER
  }

  function FrameSize(r: FramedRecord): nat {
    HEADER + |r.payload|
  }

  function FieldsWith(r: FramedRecord, crc: u32): seq<Field> {
    [Field(0, 4, FrameSize(r)), Field(4, 2, HEADER), Field(6, 2, r.flags), Field(8, 8, Unsigned(r.time)),
     Field(16, 8, r.selector), Field(24, 4, |r.payload|), Field(CRC_AT, 4, crc),
     Field(HEADER, |r.payload|, Value(r.payload))]
  }

  function Fields(r: FramedRecord): (fs: seq<Field>)
    ensures |fs| == 8
  {
    FieldsWith(r, 0)
  }

  function Encoded(r: FramedRecord): seq<byte> {
    Finished(Fields(r), CRC_FIELD)
  }

  /** Fills the frame, then checksums header and payload together. */
  method Encode(r: FramedRecord) returns (result: Result<seq<byte>>)
    ensures result == if Encodable(r) then Ok(Encoded(r)) else Err(OutOfRange)
  {
    if |r.payload| > LIMIT - 1 - HEADER {
      return Err(OutOfRange);
    }
    var fields := Fields(r);
    FieldsTiled(r, 0);
    var out := NewBuffer(HEADER + |r.payload|);
    PutAll(out, fields, 7);
    ghost var before := out[..];
    CopyIn(out, HEADER, r.payload);
    ValueThenLittle(r.payload);
    FilledNext(before, out[..], fields, 7);
    assert fields[..8] == fields;
    PackLength(fields);
    FinishCrc(out, CRC_AT, fields, CRC_FIELD);
    return Ok(out[..]);
  }

  /** The bounds of the frame at the front of `data`; the sum of sizes wraps at 32 bits. */
  predicate InBounds(data: seq<byte>)
    requires |data| >= HEADER
  {
    && Read16(data, 4) == HEADER && Read32(data, 0) >= HEADER
    && Read32(data, 0) == (HEADER + Read32(data, 24)) % LIMIT
    && Read32(data, 0) <= |data|
  }

  function FieldsRead(data: seq<byte>): (r: FramedRecord)
    requires |data| >= HEADER && InBounds(data)
  {
    FramedRecord(ReadTime(data, 8), Read64(data, 16), Read16(data, 6), data[HEADER..HEADER + Read32(data, 24)])
  }

  predicate ChecksumOk(data: seq<byte>)
    requires |data| >= HEADER && InBounds(data)
  {
    CrcWord(Zeroed(data[..Read32(data, 0)], CRC_AT)) == Read32(data, CRC_AT)
  }

  /** The record at the front of `data`. */
  function DecodeFirst(data: seq<byte>): Result<FramedRecord> {
    if |data| < HEADER || !InBounds(data) || !ChecksumOk(data) then Err(Corrupt) else Ok(FieldsRead(data))
  }

  // ------------------------------------------------------------- one record

  lemma {:induction false} FieldsTiled(r: FramedRecord, crc: u32)
    ensures Tiled(FieldsWith(r, crc)) && End(FieldsWith(r, crc)) == FrameSize(r)
  {
  }

  lemma {:induction false} FieldsFit(r: FramedRecord, crc: u32)
    requires Encodable(r)
    ensures Fits(FieldsWith(r, crc))
  {
    Ranges();
    ValueBounded(r.payload);
  }

  /** A frame: its size, 32 for the header, flags, time, selector, payload size, CRC, payload; low byte first. */
  lemma {:induction false} FrameBytes(r: FramedRecord, fs: seq<Field>, b: seq<byte>)
    requires fs == Fields(r) && b == Encoded(r)
    ensures |b| == 32 + |r.payload| && b[32..] == r.payload
    ensures b[0..4] == Little(32 + |r.payload|, 4) && b[4..6] == [32, 0] && b[6..8] == Little(r.flags, 2)
    ensures b[8..16] == Little(Unsigned(r.time), 8) && b[16..24] == Little(r.selector, 8)
    ensures b[24..28] == Little(|r.payload|, 4)
  {
    FieldsTiled(r, 0);
    FrameFieldsHold(r, fs);
    FrameLaid(r, fs, b);
  }

  predicate FrameFields(r: FramedRecord, fs: seq<Field>) {
    && |fs| == 8 && fs[0] == Field(0, 4, 32 + |r.payload|) && fs[1] == Field(4, 2, 32) && fs[2] == Field(6, 2, r.flags)
    && fs[3] == Field(8, 8, Unsigned(r.time)) && fs[4] == Field(16, 8, r.selector)
    && fs[5] == Field(24, 4, |r.payload|) && fs[6].width == 4
    && fs[7] == Field(32, |r.payload|, Value(r.payload))
  }

  lemma {:induction false} FrameFieldsHold(r: FramedRecord, fs: seq<Field>)
    requires fs == Fields(r)
    ensures FrameFields(r, fs)
  {
  }

  lemma {:induction false} FrameLaid(r: FramedRecord, fs: seq<Field>, b: seq<byte>)
    requires Tiled(fs) && End(fs) == 32 + |r.payload| && FrameFields(r, fs) && b == Finished(fs, CRC_FIELD)
    ensures |b| == 32 + |r.payload| && b[32..] == r.payload
    ensures b[0..4] == Little(32 + |r.payload|, 4) && b[4..6] == [32, 0] && b[6..8] == Little(r.flags, 2)
    ensures b[8..16] == Little(Unsigned(r.time), 8) && b[16..24] == Little(r.selector, 8)
    ensures b[24..28] == Little(|r.payload|, 4)
  {
    ConstantWords();
    FinishedBytes(fs, CRC_FIELD, 0, 0, 4, 32 + |r.payload|);
    FinishedBytes(fs, CRC_FIELD, 1, 4, 2, 32);
    FinishedBytes(fs, CRC_FIELD, 2, 6, 2, r.flags);
    FinishedBytes(fs, CRC_FIELD, 3, 8, 8, Unsigned(r.time));
    FinishedBytes(fs, CRC_FIELD, 4, 16, 8, r.selector);
    FinishedBytes(fs, CRC_FIELD, 5, 24, 4, |r.payload|);
    FinishedBytes(fs, CRC_FIELD, 7, 32, |r.payload|, Value(r.payload));
    ValueThenLittle(r.payload);
  }

  lemma {:induction false} OnlyCrcChanges(r: FramedRecord, crc: u32)
    ensures WithField(Fields(r), CRC_FIELD, crc) == FieldsWith(r, crc)
  {
  }

  lemma {:induction false} DescribedIsRead(r: FramedRecord, crc: u32, b: seq<byte>)
    requires Encodable(r) && |b| >= FrameSize(r)
    requires Tiled(FieldsWith(r, crc)) && End(FieldsWith(r, crc)) == FrameSize(r) && Describes(FieldsWith(r, crc), b)
    ensures InBounds(b) && FieldsRead(b) == r && Read32(b, 0) == FrameSize(r) && Read32(b, CRC_AT) == crc
  {
    var fs := FieldsWith(r, crc);
    assert && fs[0].offset == 0 && fs[1].offset == 4 && fs[2].offset == 6 && fs[3].offset == 8 && fs[4].offset == 16
           && fs[5].offset == 24 && fs[6].offset == CRC_AT && fs[7].offset == HEADER;
    ValueThenLittle(r.payload);
    ValueThenLittle(b[HEADER..FrameSize(r)]);
  }

  lemma {:induction false} EncodedDescribed(r: FramedRecord, tail: seq<byte>)
    requires Encodable(r)
    ensures |Encoded(r)| == FrameSize(r) && Zeroed(Encoded(r), CRC_AT) == Pack(Fields(r))
    ensures var crc := CrcWord(Pack(Fields(r)));
            && Tiled(FieldsWith(r, crc)) && End(FieldsWith(r, crc)) == FrameSize(r)
            && Describes(FieldsWith(r, crc), Encoded(r) + tail)
  {
    var crc := CrcWord(Pack(Fields(r)));
    FieldsTiled(r, 0);
    FieldsFit(r, 0);
    FinishedDescribes(Fields(r), CRC_FIELD, crc, tail);
    FinishedClears(Fields(r), CRC_FIELD, crc);
    OnlyCrcChanges(r, crc);
  }

  /** An encoded record decodes to itself, whatever follows it. */
  lemma {:induction false} DecodeEncoded(r: FramedRecord, tail: seq<byte>)
    requires Encodable(r)
    ensures |Encoded(r)| == FrameSize(r) && DecodeFirst(Encoded(r) + tail) == Ok(r)
  {
    EncodedDescribed(r, tail);
    DescribedIsRead(r, CrcWord(Pack(Fields(r))), Encoded(r) + tail);
    assert (Encoded(r) + tail)[..FrameSize(r)] == Encoded(r);
  }

  /** The 32-bit comparison of sizes admits no wrapped payload size. */
  lemma {:induction false} NoWrap(data: seq<byte>)
    requires |data| >= HEADER && InBounds(data)
    ensures Read32(data, 0) == HEADER + Read32(data, 24) == FrameSize(FieldsRead(data)) && Encodable(FieldsRead(data))
  {
  }

  lemma {:induction false} ReadIsDescribed(b: seq<byte>, r: FramedRecord, crc: u32)
    requires |b| >= HEADER && InBounds(b) && r == FieldsRead(b) && crc == Read32(b, CRC_AT)
    requires Tiled(FieldsWith(r, crc)) && End(FieldsWith(r, crc)) == FrameSize(r) <= |b|
    ensures Describes(FieldsWith(r, crc), b)
  {
    NoWrap(b);
  }

  lemma {:induction false} FrontDescribed(b: seq<byte>, r: FramedRecord, crc: u32)
    requires |b| >= HEADER && InBounds(b) && r == FieldsRead(b) && crc == Read32(b, CRC_AT)
    ensures Encodable(r) && Read32(b, 0) == FrameSize(r) <= |b|
    ensures Tiled(FieldsWith(r, crc)) && End(FieldsWith(r, crc)) == FrameSize(r) && Describes(FieldsWith(r, crc), b)
  {
    NoWrap(b);
    FieldsTiled(r, crc);
    ReadIsDescribed(b, r, crc);
  }

  lemma {:induction false} DescribedIsEncoded(data: seq<byte>, r: FramedRecord, crc: u32)
    requires FrameSize(r) <= |data| && Tiled(FieldsWith(r, crc)) && End(FieldsWith(r, crc)) == FrameSize(r)
    requires Describes(FieldsWith(r, crc), data) && crc == CrcWord(Zeroed(data[..FrameSize(r)], CRC_AT))
    ensures Encoded(r) == data[..FrameSize(r)]
  {
    FieldsTiled(r, 0);
    PackRead(FieldsWith(r, crc), data);
    FinishedClears(Fields(r), CRC_FIELD, crc);
    OnlyCrcChanges(r, crc);
  }

  /** What decodes is the encoding of what it decodes to. */
  lemma {:induction false} EncodeDecoded(data: seq<byte>)
    requires DecodeFirst(data).Ok?
    ensures var r := DecodeFirst(data).value;
            Encodable(r) && FrameSize(r) <= |data| && Encoded(r) == data[..FrameSize(r)]
  {
    FrontDescribed(data, FieldsRead(data), Read32(data, CRC_AT));
    DescribedIsEncoded(data, FieldsRead(data), Read32(data, CRC_AT));
  }

  // ------------------------------------------------------------------ blocks

  function RecordCode(): Code<FramedRecord> {
    Code(DecodeFirst, Encoded, FrameSize, Encodable)
  }

  lemma {:induction false} RecordsInvert()
    ensures Inverts(RecordCode())
  {
    forall r, tail | Encodable(r)
      ensures DecodeFirst(Encoded(r) + tail) == Ok(r)
    {
      DecodeEncoded(r, tail);
    }
  }

  lemma {:induction false} RecordsSized()
    ensures Sized(RecordCode())
  {
    forall r | Encodable(r)
      ensures |Encoded(r)| == FrameSize(r)
    {
      DecodeEncoded(r, []);
    }
  }

  lemma {:induction false} RecordsCanonical()
    ensures Canonical(RecordCode())
  {
    forall data | DecodeFirst(data).Ok?
      ensures Encodable(DecodeFirst(data).value) && Encoded(DecodeFirst(data).value) <= data
    {
      EncodeDecoded(data);
    }
  }

  /** Framed records delimit themselves. */
  lemma {:induction false} RecordsDelimit()
    ensures Delimits(RecordCode())
  {
    RecordsInvert();
    RecordsSized();
    RecordsCanonical();
  }

  function ParseBlock(block: seq<byte>): Parsed<FramedRecord> {
    RecordsDelimit();
    Parse(RecordCode(), block)
  }

  function EncodedAll(records: seq<FramedRecord>): seq<byte> {
    Concat(RecordCode(), records)
  }

  /** Concatenated encodings are read back as exactly the records encoded. */
  lemma {:induction false} ParseEncoded(records: seq<FramedRecord>)
    requires AllFit(RecordCode(), records)
    ensures ParseBlock(EncodedAll(records)) == Parsed(records, true)
  {
    RecordsDelimit();
    ParseConcat(RecordCode(), records);
  }

  /** A block accepted in full re-encodes to itself; any other re-encodes to its sound beginning. */
  lemma {:induction false} EncodeParsed(block: seq<byte>)
    ensures var p := ParseBlock(block);
            && AllFit(RecordCode(), p.records) && EncodedAll(p.records) <= block
            && (p.complete <==> EncodedAll(p.records) == block)
  {
    RecordsDelimit();
    ConcatParse(RecordCode(), block);
  }

  lemma {:induction false} FrontFits(data: seq<byte>)
    requires DecodeFirst(data).Ok?
    ensures 0 < FrameSize(DecodeFirst(data).value) <= |data|
  {
    NoWrap(data);
  }

  /** The record at `offset`, if there is a sound one. */
  method Next(block: seq<byte>, offset: nat) returns (first: Option<FramedRecord>, after: nat)
    requires offset < |block|
    ensures first.None? ==> ParseBlock(block[offset..]) == Parsed([], false)
    ensures first.Some? ==> offset < after <= |block|
    ensures first.Some? ==>
      var rest := ParseBlock(block[after..]);
      ParseBlock(block[offset..]) == Parsed([first.value] + rest.records, rest.complete)
  {
    var data := block[offset..];
    var decoded := DecodeFirst(data);
    if decoded.Err? {
      return None, offset;
    }
    FrontFits(data);
    after := offset + FrameSize(decoded.value);
    assert data[FrameSize(decoded.value)..] == block[after..];
    RecordsDelimit();
    ParseStep(RecordCode(), data, decoded.value, block[after..]);
    first := Some(decoded.value);
  }

  /**
    Walks the frames of a block.  The visitor accepts `limit` records and refuses the next one, which
    ends the walk successfully.
   */
  method DecodeBlock(block: seq<byte>, limit: nat) returns (status: Result<()>, visited: seq<FramedRecord>)
    ensures var p := ParseBlock(block);
            if |p.records| > limit then status == Ok(()) && visited == p.records[..limit + 1]
            else visited == p.records && status == if p.complete then Ok(()) else Err(Corrupt)
  {
    visited := [];
    var offset := 0;
    ghost var left := ParseBlock(block);
    assert block[0..] == block;
    while offset < |block|
      invariant offset <= |block| && |visited| <= limit
      invariant left == ParseBlock(block[offset..])
      invariant ParseBlock(block) == Parsed(visited + left.records, left.complete)
      decreases |block| - offset
    {
      var first, after := Next(block, offset);
      if first.None? {
        return Err(Corrupt), visited;
      }
      left := ParseBlock(block[after..]);
      Assoc(visited, [first.value], left.records);
      visited, offset := visited + [first.value], after;
      if |visited| == limit + 1 {
        return Ok(()), visited;
      }
    }
    return Ok(()), visited;
  }

  // ------------------------------------------------------------ damage to a byte

  /** A changed size field no longer agrees with the other one. */
  lemma {:induction false} SizesAgree(x: seq<byte>, y: seq<byte>, i: nat)
    requires DifferAt(x, y, i) && DecodeFirst(x).Ok? && DecodeFirst(y).Ok?
    ensures Read32(x, 0) == Read32(y, 0)
  {
    NoWrap(x);
    NoWrap(y);
    OutsideSame(x, y, i, if i < 4 then 24 else 0);
  }

  lemma {:induction false} OutsideSame(x: seq<byte>, y: seq<byte>, i: nat, offset: nat)
    requires DifferAt(x, y, i) && offset + 4 <= |x| && !(offset <= i < offset + 4)
    ensures Read32(x, offset) == Read32(y, offset)
  {
    assert x[offset..offset + 4] == y[offset..offset + 4] by {
      if i < offset {
        assert x[offset..offset + 4] == x[i + 1..][offset - i - 1..offset - i + 3];
      } else {
        assert x[offset..offset + 4] == x[..i][offset..offset + 4];
      }
    }
  }

  lemma {:induction false} ChecksumCatches(x: seq<byte>, y: seq<byte>, i: nat, size: nat)
    requires DifferAt(x, y, i) && i < size && HEADER <= size <= |x|
    ensures CrcWord(Zeroed(x[..size], CRC_AT)) != Read32(x, CRC_AT)
         || CrcWord(Zeroed(y[..size], CRC_AT)) != Read32(y, CRC_AT)
  {
    ChecksumsDiffer(x[..size], y[..size], i, CRC_AT);
    ReadPrefix(x, size, CRC_AT, 4);
    ReadPrefix(y, size, CRC_AT, 4);
  }

  /** One changed byte inside the first record. */
  lemma {:induction false} FirstDamaged(x: seq<byte>, y: seq<byte>, i: nat)
    requires DifferAt(x, y, i) && DecodeFirst(x).Ok? && i < FrameSize(DecodeFirst(x).value)
    ensures DecodeFirst(y).Err?
  {
    if DecodeFirst(y).Ok? {
      SizesAgree(x, y, i);
      NoWrap(x);
      ChecksumCatches(x, y, i, Read32(x, 0));
    }
  }

  /** No two blocks that differ in exactly one byte are both accepted in full. */
  lemma {:induction false} OneByteDamage(x: seq<byte>, y: seq<byte>, i: nat)
    requires DifferAt(x, y, i)
    ensures !ParseBlock(x).complete || !ParseBlock(y).complete
  {
    RecordsDelimit();
    RecordsNotice();
    OneByteNoticed(RecordCode(), x, y, i);
  }

  lemma {:induction false} RecordsNotice()
    ensures Notices(RecordCode())
  {
    forall x, y, i: nat {:trigger DifferAt(x, y, i)}
      | DifferAt(x, y, i) && DecodeFirst(x).Ok? && i < FrameSize(DecodeFirst(x).value)
      ensures DecodeFirst(y).Err?
    {
      FirstDamaged(x, y, i);
    }
  }
}
