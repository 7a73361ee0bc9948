/** The 128-byte block header that precedes every frame's payload. */
module BlockFormat {
  import opened Bytes
  import opened Crc32c
  import opened Layout
  import opened Formats

  const SIZE := 128
  const CRC_AT := 72
  const CRC_FIELD := 16
  const MAGIC: seq<byte> := [84, 70, 68, 66, 66, 76, 75, 49]   // "TFDBBLK1"

  datatype BlockHeader = BlockHeader(
    generation: u64, slot: u32, sequence: u32, flags: u32, recordCount: u32,
    storedSize: u32, rawSize: u32, frameSpan: u32, minTime: i64, maxTime: i64,
    compression: u16, compressionVersion: u16, payloadCrc: u32,
    volumeLow: u64, volumeHigh: u64,
    writerHigh: u64, writerLow: u64, previousHigh: u64, previousLow: u64)

  /** Where each field goes. */
  function FieldsWith(h: BlockHeader, crc: u32): seq<Field> {
    [Field(0, 8, Value(MAGIC)), Field(8, 2, MAJOR), Field(10, 2, MINOR), Field(12, 4, SIZE),
     Field(16, 8, h.generation), Field(24, 4, h.sequence), Field(28, 4, h.flags), Field(32, 4, h.recordCount),
     Field(36, 4, h.storedSize), Field(40, 4, h.rawSize), Field(44, 4, h.frameSpan),
     Field(48, 8, Unsigned(h.minTime)), Field(56, 8, Unsigned(h.maxTime)),
     Field(64, 2, h.compression), Field(66, 2, h.compressionVersion), Field(68, 4, h.payloadCrc),
     Field(CRC_AT, 4, crc), Field(76, 4, h.slot), Field(80, 8, h.volumeLow), Field(88, 8, h.volumeHigh),
     Field(96, 8, h.writerHigh), Field(104, 8, h.writerLow),
     Field(112, 8, h.previousHigh), Field(120, 8, h.previousLow)]
  }

  function Fields(h: BlockHeader): (fs: seq<Field>)
    ensures |fs| == 24
  {
    FieldsWith(h, 0)
  }

  function Encoded(h: BlockHeader): seq<byte> {
    Finished(Fields(h), CRC_FIELD)
  }

  /** The fields as a decoder reads them. */
  function FieldsRead(b: seq<byte>): BlockHeader
    requires |b| >= SIZE
  {
    BlockHeader(Read64(b, 16), Read32(b, 76), Read32(b, 24), Read32(b, 28), Read32(b, 32),
                Read32(b, 36), Read32(b, 40), Read32(b, 44), ReadTime(b, 48), ReadTime(b, 56),
                Read16(b, 64), Read16(b, 66), Read32(b, 68),
                Read64(b, 80), Read64(b, 88),
                Read64(b, 96), Read64(b, 104), Read64(b, 112), Read64(b, 120))
  }

  /** The bounds a decoder insists on; the span is compared with a sum that wraps at 32 bits. */
  predicate InBounds(h: BlockHeader) {
    && h.storedSize != 0 && h.rawSize != 0 && h.recordCount != 0
    && !(h.writerHigh == 0 && h.writerLow == 0)
    && h.minTime <= h.maxTime
    && h.frameSpan >= (SIZE + h.storedSize) % 0x1_0000_0000
  }

  function Decode(bytes: seq<byte>): Result<BlockHeader> {
    var status := CommonCheck(bytes, MAGIC, SIZE, CRC_AT);
    if status.Err? then Err(status.error)
    else if InBounds(FieldsRead(bytes)) then Ok(FieldsRead(bytes))
    else Err(Corrupt)
  }

  /** Fills a zeroed buffer field by field, then checksums it and stores the checksum. */
  method Encode(h: BlockHeader) returns (out: array<byte>)
    ensures fresh(out) && out[..] == Encoded(h)
  {
    FieldsTiled(h, 0);
    StandardHead(Fields(h), h);
    out := PutStructure(Fields(h));
    PackLength(Fields(h));
    FinishCrc(out, CRC_AT, Fields(h), CRC_FIELD);
  }

  lemma {:induction false} FieldsTiled(h: BlockHeader, crc: u32)
    ensures Tiled(FieldsWith(h, crc)) && End(FieldsWith(h, crc)) == SIZE
  {
  }

  lemma {:induction false} FieldsFit(h: BlockHeader, crc: u32)
    ensures Fits(FieldsWith(h, crc))
  {
    Ranges();
    ValueBounded(MAGIC);
  }

  lemma {:induction false} StandardHead(fs: seq<Field>, h: BlockHeader)
    requires fs == Fields(h)
    ensures |fs| == 24 && fs[CRC_FIELD] == Field(CRC_AT, 4, 0)
    ensures && fs[0] == Field(0, 8, Value(MAGIC)) && fs[1] == Field(8, 2, MAJOR)
            && fs[2] == Field(10, 2, MINOR) && fs[3] == Field(12, 4, SIZE)
  {
  }

  lemma {:induction false} IsStructure(h: BlockHeader)
    ensures Structure(Fields(h), CRC_FIELD, MAGIC, SIZE) && Fields(h)[CRC_FIELD].offset == CRC_AT
  {
    FieldsTiled(h, 0);
    FieldsFit(h, 0);
    StandardHead(Fields(h), h);
    StructureOf(Fields(h), CRC_FIELD, MAGIC, SIZE);
  }

  // --------------------------------------------------------------- on the wire

  predicate HeadFields(fs: seq<Field>, h: BlockHeader) {
    && |fs| == 24
    && fs[0] == Field(0, 8, Value(MAGIC)) && fs[1] == Field(8, 2, 1) && fs[2] == Field(10, 2, 0)
    && fs[3] == Field(12, 4, 128) && fs[4] == Field(16, 8, h.generation) && fs[5] == Field(24, 4, h.sequence)
  }

  lemma {:induction false} HeadFieldsHold(fs: seq<Field>, h: BlockHeader)
    requires fs == Fields(h)
    ensures HeadFields(fs, h)
  {
  }

  /** The magic "TFDBBLK1", version 1.0, 128 bytes, then generation and sequence. */
  lemma {:induction false} HeadBytes(h: BlockHeader, fs: seq<Field>, b: seq<byte>)
    requires fs == Fields(h) && b == Encoded(h)
    ensures |b| == SIZE
    ensures
      && b[0..8] == [84, 70, 68, 66, 66, 76, 75, 49] && b[8..10] == [1, 0] && b[10..12] == [0, 0]
      && b[12..16] == [128, 0, 0, 0] && b[16..24] == Little(h.generation, 8) && b[24..28] == Little(h.sequence, 4)
  {
    FieldsTiled(h, 0);
    HeadFieldsHold(fs, h);
    StandardHead(fs, h);
    HeadLaid(h, fs, b);
  }

  lemma {:induction false} HeadLaid(h: BlockHeader, fs: seq<Field>, b: seq<byte>)
    requires Tiled(fs) && End(fs) == SIZE && HeadFields(fs, h)
    requires CRC_FIELD < |fs| && fs[CRC_FIELD].width == 4 && b == Finished(fs, CRC_FIELD)
    ensures |b| == SIZE
    ensures
      && b[0..8] == [84, 70, 68, 66, 66, 76, 75, 49] && b[8..10] == [1, 0] && b[10..12] == [0, 0]
      && b[12..16] == [128, 0, 0, 0] && b[16..24] == Little(h.generation, 8) && b[24..28] == Little(h.sequence, 4)
  {
    ConstantWords();
    FinishedBytes(fs, CRC_FIELD, 0, 0, 8, Value(MAGIC));
    FinishedBytes(fs, CRC_FIELD, 1, 8, 2, 1);
    FinishedBytes(fs, CRC_FIELD, 2, 10, 2, 0);
    FinishedBytes(fs, CRC_FIELD, 3, 12, 4, 128);
    FinishedBytes(fs, CRC_FIELD, 4, 16, 8, h.generation);
    FinishedBytes(fs, CRC_FIELD, 5, 24, 4, h.sequence);
    ValueThenLittle(MAGIC);
  }

  predicate SizeFields(fs: seq<Field>, h: BlockHeader) {
    && |fs| == 24
    && fs[6] == Field(28, 4, h.flags) && fs[7] == Field(32, 4, h.recordCount)
    && fs[8] == Field(36, 4, h.storedSize) && fs[9] == Field(40, 4, h.rawSize)
    && fs[10] == Field(44, 4, h.frameSpan)
  }

  lemma {:induction false} SizeFieldsHold(fs: seq<Field>, h: BlockHeader)
    requires fs == Fields(h)
    ensures SizeFields(fs, h)
  {
  }

  /** Flags, counts and sizes. */
  lemma {:induction false} SizeBytes(h: BlockHeader, fs: seq<Field>, b: seq<byte>)
    requires fs == Fields(h) && b == Encoded(h)
    ensures |b| == SIZE
    ensures
      && b[28..32] == Little(h.flags, 4) && b[32..36] == Little(h.recordCount, 4)
      && b[36..40] == Little(h.storedSize, 4) && b[40..44] == Little(h.rawSize, 4)
      && b[44..48] == Little(h.frameSpan, 4)
  {
    FieldsTiled(h, 0);
    SizeFieldsHold(fs, h);
    StandardHead(fs, h);
    SizeLaid(h, fs, b);
  }

  lemma {:induction false} SizeLaid(h: BlockHeader, fs: seq<Field>, b: seq<byte>)
    requires Tiled(fs) && End(fs) == SIZE && SizeFields(fs, h)
    requires CRC_FIELD < |fs| && fs[CRC_FIELD].width == 4 && b == Finished(fs, CRC_FIELD)
    ensures |b| == SIZE
    ensures
      && b[28..32] == Little(h.flags, 4) && b[32..36] == Little(h.recordCount, 4)
      && b[36..40] == Little(h.storedSize, 4) && b[40..44] == Little(h.rawSize, 4)
      && b[44..48] == Little(h.frameSpan, 4)
  {
    ConstantWords();
    FinishedBytes(fs, CRC_FIELD, 6, 28, 4, h.flags);
    FinishedBytes(fs, CRC_FIELD, 7, 32, 4, h.recordCount);
    FinishedBytes(fs, CRC_FIELD, 8, 36, 4, h.storedSize);
    FinishedBytes(fs, CRC_FIELD, 9, 40, 4, h.rawSize);
    FinishedBytes(fs, CRC_FIELD, 10, 44, 4, h.frameSpan);
  }

  predicate TimeFields(fs: seq<Field>, h: BlockHeader) {
    && |fs| == 24
    && fs[11] == Field(48, 8, Unsigned(h.minTime)) && fs[12] == Field(56, 8, Unsigned(h.maxTime))
    && fs[13] == Field(64, 2, h.compression) && fs[14] == Field(66, 2, h.compressionVersion)
    && fs[15] == Field(68, 4, h.payloadCrc)
  }

  lemma {:induction false} TimeFieldsHold(fs: seq<Field>, h: BlockHeader)
    requires fs == Fields(h)
    ensures TimeFields(fs, h)
  {
  }

  /** Times, codec and the checksum of the payload. */
  lemma {:induction false} TimeBytes(h: BlockHeader, fs: seq<Field>, b: seq<byte>)
    requires fs == Fields(h) && b == Encoded(h)
    ensures |b| == SIZE
    ensures
      && b[48..56] == Little(Unsigned(h.minTime), 8) && b[56..64] == Little(Unsigned(h.maxTime), 8)
      && b[64..66] == Little(h.compression, 2) && b[66..68] == Little(h.compressionVersion, 2)
      && b[68..72] == Little(h.payloadCrc, 4)
  {
    FieldsTiled(h, 0);
    TimeFieldsHold(fs, h);
    StandardHead(fs, h);
    TimeLaid(h, fs, b);
  }

  lemma {:induction false} TimeLaid(h: BlockHeader, fs: seq<Field>, b: seq<byte>)
    requires Tiled(fs) && End(fs) == SIZE && TimeFields(fs, h)
    requires CRC_FIELD < |fs| && fs[CRC_FIELD].width == 4 && b == Finished(fs, CRC_FIELD)
    ensures |b| == SIZE
    ensures
      && b[48..56] == Little(Unsigned(h.minTime), 8) && b[56..64] == Little(Unsigned(h.maxTime), 8)
      && b[64..66] == Little(h.compression, 2) && b[66..68] == Little(h.compressionVersion, 2)
      && b[68..72] == Little(h.payloadCrc, 4)
  {
    ConstantWords();
    FinishedBytes(fs, CRC_FIELD, 11, 48, 8, Unsigned(h.minTime));
    FinishedBytes(fs, CRC_FIELD, 12, 56, 8, Unsigned(h.maxTime));
    FinishedBytes(fs, CRC_FIELD, 13, 64, 2, h.compression);
    FinishedBytes(fs, CRC_FIELD, 14, 66, 2, h.compressionVersion);
    FinishedBytes(fs, CRC_FIELD, 15, 68, 4, h.payloadCrc);
  }

  predicate IdentityFields(fs: seq<Field>, h: BlockHeader) {
    && |fs| == 24
    && fs[17] == Field(76, 4, h.slot) && fs[18] == Field(80, 8, h.volumeLow)
    && fs[19] == Field(88, 8, h.volumeHigh) && fs[20] == Field(96, 8, h.writerHigh)
    && fs[21] == Field(104, 8, h.writerLow) && fs[22] == Field(112, 8, h.previousHigh)
    && fs[23] == Field(120, 8, h.previousLow)
  }

  lemma {:induction false} IdentityFieldsHold(fs: seq<Field>, h: BlockHeader)
    requires fs == Fields(h)
    ensures IdentityFields(fs, h)
  {
  }

  /** Slot, volume, and the writers of this frame and the one before. */
  lemma {:induction false} IdentityBytes(h: BlockHeader, fs: seq<Field>, b: seq<byte>)
    requires fs == Fields(h) && b == Encoded(h)
    ensures |b| == SIZE
    ensures
      && b[76..80] == Little(h.slot, 4) && b[80..88] == Little(h.volumeLow, 8)
      && b[88..96] == Little(h.volumeHigh, 8) && b[96..104] == Little(h.writerHigh, 8)
      && b[104..112] == Little(h.writerLow, 8) && b[112..120] == Little(h.previousHigh, 8)
      && b[120..128] == Little(h.previousLow, 8)
  {
    FieldsTiled(h, 0);
    IdentityFieldsHold(fs, h);
    StandardHead(fs, h);
    IdentityLaid(h, fs, b);
  }

  lemma {:induction false} IdentityLaid(h: BlockHeader, fs: seq<Field>, b: seq<byte>)
    requires Tiled(fs) && End(fs) == SIZE && IdentityFields(fs, h)
    requires CRC_FIELD < |fs| && fs[CRC_FIELD].width == 4 && b == Finished(fs, CRC_FIELD)
    ensures |b| == SIZE
    ensures
      && b[76..80] == Little(h.slot, 4) && b[80..88] == Little(h.volumeLow, 8)
      && b[88..96] == Little(h.volumeHigh, 8) && b[96..104] == Little(h.writerHigh, 8)
      && b[104..112] == Little(h.writerLow, 8) && b[112..120] == Little(h.previousHigh, 8)
      && b[120..128] == Little(h.previousLow, 8)
  {
    ConstantWords();
    FinishedBytes(fs, CRC_FIELD, 17, 76, 4, h.slot);
    FinishedBytes(fs, CRC_FIELD, 18, 80, 8, h.volumeLow);
    FinishedBytes(fs, CRC_FIELD, 19, 88, 8, h.volumeHigh);
    FinishedBytes(fs, CRC_FIELD, 20, 96, 8, h.writerHigh);
    FinishedBytes(fs, CRC_FIELD, 21, 104, 8, h.writerLow);
    FinishedBytes(fs, CRC_FIELD, 22, 112, 8, h.previousHigh);
    FinishedBytes(fs, CRC_FIELD, 23, 120, 8, h.previousLow);
  }

  lemma {:induction false} OnlyCrcChanges(h: BlockHeader, crc: u32)
    ensures WithField(Fields(h), CRC_FIELD, crc) == FieldsWith(h, crc)
  {
  }

  lemma {:induction false} DescribedIsRead(h: BlockHeader, crc: u32, b: seq<byte>)
    requires |b| >= SIZE && Tiled(FieldsWith(h, crc)) && End(FieldsWith(h, crc)) == SIZE
    requires Describes(FieldsWith(h, crc), b)
    ensures FieldsRead(b) == h
  {
    var fs := FieldsWith(h, crc);
    assert && fs[4].offset == 16 && fs[5].offset == 24 && fs[6].offset == 28 && fs[7].offset == 32 && fs[8].offset == 36
           && fs[9].offset == 40 && fs[10].offset == 44 && fs[11].offset == 48 && fs[12].offset == 56
           && fs[13].offset == 64 && fs[14].offset == 66 && fs[15].offset == 68 && fs[17].offset == 76
           && fs[18].offset == 80 && fs[19].offset == 88 && fs[20].offset == 96 && fs[21].offset == 104
           && fs[22].offset == 112 && fs[23].offset == 120;
  }

  lemma {:induction false} FieldsReadBack(h: BlockHeader, tail: seq<byte>)
    ensures |Encoded(h)| == SIZE && FieldsRead(Encoded(h) + tail) == h
  {
    var crc := CrcWord(Pack(Fields(h)));
    IsStructure(h);
    FinishedDescribes(Fields(h), CRC_FIELD, crc, tail);
    OnlyCrcChanges(h, crc);
    DescribedIsRead(h, crc, Encoded(h) + tail);
  }

  lemma {:induction false} EncodedPasses(h: BlockHeader, tail: seq<byte>)
    ensures CommonCheck(Encoded(h) + tail, MAGIC, SIZE, CRC_AT) == Ok(())
  {
    IsStructure(h);
    FinishedPasses(Fields(h), CRC_FIELD, tail, MAGIC, SIZE);
  }

  /** Decoding inverts encoding, whatever follows, exactly for the headers within bounds. */
  lemma {:induction false} DecodeEncoded(h: BlockHeader, tail: seq<byte>)
    ensures Decode(Encoded(h) + tail) ==
            if && h.storedSize > 0 && h.rawSize > 0 && h.recordCount > 0 && (h.writerHigh > 0 || h.writerLow > 0)
               && h.minTime <= h.maxTime && (128 + h.storedSize) % 0x1_0000_0000 <= h.frameSpan
            then Ok(h) else Err(Corrupt)
  {
    EncodedPasses(h, tail);
    FieldsReadBack(h, tail);
  }

  lemma {:induction false} HeadIsField(b: seq<byte>, h: BlockHeader, crc: u32, k: nat)
    requires |b| >= SIZE && Read(b, 0, 8) == Value(MAGIC) && h == FieldsRead(b) && crc == Read32(b, CRC_AT)
    requires Read16(b, 8) == MAJOR && Read16(b, 10) == MINOR && Read32(b, 12) == SIZE
    requires k < 6
    ensures var f := FieldsWith(h, crc)[k]; f.offset + f.width <= SIZE && f.value == Read(b, f.offset, f.width)
  {
  }

  lemma {:induction false} SizesAreFields(b: seq<byte>, h: BlockHeader, crc: u32, k: nat)
    requires |b| >= SIZE && Read(b, 0, 8) == Value(MAGIC) && h == FieldsRead(b) && crc == Read32(b, CRC_AT)
    requires Read16(b, 8) == MAJOR && Read16(b, 10) == MINOR && Read32(b, 12) == SIZE
    requires 6 <= k < 12
    ensures var f := FieldsWith(h, crc)[k]; f.offset + f.width <= SIZE && f.value == Read(b, f.offset, f.width)
  {
  }

  lemma {:induction false} MiddleIsField(b: seq<byte>, h: BlockHeader, crc: u32, k: nat)
    requires |b| >= SIZE && Read(b, 0, 8) == Value(MAGIC) && h == FieldsRead(b) && crc == Read32(b, CRC_AT)
    requires Read16(b, 8) == MAJOR && Read16(b, 10) == MINOR && Read32(b, 12) == SIZE
    requires 12 <= k < 18
    ensures var f := FieldsWith(h, crc)[k]; f.offset + f.width <= SIZE && f.value == Read(b, f.offset, f.width)
  {
  }

  lemma {:induction false} IdentityIsField(b: seq<byte>, h: BlockHeader, crc: u32, k: nat)
    requires |b| >= SIZE && Read(b, 0, 8) == Value(MAGIC) && h == FieldsRead(b) && crc == Read32(b, CRC_AT)
    requires Read16(b, 8) == MAJOR && Read16(b, 10) == MINOR && Read32(b, 12) == SIZE
    requires 18 <= k < 24
    ensures var f := FieldsWith(h, crc)[k]; f.offset + f.width <= SIZE && f.value == Read(b, f.offset, f.width)
  {
  }

  lemma {:induction false} ReadIsField(b: seq<byte>, h: BlockHeader, crc: u32, k: nat)
    requires |b| >= SIZE && Read(b, 0, 8) == Value(MAGIC) && h == FieldsRead(b) && crc == Read32(b, CRC_AT)
    requires Read16(b, 8) == MAJOR && Read16(b, 10) == MINOR && Read32(b, 12) == SIZE
    requires k < 24
    ensures var f := FieldsWith(h, crc)[k]; f.offset + f.width <= SIZE && f.value == Read(b, f.offset, f.width)
  {
    if k < 6 {
      HeadIsField(b, h, crc, k);
    } else if k < 12 {
      SizesAreFields(b, h, crc, k);
    } else if k < 18 {
      MiddleIsField(b, h, crc, k);
    } else {
      IdentityIsField(b, h, crc, k);
    }
  }

  lemma {:induction false} ReadIsDescribed(b: seq<byte>, h: BlockHeader, crc: u32)
    requires |b| >= SIZE && Read(b, 0, 8) == Value(MAGIC) && h == FieldsRead(b) && crc == Read32(b, CRC_AT)
    requires Read16(b, 8) == MAJOR && Read16(b, 10) == MINOR && Read32(b, 12) == SIZE
    requires Tiled(FieldsWith(h, crc)) && End(FieldsWith(h, crc)) == SIZE
    ensures Describes(FieldsWith(h, crc), b)
  {
    var fs := FieldsWith(h, crc);
    forall k | 0 <= k < |fs|
      ensures (FieldInside(fs, k); fs[k].value == Read(b, fs[k].offset, fs[k].width))
    {
      ReadIsField(b, h, crc, k);
    }
  }

  lemma {:induction false} PassedIsEncoded(b: seq<byte>, h: BlockHeader)
    requires CommonCheck(b, MAGIC, SIZE, CRC_AT).Ok? && h == FieldsRead(b)
    ensures Encoded(h) == b[..SIZE]
  {
    var crc := Read32(b, CRC_AT);
    assert b[0..8] == b[..8];
    IsStructure(h);
    FieldsTiled(h, crc);
    OnlyCrcChanges(h, crc);
    ReadIsDescribed(b, h, crc);
    PassedIsFinished(b, Fields(h), CRC_FIELD, MAGIC, SIZE);
  }

  /** Every accepted header is the encoding of what was decoded: the format is canonical. */
  lemma {:induction false} EncodeDecoded(bytes: seq<byte>)
    requires Decode(bytes).Ok?
    ensures Encoded(Decode(bytes).value) == bytes[..SIZE] && InBounds(Decode(bytes).value)
  {
    PassedIsEncoded(bytes, FieldsRead(bytes));
  }

  /** One damaged byte of a header never goes unnoticed. */
  lemma {:induction false} OneByteDamage(x: seq<byte>, y: seq<byte>, i: nat)
    requires DifferAt(x, y, i) && i < SIZE
    ensures Decode(x).Err? || Decode(y).Err?
  {
    OneByteRefused(x, y, i, MAGIC, SIZE, CRC_AT);
  }

  /**
    The decoder means to refuse a span shorter than its frame.  The sum it compares with wraps, so an
    accepted span covers the frame exactly when that sum fits 32 bits.
   */
  lemma {:induction false} SpanCoversFrame(bytes: seq<byte>, h: BlockHeader)
    requires Decode(bytes) == Ok(h)
    ensures h.frameSpan >= SIZE + h.storedSize <==> SIZE + h.storedSize < 0x1_0000_0000
  {
    AcceptedInBounds(bytes, h);
    BoundsOnSpan(h);
  }

  lemma {:induction false} AcceptedInBounds(bytes: seq<byte>, h: BlockHeader)
    requires Decode(bytes) == Ok(h)
    ensures InBounds(h)
  {
  }

  lemma {:induction false} BoundsOnSpan(h: BlockHeader)
    requires InBounds(h)
    ensures h.frameSpan >= SIZE + h.storedSize <==> SIZE + h.storedSize < 0x1_0000_0000
  {
  }

  /** A header, of any generation, that is accepted although its span is shorter than its frame. */
  function ShortSpan(generation: u64): BlockHeader {
    BlockHeader(generation, 0, 0, 0, 1, 0xffff_ffff, 1, 127, 0, 0, 0, 1, 0, 0, 0, 0, 1, 0, 0)
  }

  lemma {:induction false} ShortSpanInBounds(generation: u64, h: BlockHeader)
    requires h == ShortSpan(generation)
    ensures InBounds(h) && h.frameSpan < SIZE + h.storedSize
  {
  }

  lemma {:induction false} ShortSpanAccepted(generation: u64, h: BlockHeader)
    requires h == ShortSpan(generation)
    ensures Decode(Encoded(h) + []) == Ok(h) && h.frameSpan < SIZE + h.storedSize
  {
    ShortSpanInBounds(generation, h);
    DecodeEncoded(h, []);
  }
}
