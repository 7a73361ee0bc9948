/** The 256-byte footer that seals a partition. */
module FooterFormat {
  import opened Bytes
  import opened Crc32c
  import opened Layout
  import opened Formats

  const SIZE := 256
  const CRC_AT := 100
  const CRC_FIELD := 18
  const ENTRY_SIZE := 48
  const MAGIC: seq<byte> := [84, 70, 68, 66, 70, 84, 82, 49]   // "TFDBFTR1"

  datatype PartitionFooter = PartitionFooter(
    volumeHigh: u64, volumeLow: u64, generation: u64, slot: u32, flags: u32, blockCount: u32,
    indexOffset: u64, indexSize: u32, dataEnd: u64, minTime: i64, maxTime: i64, indexCrc: u32)

  /** Where each field goes; two stretches are reserved and zero. */
  function FieldsWith(f: PartitionFooter, crc: u32): seq<Field> {
    [Field(0, 8, Value(MAGIC)), Field(8, 2, MAJOR), Field(10, 2, MINOR), Field(12, 4, SIZE),
     Field(16, 8, f.volumeHigh), Field(24, 8, f.volumeLow), Field(32, 8, f.generation), Field(40, 4, f.slot),
     Field(44, 4, f.flags), Field(48, 4, f.blockCount), Field(52, 4, ENTRY_SIZE), Field(56, 8, f.indexOffset),
     Field(64, 4, f.indexSize), Field(68, 4, 0), Field(72, 8, f.dataEnd), Field(80, 8, Unsigned(f.minTime)),
     Field(88, 8, Unsigned(f.maxTime)), Field(96, 4, f.indexCrc), Field(CRC_AT, 4, crc), Field(104, 152, 0)]
  }

  function Fields(f: PartitionFooter): (fs: seq<Field>)
    ensures |fs| == 20
  {
    FieldsWith(f, 0)
  }

  function Encoded(f: PartitionFooter): seq<byte> {
    Finished(Fields(f), CRC_FIELD)
  }

  predicate AllZero(bytes: seq<byte>) {
    forall i :: 0 <= i < |bytes| ==> bytes[i] == 0
  }

  function FieldsRead(b: seq<byte>): PartitionFooter
    requires |b| >= SIZE
  {
    PartitionFooter(Read64(b, 16), Read64(b, 24), Read64(b, 32), Read32(b, 40), Read32(b, 44), Read32(b, 48),
                    Read64(b, 56), Read32(b, 64), Read64(b, 72), ReadTime(b, 80), ReadTime(b, 88), Read32(b, 96))
  }

  predicate InBounds(f: PartitionFooter) {
    f.indexSize == f.blockCount * ENTRY_SIZE && (f.blockCount == 0 || f.minTime <= f.maxTime)
  }

  function Decode(bytes: seq<byte>): Result<PartitionFooter> {
    var status := CommonCheck(bytes, MAGIC, SIZE, CRC_AT);
    if status.Err? then Err(status.error)
    else if !AllZero(bytes[68..72]) || !AllZero(bytes[104..SIZE]) then Err(Corrupt)
    else if Read32(bytes, 52) != ENTRY_SIZE then Err(Unsupported)
    else if InBounds(FieldsRead(bytes)) then Ok(FieldsRead(bytes))
    else Err(Corrupt)
  }

  // ------------------------------------------------------------------ encoding

  /** Fills a zeroed buffer field by field, then checksums it and stores the checksum. */
  method Encode(f: PartitionFooter) returns (out: array<byte>)
    ensures fresh(out) && out[..] == Encoded(f)
  {
    FieldsTiled(f, 0);
    StandardHead(Fields(f), f);
    out := PutStructure(Fields(f));
    PackLength(Fields(f));
    FinishCrc(out, CRC_AT, Fields(f), CRC_FIELD);
  }

  // ------------------------------------------------------------ two-way inverse

  lemma {:induction false} FieldsTiled(f: PartitionFooter, crc: u32)
    ensures Tiled(FieldsWith(f, crc)) && End(FieldsWith(f, crc)) == SIZE
  {
  }

  lemma {:induction false} FieldsFit(f: PartitionFooter, crc: u32)
    ensures Fits(FieldsWith(f, crc))
  {
    Ranges();
    ValueBounded(MAGIC);
  }

  lemma {:induction false} StandardHead(fs: seq<Field>, f: PartitionFooter)
    requires fs == Fields(f)
    ensures |fs| == 20 && fs[CRC_FIELD] == Field(CRC_AT, 4, 0)
    ensures && fs[0] == Field(0, 8, Value(MAGIC)) && fs[1] == Field(8, 2, MAJOR)
            && fs[2] == Field(10, 2, MINOR) && fs[3] == Field(12, 4, SIZE)
  {
  }

  lemma {:induction false} IsStructure(f: PartitionFooter)
    ensures Structure(Fields(f), CRC_FIELD, MAGIC, SIZE) && Fields(f)[CRC_FIELD].offset == CRC_AT
  {
    FieldsTiled(f, 0);
    FieldsFit(f, 0);
    StandardHead(Fields(f), f);
    StructureOf(Fields(f), CRC_FIELD, MAGIC, SIZE);
  }

  // --------------------------------------------------------------- on the wire

  predicate HeadFields(fs: seq<Field>, f: PartitionFooter) {
    && |fs| == 20
    && fs[0] == Field(0, 8, Value(MAGIC)) && fs[1] == Field(8, 2, 1) && fs[2] == Field(10, 2, 0)
    && fs[3] == Field(12, 4, 256) && fs[4] == Field(16, 8, f.volumeHigh) && fs[5] == Field(24, 8, f.volumeLow)
  }

  lemma {:induction false} HeadFieldsHold(fs: seq<Field>, f: PartitionFooter)
    requires fs == Fields(f)
    ensures HeadFields(fs, f)
  {
  }

  /** The magic "TFDBFTR1", version 1.0, 256 bytes, then the volume. */
  lemma {:induction false} HeadBytes(f: PartitionFooter, fs: seq<Field>, b: seq<byte>)
    requires fs == Fields(f) && b == Encoded(f)
    ensures |b| == SIZE
    ensures
      && b[0..8] == [84, 70, 68, 66, 70, 84, 82, 49] && b[8..10] == [1, 0] && b[10..12] == [0, 0]
      && b[12..16] == [0, 1, 0, 0] && b[16..24] == Little(f.volumeHigh, 8) && b[24..32] == Little(f.volumeLow, 8)
  {
    FieldsTiled(f, 0);
    HeadFieldsHold(fs, f);
    StandardHead(fs, f);
    HeadLaid(f, fs, b);
  }

  lemma {:induction false} HeadLaid(f: PartitionFooter, fs: seq<Field>, b: seq<byte>)
    requires Tiled(fs) && End(fs) == SIZE && HeadFields(fs, f)
    requires CRC_FIELD < |fs| && fs[CRC_FIELD].width == 4 && b == Finished(fs, CRC_FIELD)
    ensures |b| == SIZE
    ensures
      && b[0..8] == [84, 70, 68, 66, 70, 84, 82, 49] && b[8..10] == [1, 0] && b[10..12] == [0, 0]
      && b[12..16] == [0, 1, 0, 0] && b[16..24] == Little(f.volumeHigh, 8) && b[24..32] == Little(f.volumeLow, 8)
  {
    ConstantWords();
    FinishedBytes(fs, CRC_FIELD, 0, 0, 8, Value(MAGIC));
    FinishedBytes(fs, CRC_FIELD, 1, 8, 2, 1);
    FinishedBytes(fs, CRC_FIELD, 2, 10, 2, 0);
    FinishedBytes(fs, CRC_FIELD, 3, 12, 4, 256);
    FinishedBytes(fs, CRC_FIELD, 4, 16, 8, f.volumeHigh);
    FinishedBytes(fs, CRC_FIELD, 5, 24, 8, f.volumeLow);
    ValueThenLittle(MAGIC);
  }

  predicate CountFields(fs: seq<Field>, f: PartitionFooter) {
    && |fs| == 20
    && fs[6] == Field(32, 8, f.generation) && fs[7] == Field(40, 4, f.slot) && fs[8] == Field(44, 4, f.flags)
    && fs[9] == Field(48, 4, f.blockCount) && fs[10] == Field(52, 4, 48) && fs[11] == Field(56, 8, f.indexOffset)
  }

  lemma {:induction false} CountFieldsHold(fs: seq<Field>, f: PartitionFooter)
    requires fs == Fields(f)
    ensures CountFields(fs, f)
  {
  }

  /** Generation, slot, counts and the index region. */
  lemma {:induction false} CountBytes(f: PartitionFooter, fs: seq<Field>, b: seq<byte>)
    requires fs == Fields(f) && b == Encoded(f)
    ensures |b| == SIZE
    ensures
      && b[32..40] == Little(f.generation, 8) && b[40..44] == Little(f.slot, 4) && b[44..48] == Little(f.flags, 4)
      && b[48..52] == Little(f.blockCount, 4) && b[52..56] == [48, 0, 0, 0]
      && b[56..64] == Little(f.indexOffset, 8)
  {
    FieldsTiled(f, 0);
    CountFieldsHold(fs, f);
    StandardHead(fs, f);
    CountLaid(f, fs, b);
  }

  lemma {:induction false} CountLaid(f: PartitionFooter, fs: seq<Field>, b: seq<byte>)
    requires Tiled(fs) && End(fs) == SIZE && CountFields(fs, f)
    requires CRC_FIELD < |fs| && fs[CRC_FIELD].width == 4 && b == Finished(fs, CRC_FIELD)
    ensures |b| == SIZE
    ensures
      && b[32..40] == Little(f.generation, 8) && b[40..44] == Little(f.slot, 4) && b[44..48] == Little(f.flags, 4)
      && b[48..52] == Little(f.blockCount, 4) && b[52..56] == [48, 0, 0, 0]
      && b[56..64] == Little(f.indexOffset, 8)
  {
    ConstantWords();
    FinishedBytes(fs, CRC_FIELD, 6, 32, 8, f.generation);
    FinishedBytes(fs, CRC_FIELD, 7, 40, 4, f.slot);
    FinishedBytes(fs, CRC_FIELD, 8, 44, 4, f.flags);
    FinishedBytes(fs, CRC_FIELD, 9, 48, 4, f.blockCount);
    FinishedBytes(fs, CRC_FIELD, 10, 52, 4, 48);
    FinishedBytes(fs, CRC_FIELD, 11, 56, 8, f.indexOffset);
  }

  predicate IndexFields(fs: seq<Field>, f: PartitionFooter) {
    && |fs| == 20
    && fs[12] == Field(64, 4, f.indexSize) && fs[13] == Field(68, 4, 0) && fs[14] == Field(72, 8, f.dataEnd)
    && fs[15] == Field(80, 8, Unsigned(f.minTime)) && fs[16] == Field(88, 8, Unsigned(f.maxTime))
    && fs[17] == Field(96, 4, f.indexCrc)
  }

  lemma {:induction false} IndexFieldsHold(fs: seq<Field>, f: PartitionFooter)
    requires fs == Fields(f)
    ensures IndexFields(fs, f)
  {
  }

  /** The size of the index, where the data ends, its times and the checksum of the index. */
  lemma {:induction false} IndexBytes(f: PartitionFooter, fs: seq<Field>, b: seq<byte>)
    requires fs == Fields(f) && b == Encoded(f)
    ensures |b| == SIZE
    ensures
      && b[64..68] == Little(f.indexSize, 4) && b[68..72] == [0, 0, 0, 0] && b[72..80] == Little(f.dataEnd, 8)
      && b[80..88] == Little(Unsigned(f.minTime), 8) && b[88..96] == Little(Unsigned(f.maxTime), 8)
      && b[96..100] == Little(f.indexCrc, 4)
  {
    FieldsTiled(f, 0);
    IndexFieldsHold(fs, f);
    StandardHead(fs, f);
    IndexLaid(f, fs, b);
  }

  lemma {:induction false} IndexLaid(f: PartitionFooter, fs: seq<Field>, b: seq<byte>)
    requires Tiled(fs) && End(fs) == SIZE && IndexFields(fs, f)
    requires CRC_FIELD < |fs| && fs[CRC_FIELD].width == 4 && b == Finished(fs, CRC_FIELD)
    ensures |b| == SIZE
    ensures
      && b[64..68] == Little(f.indexSize, 4) && b[68..72] == [0, 0, 0, 0] && b[72..80] == Little(f.dataEnd, 8)
      && b[80..88] == Little(Unsigned(f.minTime), 8) && b[88..96] == Little(Unsigned(f.maxTime), 8)
      && b[96..100] == Little(f.indexCrc, 4)
  {
    ConstantWords();
    FinishedBytes(fs, CRC_FIELD, 12, 64, 4, f.indexSize);
    FinishedBytes(fs, CRC_FIELD, 13, 68, 4, 0);
    FinishedBytes(fs, CRC_FIELD, 14, 72, 8, f.dataEnd);
    FinishedBytes(fs, CRC_FIELD, 15, 80, 8, Unsigned(f.minTime));
    FinishedBytes(fs, CRC_FIELD, 16, 88, 8, Unsigned(f.maxTime));
    FinishedBytes(fs, CRC_FIELD, 17, 96, 4, f.indexCrc);
  }

  lemma {:induction false} OnlyCrcChanges(f: PartitionFooter, crc: u32)
    ensures WithField(Fields(f), CRC_FIELD, crc) == FieldsWith(f, crc)
  {
  }

  lemma {:induction false} ZeroValue(bytes: seq<byte>)
    ensures AllZero(bytes) <==> Value(bytes) == 0
    decreases |bytes|
  {
    if bytes != [] {
      ZeroValue(bytes[1..]);
      assert forall i :: 1 <= i < |bytes| ==> bytes[i] == bytes[1..][i - 1];
    }
  }

  lemma {:induction false} DescribedIsRead(f: PartitionFooter, crc: u32, b: seq<byte>)
    requires |b| >= SIZE && Tiled(FieldsWith(f, crc)) && End(FieldsWith(f, crc)) == SIZE
    requires Describes(FieldsWith(f, crc), b)
    ensures FieldsRead(b) == f
  {
    var fs := FieldsWith(f, crc);
    assert && fs[4].offset == 16 && fs[5].offset == 24 && fs[6].offset == 32 && fs[7].offset == 40 && fs[8].offset == 44
           && fs[9].offset == 48 && fs[11].offset == 56 && fs[12].offset == 64 && fs[14].offset == 72
           && fs[15].offset == 80 && fs[16].offset == 88 && fs[17].offset == 96;
  }

  lemma {:induction false} DescribedIsReserved(f: PartitionFooter, crc: u32, b: seq<byte>)
    requires |b| >= SIZE && Tiled(FieldsWith(f, crc)) && End(FieldsWith(f, crc)) == SIZE
    requires Describes(FieldsWith(f, crc), b)
    ensures Read32(b, 52) == ENTRY_SIZE && AllZero(b[68..72]) && AllZero(b[104..SIZE])
  {
    var fs := FieldsWith(f, crc);
    assert fs[10].offset == 52 && fs[13].offset == 68 && fs[19].offset == 104;
    ZeroValue(b[68..72]);
    ZeroValue(b[104..SIZE]);
  }

  lemma {:induction false} FieldsReadBack(f: PartitionFooter, tail: seq<byte>)
    ensures |Encoded(f)| == SIZE && FieldsRead(Encoded(f) + tail) == f && Read32(Encoded(f) + tail, 52) == ENTRY_SIZE
    ensures AllZero((Encoded(f) + tail)[68..72]) && AllZero((Encoded(f) + tail)[104..SIZE])
  {
    var crc := CrcWord(Pack(Fields(f)));
    IsStructure(f);
    FinishedDescribes(Fields(f), CRC_FIELD, crc, tail);
    OnlyCrcChanges(f, crc);
    DescribedIsRead(f, crc, Encoded(f) + tail);
    DescribedIsReserved(f, crc, Encoded(f) + tail);
  }

  lemma {:induction false} EncodedPasses(f: PartitionFooter, tail: seq<byte>)
    ensures CommonCheck(Encoded(f) + tail, MAGIC, SIZE, CRC_AT) == Ok(())
  {
    IsStructure(f);
    FinishedPasses(Fields(f), CRC_FIELD, tail, MAGIC, SIZE);
  }

  /** Decoding inverts encoding, whatever follows, exactly for the footers within bounds. */
  lemma {:induction false} DecodeEncoded(f: PartitionFooter, tail: seq<byte>)
    ensures Decode(Encoded(f) + tail) ==
            if f.indexSize == 48 * f.blockCount && (f.blockCount == 0 || f.minTime <= f.maxTime)
            then Ok(f) else Err(Corrupt)
  {
    EncodedPasses(f, tail);
    FieldsReadBack(f, tail);
    DecodeOutcome(Encoded(f) + tail, f);
    BoundsExactly(f);
  }

  lemma {:induction false} DecodeOutcome(b: seq<byte>, f: PartitionFooter)
    requires CommonCheck(b, MAGIC, SIZE, CRC_AT) == Ok(()) && FieldsRead(b) == f
    requires AllZero(b[68..72]) && AllZero(b[104..SIZE]) && Read32(b, 52) == ENTRY_SIZE
    ensures Decode(b) == if InBounds(f) then Ok(f) else Err(Corrupt)
  {
  }

  lemma {:induction false} BoundsExactly(f: PartitionFooter)
    ensures InBounds(f) <==> f.indexSize == 48 * f.blockCount && (f.blockCount == 0 || f.minTime <= f.maxTime)
  {
  }

  lemma {:induction false} ReadIsField(b: seq<byte>, f: PartitionFooter, crc: u32, k: nat)
    requires |b| >= SIZE && Read(b, 0, 8) == Value(MAGIC) && f == FieldsRead(b) && crc == Read32(b, CRC_AT)
    requires Read16(b, 8) == MAJOR && Read16(b, 10) == MINOR && Read32(b, 12) == SIZE && Read32(b, 52) == ENTRY_SIZE
    requires Read(b, 68, 4) == 0 && Read(b, 104, 152) == 0
    requires k < 20
    ensures var x := FieldsWith(f, crc)[k]; x.offset + x.width <= SIZE && x.value == Read(b, x.offset, x.width)
  {
  }

  lemma {:induction false} ReadIsDescribed(b: seq<byte>, f: PartitionFooter, crc: u32)
    requires |b| >= SIZE && Read(b, 0, 8) == Value(MAGIC) && f == FieldsRead(b) && crc == Read32(b, CRC_AT)
    requires Read16(b, 8) == MAJOR && Read16(b, 10) == MINOR && Read32(b, 12) == SIZE && Read32(b, 52) == ENTRY_SIZE
    requires Read(b, 68, 4) == 0 && Read(b, 104, 152) == 0
    requires Tiled(FieldsWith(f, crc)) && End(FieldsWith(f, crc)) == SIZE
    ensures Describes(FieldsWith(f, crc), b)
  {
    var fs := FieldsWith(f, crc);
    forall k | 0 <= k < |fs|
      ensures (FieldInside(fs, k); fs[k].value == Read(b, fs[k].offset, fs[k].width))
    {
      ReadIsField(b, f, crc, k);
    }
  }

  lemma {:induction false} PassedIsDescribed(b: seq<byte>, f: PartitionFooter, crc: u32)
    requires CommonCheck(b, MAGIC, SIZE, CRC_AT).Ok? && f == FieldsRead(b) && Read32(b, 52) == ENTRY_SIZE
    requires Read(b, 68, 4) == 0 && Read(b, 104, 152) == 0 && crc == Read32(b, CRC_AT)
    ensures Tiled(FieldsWith(f, crc)) && End(FieldsWith(f, crc)) == SIZE && Describes(FieldsWith(f, crc), b)
  {
    assert b[0..8] == b[..8];
    FieldsTiled(f, crc);
    ReadIsDescribed(b, f, crc);
  }

  lemma {:induction false} PassedIsEncoded(b: seq<byte>, f: PartitionFooter)
    requires CommonCheck(b, MAGIC, SIZE, CRC_AT).Ok? && f == FieldsRead(b) && Read32(b, 52) == ENTRY_SIZE
    requires Read(b, 68, 4) == 0 && Read(b, 104, 152) == 0
    ensures Encoded(f) == b[..SIZE]
  {
    var crc := Read32(b, CRC_AT);
    IsStructure(f);
    OnlyCrcChanges(f, crc);
    PassedIsDescribed(b, f, crc);
    PassedIsFinished(b, Fields(f), CRC_FIELD, MAGIC, SIZE);
  }

  /** Every accepted footer is the encoding of what was decoded; the reserved bytes leave no slack. */
  lemma {:induction false} EncodeDecoded(bytes: seq<byte>)
    requires Decode(bytes).Ok?
    ensures Encoded(Decode(bytes).value) == bytes[..SIZE] && InBounds(Decode(bytes).value)
  {
    ZeroValue(bytes[68..72]);
    ZeroValue(bytes[104..SIZE]);
    PassedIsEncoded(bytes, FieldsRead(bytes));
  }

  /** One damaged byte of a footer never goes unnoticed. */
  lemma {:induction false} OneByteDamage(x: seq<byte>, y: seq<byte>, i: nat)
    requires DifferAt(x, y, i) && i < SIZE
    ensures Decode(x).Err? || Decode(y).Err?
  {
    OneByteRefused(x, y, i, MAGIC, SIZE, CRC_AT);
  }
}
