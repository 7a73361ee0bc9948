/**
  The fixed on-media structures: block header, index entry and partition footer.  Each is encoded by
  filling a zeroed buffer at stated offsets and storing its CRC32C last; each decoder is the exact
  inverse of its encoder, and no single damaged byte passes.
 */
module Formats {
  import opened Bytes
  import opened Crc32c
  import opened Layout

  type u16 = x: int | 0 <= x < 0x1_0000
  type u32 = x: int | 0 <= x < 0x1_0000_0000
  type u64 = x: int | 0 <= x < 0x1_0000_0000_0000_0000
  type i64 = x: int | -0x8000_0000_0000_0000 <= x < 0x8000_0000_0000_0000

  lemma {:induction false} Ranges()
    ensures Range(2) == 0x1_0000 && Range(4) == 0x1_0000_0000 && Range(8) == 0x1_0000_0000_0000_0000
  {
    assert Range(2) == 256 * Range(1);
    assert Range(4) == 256 * (256 * Range(2));
    assert Range(6) == 256 * (256 * Range(4));
    assert Range(8) == 256 * (256 * Range(6));
  }

  /** A signed time as the unsigned word with the same bits. */
  function Unsigned(t: i64): u64 {
    if t < 0 then t + 0x1_0000_0000_0000_0000 else t
  }

  /** The portable way back: complement, negate, subtract one. */
  function Signed(u: u64): i64 {
    if u <= 0x7fff_ffff_ffff_ffff then u else -1 - (0xffff_ffff_ffff_ffff - u)
  }

  function Read16(bytes: seq<byte>, offset: nat): u16
    requires offset + 2 <= |bytes|
  {
    Ranges();
    ValueBounded(bytes[offset..offset + 2]);
    Read(bytes, offset, 2)
  }

  function Read32(bytes: seq<byte>, offset: nat): u32
    requires offset + 4 <= |bytes|
  {
    Ranges();
    ValueBounded(bytes[offset..offset + 4]);
    Read(bytes, offset, 4)
  }

  function Read64(bytes: seq<byte>, offset: nat): u64
    requires offset + 8 <= |bytes|
  {
    Ranges();
    ValueBounded(bytes[offset..offset + 8]);
    Read(bytes, offset, 8)
  }

  function ReadTime(bytes: seq<byte>, offset: nat): i64
    requires offset + 8 <= |bytes|
  {
    Signed(Read64(bytes, offset))
  }

  function CrcWord(bytes: seq<byte>): u32 {
    Crc(bytes) as int
  }

  lemma {:induction false} SameWord(a: bv32, b: bv32)
    requires a as int == b as int
    ensures a == b
  {
    RoundWord(a);
    RoundWord(b);
  }

  lemma {:induction false} RoundWord(w: bv32)
    ensures (w as int) as bv32 == w
  {
  }

  // ------------------------------------------------- what all structures share

  const MAJOR := 1
  const MINOR := 0

  /** Size, magic, version, encoded size and CRC, in that order. */
  function CommonCheck(bytes: seq<byte>, magic: seq<byte>, size: nat, crcOffset: nat): Result<()>
    requires size >= 16
  {
    if |bytes| < size then Err(Corrupt)
    else if bytes[..8] != magic then Err(Corrupt)
    else if Read16(bytes, 8) != MAJOR then Err(Unsupported)
    else if Read16(bytes, 10) > MINOR then Err(Unsupported)
    else if Read32(bytes, 12) != size then Err(Corrupt)
    else if crcOffset + 4 > size then Err(InternalError)
    else if CrcWord(Zeroed(bytes[..size], crcOffset)) != Read32(bytes, crcOffset) then Err(Corrupt)
    else Ok(())
  }

  /** Fields laid out for `CommonCheck`, the CRC field `k` still zero. */
  ghost predicate Structure(fields: seq<Field>, k: nat, magic: seq<byte>, size: nat) {
    && Tiled(fields) && Fits(fields) && End(fields) == size && |magic| == 8
    && 4 <= k < |fields| && fields[k].width == 4 && fields[k].value == 0
    && fields[0] == Field(0, 8, Value(magic)) && fields[1] == Field(8, 2, MAJOR)
    && fields[2] == Field(10, 2, MINOR) && fields[3] == Field(12, 4, size)
  }

  lemma {:induction false} StructureOf(fields: seq<Field>, k: nat, magic: seq<byte>, size: nat)
    requires Tiled(fields) && Fits(fields) && End(fields) == size && |magic| == 8
    requires 4 <= k < |fields| && fields[k].width == 4 && fields[k].value == 0
    requires fields[0] == Field(0, 8, Value(magic)) && fields[1] == Field(8, 2, MAJOR)
    requires fields[2] == Field(10, 2, MINOR) && fields[3] == Field(12, 4, size)
    ensures Structure(fields, k, magic, size)
  {
  }

  function WithField(fields: seq<Field>, k: nat, value: nat): seq<Field>
    requires k < |fields|
  {
    fields[k := Field(fields[k].offset, fields[k].width, value)]
  }

  /** The CRC is computed over the buffer whose CRC field is zero, then stored. */
  function Finished(fields: seq<Field>, k: nat): seq<byte>
    requires k < |fields|
  {
    Pack(WithField(fields, k, CrcWord(Pack(fields))))
  }

  lemma {:induction false} FinishedClears(fields: seq<Field>, k: nat, crc: u32)
    requires Tiled(fields) && k < |fields| && fields[k].width == 4 && fields[k].value == 0
    ensures var packed := Pack(WithField(fields, k, crc));
            && |packed| == End(fields) && fields[k].offset + 4 <= |packed|
            && Zeroed(packed, fields[k].offset) == Pack(fields)
  {
    var patched := WithField(fields, k, crc);
    TiledUpdate(fields, k, crc);
    PackZeroed(patched, k);
    assert patched[k := Field(fields[k].offset, 4, 0)] == fields;
  }

  /** A packed layout is described by its own fields, whatever follows it. */
  lemma {:induction false} PackedDescribes(fields: seq<Field>, tail: seq<byte>)
    requires Tiled(fields) && Fits(fields)
    ensures |Pack(fields)| == End(fields) && Describes(fields, Pack(fields) + tail)
  {
    PackLength(fields);
    var bytes := Pack(fields) + tail;
    assert bytes[..End(fields)] == Pack(fields);
    forall k | 0 <= k < |fields|
      ensures (FieldInside(fields, k); fields[k].value == Read(bytes, fields[k].offset, fields[k].width))
    {
      ReadPacked(fields, k);
      ReadPrefix(bytes, End(fields), fields[k].offset, fields[k].width);
    }
  }

  lemma {:induction false} FinishedDescribes(fields: seq<Field>, k: nat, crc: u32, tail: seq<byte>)
    requires Tiled(fields) && Fits(fields) && k < |fields| && fields[k].width == 4
    ensures var patched := WithField(fields, k, crc);
            Tiled(patched) && |Pack(patched)| == End(patched) == End(fields) && Describes(patched, Pack(patched) + tail)
  {
    Ranges();
    TiledUpdate(fields, k, crc);
    PackedDescribes(WithField(fields, k, crc), tail);
  }

  /** A field of a finished structure is at its place. */
  lemma {:induction false} FinishedBytes(fields: seq<Field>, k: nat, j: nat, offset: nat, width: nat, value: nat)
    requires Tiled(fields) && k < |fields| && fields[k].width == 4 && j < |fields| && j != k
    requires fields[j] == Field(offset, width, value)
    ensures |Finished(fields, k)| == End(fields) && offset + width <= End(fields)
    ensures Finished(fields, k)[offset..offset + width] == Little(value, width)
  {
    var crc := CrcWord(Pack(fields));
    TiledUpdate(fields, k, crc);
    FieldBytes(WithField(fields, k, crc), j);
  }

  lemma {:induction false} ZeroLittle(width: nat)
    ensures Little(0, width) == Zeros(width)
    decreases width
  {
    if width > 0 {
      ZeroLittle(width - 1);
    }
  }

  lemma {:induction false} SmallLittle(v: byte, width: nat)
    requires width > 0
    ensures Little(v, width) == [v] + Zeros(width - 1)
  {
    ZeroLittle(width - 1);
  }

  /** The constant words of the formats, byte by byte. */
  lemma {:induction false} ConstantWords()
    ensures Little(0, 2) == [0, 0] && Little(1, 2) == [1, 0] && Little(32, 2) == [32, 0]
    ensures Little(0, 4) == [0, 0, 0, 0] && Little(48, 4) == [48, 0, 0, 0]
    ensures Little(128, 4) == [128, 0, 0, 0] && Little(256, 4) == [0, 1, 0, 0]
  {
    SmallLittle(0, 2);
    SmallLittle(1, 2);
    SmallLittle(32, 2);
    SmallLittle(0, 4);
    SmallLittle(48, 4);
    SmallLittle(128, 4);
    SmallLittle(1, 3);
    NextLittle(256, 4);
  }

  lemma {:induction false} NextLittle(v: nat, width: nat)
    requires width > 0
    ensures Little(v, width) == [v % 256] + Little(v / 256, width - 1)
  {
  }

  lemma {:induction false} MagicBack(bytes: seq<byte>, magic: seq<byte>)
    requires |bytes| >= 8 == |magic| && Read(bytes, 0, 8) == Value(magic)
    ensures bytes[..8] == magic
  {
    assert bytes[0..8] == bytes[..8];
    ValueThenLittle(bytes[..8]);
    ValueThenLittle(magic);
  }

  /** What an encoder writes passes the common check, whatever follows it. */
  lemma {:induction false} FinishedPasses(fields: seq<Field>, k: nat, tail: seq<byte>, magic: seq<byte>, size: nat)
    requires Structure(fields, k, magic, size) && size >= 16
    ensures CommonCheck(Finished(fields, k) + tail, magic, size, fields[k].offset) == Ok(())
  {
    var crc := CrcWord(Pack(fields));
    var bytes := Finished(fields, k) + tail;
    var patched := WithField(fields, k, crc);
    FinishedDescribes(fields, k, crc, tail);
    assert patched[0] == fields[0] && patched[1] == fields[1] && patched[2] == fields[2] && patched[3] == fields[3];
    assert patched[k] == Field(fields[k].offset, 4, crc);
    MagicBack(bytes, magic);
    FinishedClears(fields, k, crc);
    assert bytes[..size] == Finished(fields, k);
  }

  /** Bytes that pass, whose other fields are these, are what the encoder writes. */
  lemma {:induction false} PassedIsFinished(bytes: seq<byte>, fields: seq<Field>, k: nat, magic: seq<byte>, size: nat)
    requires Structure(fields, k, magic, size) && 16 <= size <= |bytes|
    requires CommonCheck(bytes, magic, size, fields[k].offset) == Ok(())
    requires var patched := WithField(fields, k, Read32(bytes, fields[k].offset));
             Tiled(patched) && End(patched) == size && Describes(patched, bytes)
    ensures Finished(fields, k) == bytes[..size]
  {
    var crc := Read32(bytes, fields[k].offset);
    PackRead(WithField(fields, k, crc), bytes);
    FinishedClears(fields, k, crc);
  }

  /** Two inputs that differ in exactly one byte of the structure are not both accepted. */
  lemma {:induction false} OneByteRefused(x: seq<byte>, y: seq<byte>, i: nat, magic: seq<byte>, size: nat,
                                          crcOffset: nat)
    requires DifferAt(x, y, i) && i < size && size >= 16
    ensures CommonCheck(x, magic, size, crcOffset).Err? || CommonCheck(y, magic, size, crcOffset).Err?
  {
    if |x| >= size && crcOffset + 4 <= size {
      ChecksumsDiffer(x[..size], y[..size], i, crcOffset);
      ReadPrefix(x, size, crcOffset, 4);
      ReadPrefix(y, size, crcOffset, 4);
    }
  }

  const VOLUME_MAGIC: seq<byte> := [84, 70, 68, 66, 86, 79, 76, 49]      // "TFDBVOL1"
  const PARTITION_MAGIC: seq<byte> := [84, 70, 68, 66, 80, 65, 82, 49]   // "TFDBPAR1"

  /** The volume header: 256 bytes, CRC at 72. */
  lemma {:induction false} VolumeHeaderDamage(x: seq<byte>, y: seq<byte>, i: nat)
    requires DifferAt(x, y, i) && i < 256
    ensures CommonCheck(x, VOLUME_MAGIC, 256, 72).Err? || CommonCheck(y, VOLUME_MAGIC, 256, 72).Err?
  {
    OneByteRefused(x, y, i, VOLUME_MAGIC, 256, 72);
  }

  /** The partition header: 1024 bytes, CRC at 104. */
  lemma {:induction false} PartitionHeaderDamage(x: seq<byte>, y: seq<byte>, i: nat)
    requires DifferAt(x, y, i) && i < 1024
    ensures CommonCheck(x, PARTITION_MAGIC, 1024, 104).Err? || CommonCheck(y, PARTITION_MAGIC, 1024, 104).Err?
  {
    OneByteRefused(x, y, i, PARTITION_MAGIC, 1024, 104);
  }

  /** A byte inside the CRC field changes the stored value, any other byte the computed one. */
  lemma {:induction false} ChecksumsDiffer(x: seq<byte>, y: seq<byte>, i: nat, crcOffset: nat)
    requires |x| == |y| && i < |x| && crcOffset + 4 <= |x| && x[i] != y[i]
    requires forall j :: 0 <= j < |x| && j != i ==> x[j] == y[j]
    ensures CrcWord(Zeroed(x, crcOffset)) != Read(x, crcOffset, 4)
         || CrcWord(Zeroed(y, crcOffset)) != Read(y, crcOffset, 4)
  {
    if crcOffset <= i < crcOffset + 4 {
      StoredDiffer(x[crcOffset..crcOffset + 4], y[crcOffset..crcOffset + 4], i - crcOffset);
      assert Zeroed(x, crcOffset) == Zeroed(y, crcOffset);
    } else {
      assert x[crcOffset..crcOffset + 4] == y[crcOffset..crcOffset + 4];
      assert DifferAt(Zeroed(x, crcOffset), Zeroed(y, crcOffset), i);
      ComputedDiffer(Zeroed(x, crcOffset), Zeroed(y, crcOffset), i);
    }
  }

  lemma {:induction false} StoredDiffer(x: seq<byte>, y: seq<byte>, i: nat)
    requires |x| == |y| && i < |x| && x[i] != y[i]
    ensures Value(x) != Value(y)
  {
    ValueThenLittle(x);
    ValueThenLittle(y);
  }

  lemma {:induction false} ComputedDiffer(x: seq<byte>, y: seq<byte>, i: nat)
    requires DifferAt(x, y, i)
    ensures CrcWord(x) != CrcWord(y)
  {
    OneByteDetected(x, y, i);
    if CrcWord(x) == CrcWord(y) {
      SameWord(Crc(x), Crc(y));
    }
  }

  // -------------------------------------------------------- encoding in place

  /** Checksums the filled buffer, whose CRC field is zero, and stores the result. */
  method FinishCrc(out: array<byte>, offset: nat, ghost fields: seq<Field>, ghost k: nat)
    requires Tiled(fields) && k < |fields| && fields[k] == Field(offset, 4, 0)
    requires out[..] == Pack(fields) && offset + 4 <= out.Length
    modifies out
    ensures out[..] == Finished(fields, k)
  {
    var crc := CrcByTable(out[..]);
    PackPatched(fields, k, crc as int);
    Patch(out, offset, 4, crc as int);
  }
}
