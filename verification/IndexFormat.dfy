/** The index region of a sealed partition: 48-byte entries, one per block, one after the other. */
module IndexFormat {
  import opened Bytes
  import Media
  import opened Layout
  import opened Formats

  const SIZE := 48

  /** The serialized part of an entry; the writer's chain state is not stored. */
  datatype IndexEntry = IndexEntry(
    offset: u64, frameSize: u32, frameSpan: u32, sequence: u32, recordCount: u32,
    minTime: i64, maxTime: i64, flags: u32, rawSize: u32)

  function Fields(e: IndexEntry): (fs: seq<Field>)
    ensures |fs| == 9
  {
    [Field(0, 8, e.offset), Field(8, 4, e.frameSize), Field(12, 4, e.frameSpan), Field(16, 4, e.sequence),
     Field(20, 4, e.recordCount), Field(24, 8, Unsigned(e.minTime)), Field(32, 8, Unsigned(e.maxTime)),
     Field(40, 4, e.flags), Field(44, 4, e.rawSize)]
  }

  function EncodedEntry(e: IndexEntry): seq<byte> {
    Pack(Fields(e))
  }

  function FieldsRead(b: seq<byte>): IndexEntry
    requires |b| >= SIZE
  {
    IndexEntry(Read64(b, 0), Read32(b, 8), Read32(b, 12), Read32(b, 16), Read32(b, 20),
               ReadTime(b, 24), ReadTime(b, 32), Read32(b, 40), Read32(b, 44))
  }

  predicate InBounds(e: IndexEntry) {
    Media.BLOCK_HEADER <= e.frameSize <= e.frameSpan && e.recordCount != 0 && e.minTime <= e.maxTime
  }

  function DecodeEntry(bytes: seq<byte>): Result<IndexEntry> {
    if |bytes| < SIZE then Err(Corrupt)
    else if InBounds(FieldsRead(bytes)) then Ok(FieldsRead(bytes))
    else Err(Corrupt)
  }

  lemma {:induction false} FieldsTiled(e: IndexEntry)
    ensures Tiled(Fields(e)) && End(Fields(e)) == SIZE
  {
  }

  lemma {:induction false} FieldsFit(e: IndexEntry)
    ensures Fits(Fields(e))
  {
    Ranges();
  }

  // --------------------------------------------------------------- on the wire

  predicate EntryFields(fs: seq<Field>, e: IndexEntry) {
    && |fs| == 9
    && fs[0] == Field(0, 8, e.offset) && fs[1] == Field(8, 4, e.frameSize) && fs[2] == Field(12, 4, e.frameSpan)
    && fs[3] == Field(16, 4, e.sequence) && fs[4] == Field(20, 4, e.recordCount)
    && fs[5] == Field(24, 8, Unsigned(e.minTime)) && fs[6] == Field(32, 8, Unsigned(e.maxTime))
    && fs[7] == Field(40, 4, e.flags) && fs[8] == Field(44, 4, e.rawSize)
  }

  lemma {:induction false} EntryFieldsHold(fs: seq<Field>, e: IndexEntry)
    requires fs == Fields(e)
    ensures EntryFields(fs, e)
  {
  }

  /** An entry: where the block is, its sizes, sequence, count, times, flags and raw size. */
  lemma {:induction false} EntryBytes(e: IndexEntry, fs: seq<Field>, b: seq<byte>)
    requires fs == Fields(e) && b == EncodedEntry(e)
    ensures |b| == SIZE
    ensures
      && b[0..8] == Little(e.offset, 8) && b[8..12] == Little(e.frameSize, 4)
      && b[12..16] == Little(e.frameSpan, 4) && b[16..20] == Little(e.sequence, 4)
      && b[20..24] == Little(e.recordCount, 4) && b[24..32] == Little(Unsigned(e.minTime), 8)
      && b[32..40] == Little(Unsigned(e.maxTime), 8) && b[40..44] == Little(e.flags, 4)
      && b[44..48] == Little(e.rawSize, 4)
  {
    FieldsTiled(e);
    EntryFieldsHold(fs, e);
    EntryLaid(e, fs, b);
  }

  lemma {:induction false} EntryLaid(e: IndexEntry, fs: seq<Field>, b: seq<byte>)
    requires Tiled(fs) && End(fs) == SIZE && EntryFields(fs, e) && b == Pack(fs)
    ensures |b| == SIZE
    ensures
      && b[0..8] == Little(e.offset, 8) && b[8..12] == Little(e.frameSize, 4)
      && b[12..16] == Little(e.frameSpan, 4) && b[16..20] == Little(e.sequence, 4)
      && b[20..24] == Little(e.recordCount, 4) && b[24..32] == Little(Unsigned(e.minTime), 8)
      && b[32..40] == Little(Unsigned(e.maxTime), 8) && b[40..44] == Little(e.flags, 4)
      && b[44..48] == Little(e.rawSize, 4)
  {
    FieldBytes(fs, 0);
    FieldBytes(fs, 1);
    FieldBytes(fs, 2);
    FieldBytes(fs, 3);
    FieldBytes(fs, 4);
    FieldBytes(fs, 5);
    FieldBytes(fs, 6);
    FieldBytes(fs, 7);
    FieldBytes(fs, 8);
  }

  lemma {:induction false} DescribedIsRead(e: IndexEntry, b: seq<byte>)
    requires |b| >= SIZE && Tiled(Fields(e)) && End(Fields(e)) == SIZE && Describes(Fields(e), b)
    ensures FieldsRead(b) == e
  {
    var fs := Fields(e);
    assert && fs[0].offset == 0 && fs[1].offset == 8 && fs[2].offset == 12 && fs[3].offset == 16 && fs[4].offset == 20
           && fs[5].offset == 24 && fs[6].offset == 32 && fs[7].offset == 40 && fs[8].offset == 44;
  }

  /** Decoding inverts encoding, whatever follows, exactly for the entries within bounds. */
  lemma {:induction false} DecodeEncodedEntry(e: IndexEntry, tail: seq<byte>)
    ensures |EncodedEntry(e)| == SIZE
    ensures DecodeEntry(EncodedEntry(e) + tail) ==
            if 128 <= e.frameSize <= e.frameSpan && e.recordCount > 0 && e.minTime <= e.maxTime
            then Ok(e) else Err(Corrupt)
  {
    FieldsTiled(e);
    FieldsFit(e);
    PackedDescribes(Fields(e), tail);
    DescribedIsRead(e, EncodedEntry(e) + tail);
  }

  lemma {:induction false} ReadIsField(b: seq<byte>, k: nat)
    requires |b| >= SIZE && k < 9
    ensures var f := Fields(FieldsRead(b))[k]; f.offset + f.width <= SIZE && f.value == Read(b, f.offset, f.width)
  {
  }

  /** Any 48 bytes are the encoding of the entry read from them. */
  lemma {:induction false} EncodeDecodedEntry(bytes: seq<byte>)
    requires |bytes| >= SIZE
    ensures EncodedEntry(FieldsRead(bytes)) == bytes[..SIZE]
  {
    var fs := Fields(FieldsRead(bytes));
    FieldsTiled(FieldsRead(bytes));
    forall k | 0 <= k < |fs|
      ensures (FieldInside(fs, k); fs[k].value == Read(bytes, fs[k].offset, fs[k].width))
    {
      ReadIsField(bytes, k);
    }
    PackRead(fs, bytes);
  }

  // ------------------------------------------------------------------ the index

  function EncodedIndex(entries: seq<IndexEntry>): seq<byte> {
    if entries == [] then []
    else EncodedIndex(entries[..|entries| - 1]) + EncodedEntry(entries[|entries| - 1])
  }

  lemma {:induction false} IndexLength(entries: seq<IndexEntry>)
    ensures |EncodedIndex(entries)| == SIZE * |entries|
    decreases |entries|
  {
    if entries != [] {
      IndexLength(entries[..|entries| - 1]);
      DecodeEncodedEntry(entries[|entries| - 1], []);
      assert EncodedEntry(entries[|entries| - 1]) + [] == EncodedEntry(entries[|entries| - 1]);
    }
  }

  lemma {:induction false} EntryInIndex(entries: seq<IndexEntry>, i: nat)
    requires i < |entries|
    ensures |EncodedIndex(entries)| == SIZE * |entries|
    ensures EncodedIndex(entries)[SIZE * i..SIZE * i + SIZE] == EncodedEntry(entries[i])
    decreases |entries|
  {
    var n := |entries| - 1;
    IndexLength(entries);
    IndexLength(entries[..n]);
    if i < n {
      EntryInIndex(entries[..n], i);
      assert EncodedIndex(entries)[SIZE * i..SIZE * i + SIZE] == EncodedIndex(entries[..n])[SIZE * i..SIZE * i + SIZE];
    }
  }

  predicate AllInBounds(es: seq<IndexEntry>) {
    forall i :: 0 <= i < |es| ==> InBounds(es[i])
  }

  /** Decodes whole entries; one bad entry refuses the index. */
  method DecodeIndex(bytes: seq<byte>) returns (r: Result<seq<IndexEntry>>)
    ensures r.Ok? ==> EncodedIndex(r.value) == bytes && AllInBounds(r.value)
    ensures r.Err? ==> r.error == Corrupt
    ensures r.Err? ==> forall es :: EncodedIndex(es) == bytes ==> !AllInBounds(es)
  {
    if |bytes| % SIZE != 0 {
      NoIndex(bytes);
      return Err(Corrupt);
    }
    var offset := 0;
    var entries: seq<IndexEntry> := [];
    while offset != |bytes|
      invariant offset == SIZE * |entries| <= |bytes|
      invariant EncodedIndex(entries) == bytes[..offset]
      invariant AllInBounds(entries)
      decreases |bytes| - offset
    {
      var part := bytes[offset..offset + SIZE];
      EncodeDecodedEntry(part);
      var entry := DecodeEntry(part);
      if entry.Err? {
        BadEntry(bytes, |entries|);
        return Err(Corrupt);
      }
      IndexGrows(bytes, entries, entry.value, offset);
      entries, offset := entries + [entry.value], offset + SIZE;
    }
    assert bytes[..offset] == bytes;
    return Ok(entries);
  }

  lemma {:induction false} NoIndex(bytes: seq<byte>)
    requires |bytes| % SIZE != 0
    ensures forall es :: EncodedIndex(es) != bytes
  {
    forall es: seq<IndexEntry>
      ensures EncodedIndex(es) != bytes
    {
      IndexLength(es);
    }
  }

  lemma {:induction false} IndexGrows(bytes: seq<byte>, entries: seq<IndexEntry>, e: IndexEntry, offset: nat)
    requires offset + SIZE <= |bytes| && EncodedIndex(entries) == bytes[..offset]
    requires EncodedEntry(e) == bytes[offset..offset + SIZE][..SIZE]
    ensures EncodedIndex(entries + [e]) == bytes[..offset + SIZE]
  {
    assert bytes[..offset + SIZE] == bytes[..offset] + bytes[offset..offset + SIZE];
    assert (entries + [e])[..|entries|] == entries;
  }

  lemma {:induction false} BadEntry(bytes: seq<byte>, k: nat)
    requires SIZE * k + SIZE <= |bytes| && DecodeEntry(bytes[SIZE * k..SIZE * k + SIZE]).Err?
    ensures forall es :: EncodedIndex(es) == bytes ==> exists i :: 0 <= i < |es| && !InBounds(es[i])
  {
    forall es: seq<IndexEntry> | EncodedIndex(es) == bytes
      ensures exists i :: 0 <= i < |es| && !InBounds(es[i])
    {
      IndexLength(es);
      EntryInIndex(es, k);
      DecodeEncodedEntry(es[k], []);
      assert EncodedEntry(es[k]) + [] == EncodedEntry(es[k]);
    }
  }

  /** Different indexes have different encodings. */
  lemma {:induction false} IndexUnambiguous(a: seq<IndexEntry>, b: seq<IndexEntry>)
    requires EncodedIndex(a) == EncodedIndex(b)
    ensures a == b
  {
    IndexLength(a);
    IndexLength(b);
    forall i | 0 <= i < |a|
      ensures a[i] == b[i]
    {
      EntryInIndex(a, i);
      EntryInIndex(b, i);
      EntryUnambiguous(a[i], b[i]);
    }
  }

  lemma {:induction false} EntryUnambiguous(a: IndexEntry, b: IndexEntry)
    requires EncodedEntry(a) == EncodedEntry(b)
    ensures a == b
  {
    FieldsTiled(a);
    FieldsFit(a);
    PackedDescribes(Fields(a), []);
    DescribedIsRead(a, EncodedEntry(a) + []);
    FieldsTiled(b);
    FieldsFit(b);
    PackedDescribes(Fields(b), []);
    DescribedIsRead(b, EncodedEntry(b) + []);
  }

  // ---------------------------------------------------------- encoding in place

  lemma {:induction false} IndexSplit(entries: seq<IndexEntry>, i: nat)
    requires i < |entries|
    ensures EncodedIndex(entries[..i + 1]) == EncodedIndex(entries[..i]) + EncodedEntry(entries[i])
  {
    assert entries[..i + 1][..i] == entries[..i];
  }

  method EncodeEntry(e: IndexEntry) returns (out: array<byte>)
    ensures fresh(out) && out[..] == EncodedEntry(e)
  {
    FieldsTiled(e);
    out := PutStructure(Fields(e));
  }

  method EncodeIndex(entries: seq<IndexEntry>) returns (out: seq<byte>)
    ensures out == EncodedIndex(entries)
  {
    out := [];
    for i := 0 to |entries|
      invariant out == EncodedIndex(entries[..i])
    {
      IndexSplit(entries, i);
      var part := EncodeEntry(entries[i]);
      out := out + part[..];
    }
    assert entries[..|entries|] == entries;
  }
}
