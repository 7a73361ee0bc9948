/**
  Fixed little-endian layouts: fields at stated offsets, how a buffer is filled with them, and why
  reading the fields back inverts writing them, in both directions, for every layout without holes.
 */
module Layout {
  import opened Bytes
  import opened Crc32c

  // -------------------------------------------------------- little-endian words

  /** How many values fit in `width` bytes. */
  function Range(width: nat): (r: nat)
    ensures r > 0
  {
    if width == 0 then 1 else 256 * Range(width - 1)
  }

  function Little(value: nat, width: nat): (bytes: seq<byte>)
    ensures |bytes| == width
  {
    if width == 0 then [] else [value % 256] + Little(value / 256, width - 1)
  }

  function Value(bytes: seq<byte>): nat {
    if bytes == [] then 0 else bytes[0] + 256 * Value(bytes[1..])
  }

  function Read(bytes: seq<byte>, offset: nat, width: nat): nat
    requires offset + width <= |bytes|
  {
    Value(bytes[offset..offset + width])
  }

  lemma {:induction false} ValueBounded(bytes: seq<byte>)
    ensures Value(bytes) < Range(|bytes|)
    decreases |bytes|
  {
    if bytes != [] {
      ValueBounded(bytes[1..]);
    }
  }

  lemma {:induction false} LittleThenValue(value: nat, width: nat)
    requires value < Range(width)
    ensures Value(Little(value, width)) == value
    decreases width
  {
    if width > 0 {
      LittleThenValue(value / 256, width - 1);
      assert Little(value, width)[1..] == Little(value / 256, width - 1);
    }
  }

  lemma {:induction false} LowDigit(b: byte, v: nat)
    ensures (b + 256 * v) % 256 == b && (b + 256 * v) / 256 == v
  {
  }

  lemma {:induction false} ValueThenLittle(bytes: seq<byte>)
    ensures Little(Value(bytes), |bytes|) == bytes
    decreases |bytes|
  {
    if bytes != [] {
      ValueThenLittle(bytes[1..]);
      LowDigit(bytes[0], Value(bytes[1..]));
      assert bytes == [bytes[0]] + bytes[1..];
    }
  }

  lemma {:induction false} ValueSnoc(bytes: seq<byte>, b: byte)
    ensures Value(bytes + [b]) == Value(bytes) + b * Range(|bytes|)
    decreases |bytes|
  {
    if bytes == [] {
      assert [b][1..] == [];
    } else {
      ValueSnoc(bytes[1..], b);
      assert (bytes + [b])[1..] == bytes[1..] + [b];
      Spread(Value(bytes[1..]), b, Range(|bytes| - 1));
    }
  }

  lemma {:induction false} Spread(v: nat, b: nat, r: nat)
    ensures 256 * (v + b * r) == 256 * v + b * (256 * r)
  {
  }

  lemma {:induction false} LittleSnoc(value: nat, width: nat)
    ensures Little(value, width + 1) == Little(value, width) + [(value / Range(width)) % 256]
    decreases width
  {
    if width > 0 {
      LittleSnoc(value / 256, width - 1);
      DivideTwice(value, Range(width - 1));
    }
  }

  lemma {:induction false} DivideTwice(v: nat, r: nat)
    requires r > 0
    ensures v / 256 / r == v / (256 * r)
  {
    var q := v / 256 / r;
    var low := v - 256 * (r * q);
    assert v / 256 == r * q + v / 256 % r;
    assert v / 256 % r <= r - 1;
    assert 0 <= low < 256 * r;
    QuotientUnique(v, 256 * r, q, low);
  }

  lemma {:induction false} QuotientUnique(v: nat, d: nat, q: nat, low: nat)
    requires v == d * q + low && low < d
    ensures v / d == q
  {
    var p := v / d;
    assert p < q ==> d * (p + 1) <= d * q;
    assert p > q ==> d * (q + 1) <= d * p;
  }

  // ------------------------------------------------------------------- layouts

  datatype Field = Field(offset: nat, width: nat, value: nat)

  function End(fields: seq<Field>): nat {
    if fields == [] then 0 else fields[|fields| - 1].offset + fields[|fields| - 1].width
  }

  predicate Joined(fields: seq<Field>, i: nat)
    requires i < |fields|
  {
    fields[i].offset == if i == 0 then 0 else fields[i - 1].offset + fields[i - 1].width
  }

  /** Every field starts where the one before it ends. */
  ghost predicate Tiled(fields: seq<Field>) {
    forall i {:trigger Joined(fields, i)} :: 0 <= i < |fields| ==> Joined(fields, i)
  }

  ghost predicate Fits(fields: seq<Field>) {
    forall i :: 0 <= i < |fields| ==> fields[i].value < Range(fields[i].width)
  }

  function Pack(fields: seq<Field>): seq<byte> {
    if fields == [] then []
    else
      var last := fields[|fields| - 1];
      Pack(fields[..|fields| - 1]) + Little(last.value, last.width)
  }

  lemma {:induction false} TiledInit(fields: seq<Field>)
    requires Tiled(fields) && fields != []
    ensures var init := fields[..|fields| - 1]; Tiled(init) && End(init) == fields[|fields| - 1].offset
  {
    assert Joined(fields, |fields| - 1);
    TiledTake(fields, |fields| - 1);
  }

  lemma {:induction false} TiledTake(fields: seq<Field>, n: nat)
    requires Tiled(fields) && n <= |fields|
    ensures Tiled(fields[..n])
  {
    forall i | 0 <= i < n
      ensures Joined(fields[..n], i)
    {
      assert Joined(fields, i);
    }
  }

  /** Tiling does not depend on the values. */
  lemma {:induction false} TiledUpdate(fields: seq<Field>, k: nat, value: nat)
    requires Tiled(fields) && k < |fields|
    ensures var patched := fields[k := Field(fields[k].offset, fields[k].width, value)];
            Tiled(patched) && End(patched) == End(fields)
  {
    var patched := fields[k := Field(fields[k].offset, fields[k].width, value)];
    forall i | 0 <= i < |fields|
      ensures Joined(patched, i)
    {
      assert Joined(fields, i);
    }
  }

  lemma {:induction false} PackLength(fields: seq<Field>)
    requires Tiled(fields)
    ensures |Pack(fields)| == End(fields)
    decreases |fields|
  {
    if fields != [] {
      TiledInit(fields);
      PackLength(fields[..|fields| - 1]);
    }
  }

  lemma {:induction false} FieldInside(fields: seq<Field>, k: nat)
    requires Tiled(fields) && k < |fields|
    ensures fields[k].offset + fields[k].width <= End(fields)
    decreases |fields|
  {
    var n := |fields| - 1;
    TiledInit(fields);
    if k < n {
      FieldInside(fields[..n], k);
    }
  }

  lemma {:induction false} ReadConcat(a: seq<byte>, b: seq<byte>, offset: nat, width: nat)
    ensures offset + width <= |a| ==> Read(a + b, offset, width) == Read(a, offset, width)
    ensures offset == |a| && width == |b| ==> Read(a + b, offset, width) == Value(b)
  {
    if offset + width <= |a| {
      assert (a + b)[offset..offset + width] == a[offset..offset + width];
    }
    if offset == |a| && width == |b| {
      assert (a + b)[offset..offset + width] == b;
    }
  }

  /** Every field of a packed layout reads back. */
  lemma {:induction false} ReadPacked(fields: seq<Field>, k: nat)
    requires Tiled(fields) && Fits(fields) && k < |fields|
    ensures |Pack(fields)| == End(fields) && fields[k].offset + fields[k].width <= End(fields)
    ensures Read(Pack(fields), fields[k].offset, fields[k].width) == fields[k].value
    decreases |fields|
  {
    var n := |fields| - 1;
    var init := fields[..n];
    TiledInit(fields);
    PackLength(fields);
    PackLength(init);
    FieldInside(fields, k);
    ReadConcat(Pack(init), Little(fields[n].value, fields[n].width), fields[k].offset, fields[k].width);
    if k == n {
      LittleThenValue(fields[n].value, fields[n].width);
    } else {
      FieldInside(init, k);
      ReadPacked(init, k);
    }
  }

  /** Every field of a packed layout is at its place, low byte first. */
  lemma {:induction false} FieldBytes(fields: seq<Field>, k: nat)
    requires Tiled(fields) && k < |fields|
    ensures |Pack(fields)| == End(fields) && fields[k].offset + fields[k].width <= End(fields)
    ensures Pack(fields)[fields[k].offset..fields[k].offset + fields[k].width] ==
            Little(fields[k].value, fields[k].width)
    decreases |fields|
  {
    var n := |fields| - 1;
    var init, last := fields[..n], Little(fields[n].value, fields[n].width);
    TiledInit(fields);
    PackLength(fields);
    PackLength(init);
    FieldInside(fields, k);
    if k < n {
      FieldInside(init, k);
      FieldBytes(init, k);
      SliceOfFirst(Pack(init), last, init[k].offset, init[k].width);
    } else {
      SliceOfSecond(Pack(init), last);
    }
  }

  lemma {:induction false} SliceOfFirst(a: seq<byte>, b: seq<byte>, offset: nat, width: nat)
    requires offset + width <= |a|
    ensures (a + b)[offset..offset + width] == a[offset..offset + width]
  {
  }

  lemma {:induction false} SliceOfSecond(a: seq<byte>, b: seq<byte>)
    ensures (a + b)[|a|..|a| + |b|] == b
  {
  }

  /** The fields hold what the bytes say. */
  ghost predicate Describes(fields: seq<Field>, bytes: seq<byte>)
    requires Tiled(fields) && |bytes| >= End(fields)
  {
    forall k :: 0 <= k < |fields| ==>
      (FieldInside(fields, k); fields[k].value == Read(bytes, fields[k].offset, fields[k].width))
  }

  /** Packing the fields that were read gives back the bytes: a tiled layout has no other encoding. */
  lemma {:induction false} PackRead(fields: seq<Field>, bytes: seq<byte>)
    requires Tiled(fields) && |bytes| >= End(fields) && Describes(fields, bytes)
    ensures Pack(fields) == bytes[..End(fields)]
    decreases |fields|
  {
    if fields != [] {
      var n := |fields| - 1;
      var init := fields[..n];
      TiledInit(fields);
      forall k | 0 <= k < n
        ensures (FieldInside(init, k); init[k].value == Read(bytes, init[k].offset, init[k].width))
      {
        assert fields[k] == init[k];
      }
      PackRead(init, bytes);
      var last := fields[n];
      assert last.value == Read(bytes, last.offset, last.width);
      ValueThenLittle(bytes[last.offset..last.offset + last.width]);
      assert bytes[..End(fields)] == bytes[..End(init)] + bytes[last.offset..last.offset + last.width];
    }
  }

  lemma {:induction false} ZeroWord()
    ensures Little(0, 4) == [0, 0, 0, 0]
  {
    assert Little(0, 2) == [0, 0];
    assert Little(0, 4) == [0, 0] + Little(0, 2);
  }

  function Patched(bytes: seq<byte>, offset: nat, word: seq<byte>): (r: seq<byte>)
    requires offset + |word| <= |bytes|
    ensures |r| == |bytes|
  {
    bytes[..offset] + (word + bytes[offset + |word|..])
  }

  lemma {:induction false} PatchedConcat(a: seq<byte>, b: seq<byte>, offset: nat, word: seq<byte>)
    requires offset + |word| <= |a|
    ensures Patched(a + b, offset, word) == Patched(a, offset, word) + b
  {
    assert (a + b)[..offset] == a[..offset];
    assert (a + b)[offset + |word|..] == a[offset + |word|..] + b;
  }

  /** Overwriting the bytes of one field is packing another value there. */
  lemma {:induction false} PackPatched(fields: seq<Field>, k: nat, value: nat)
    requires Tiled(fields) && k < |fields|
    ensures |Pack(fields)| == End(fields) && fields[k].offset + fields[k].width <= End(fields)
    ensures Pack(fields[k := Field(fields[k].offset, fields[k].width, value)]) ==
            Patched(Pack(fields), fields[k].offset, Little(value, fields[k].width))
    decreases |fields|
  {
    var n := |fields| - 1;
    var init := fields[..n];
    TiledInit(fields);
    var f := Field(fields[k].offset, fields[k].width, value);
    PackLength(fields);
    PackLength(init);
    FieldInside(fields, k);
    if k == n {
      assert fields[k := f][..n] == init;
      assert Pack(fields)[..f.offset] == Pack(init);
      assert Pack(fields)[f.offset + f.width..] == [];
    } else {
      FieldInside(init, k);
      PackPatched(init, k, value);
      assert fields[k := f][..n] == init[k := f];
      PatchedConcat(Pack(init), Little(fields[n].value, fields[n].width), f.offset, Little(value, f.width));
    }
  }

  /** Clearing a four-byte field is packing it as zero. */
  lemma {:induction false} PackZeroed(fields: seq<Field>, k: nat)
    requires Tiled(fields) && k < |fields| && fields[k].width == 4
    ensures |Pack(fields)| == End(fields) && fields[k].offset + 4 <= End(fields)
    ensures Pack(fields[k := Field(fields[k].offset, 4, 0)]) == Zeroed(Pack(fields), fields[k].offset)
  {
    PackPatched(fields, k, 0);
    ZeroWord();
  }

  lemma {:induction false} ReadPrefix(bytes: seq<byte>, size: nat, offset: nat, width: nat)
    requires offset + width <= size <= |bytes|
    ensures Read(bytes[..size], offset, width) == Read(bytes, offset, width)
  {
    assert bytes[..size][offset..offset + width] == bytes[offset..offset + width];
  }

  // ------------------------------------------------------- buffers in place

  function Zeros(n: nat): (r: seq<byte>)
    ensures |r| == n
  {
    seq(n, _ => 0)
  }

  /** The first `k` fields are in place, and zeros behind them. */
  ghost predicate Filled(buffer: seq<byte>, all: seq<Field>, k: nat)
    requires k <= |all|
  {
    var packed := Pack(all[..k]);
    |packed| <= |buffer| && buffer == packed + Zeros(|buffer| - |packed|)
  }

  lemma {:induction false} PatchZeros(packed: seq<byte>, size: nat, word: seq<byte>)
    requires |packed| + |word| <= size
    ensures Patched(packed + Zeros(size - |packed|), |packed|, word) ==
            (packed + word) + Zeros(size - |packed| - |word|)
  {
  }

  lemma {:induction false} PackNext(all: seq<Field>, k: nat)
    requires Tiled(all) && k < |all|
    ensures |Pack(all[..k])| == all[k].offset && all[k].offset + all[k].width <= End(all)
    ensures Pack(all[..k + 1]) == Pack(all[..k]) + Little(all[k].value, all[k].width)
  {
    TiledTake(all, k + 1);
    TiledInit(all[..k + 1]);
    assert all[..k + 1][..k] == all[..k];
    PackLength(all[..k]);
    FieldInside(all, k);
  }

  lemma {:induction false} FilledNext(before: seq<byte>, after: seq<byte>, all: seq<Field>, k: nat)
    requires Tiled(all) && k < |all| && End(all) <= |before| && Filled(before, all, k)
    requires all[k].offset + all[k].width <= |before|
    requires after == Patched(before, all[k].offset, Little(all[k].value, all[k].width))
    ensures Filled(after, all, k + 1)
  {
    PackNext(all, k);
    PatchZeros(Pack(all[..k]), |before|, Little(all[k].value, all[k].width));
  }

  /** Writes a word low byte first. */
  method Put(out: array<byte>, offset: nat, width: nat, value: nat)
    requires offset + width <= out.Length
    modifies out
    ensures out[..offset] == old(out[..offset])
    ensures out[offset..offset + width] == Little(value, width)
    ensures out[offset + width..] == old(out[offset + width..])
  {
    for i := 0 to width
      invariant out[..offset] == old(out[..offset])
      invariant out[offset..offset + i] == Little(value, i)
      invariant out[offset + i..] == old(out[offset + i..])
    {
      LittleSnoc(value, i);
      ghost var before := out[..];
      out[offset + i] := (value / Range(i)) % 256;
      assert out[..offset] == before[..offset];
      assert out[offset..offset + i + 1] == before[offset..offset + i] + [out[offset + i]];
      assert out[offset + i + 1..] == before[offset + i..][1..];
    }
  }

  /** Overwrites a word that is already there. */
  method Patch(out: array<byte>, offset: nat, width: nat, value: nat)
    requires offset + width <= out.Length
    modifies out
    ensures out[..] == Patched(old(out[..]), offset, Little(value, width))
  {
    ghost var before := out[..];
    Put(out, offset, width, value);
    assert out[..] == out[..offset] + (out[offset..offset + width] + out[offset + width..]);
    assert before[..offset] == old(out[..offset]) && before[offset + width..] == old(out[offset + width..]);
  }

  method CopyIn(out: array<byte>, offset: nat, bytes: seq<byte>)
    requires offset + |bytes| <= out.Length
    modifies out
    ensures out[..] == Patched(old(out[..]), offset, bytes)
  {
    ghost var before := out[..];
    for i := 0 to |bytes|
      invariant out[..offset] == before[..offset]
      invariant out[offset..offset + i] == bytes[..i]
      invariant out[offset + i..] == before[offset + i..]
    {
      ghost var was := out[..];
      out[offset + i] := bytes[i];
      assert out[..offset] == was[..offset];
      assert out[offset..offset + i + 1] == was[offset..offset + i] + [bytes[i]];
      assert out[offset + i + 1..] == was[offset + i..][1..];
    }
    assert bytes[..|bytes|] == bytes;
    assert out[..] == out[..offset] + (out[offset..offset + |bytes|] + out[offset + |bytes|..]);
  }

  /** The puts of an encoder into a zeroed buffer: the first `n` fields, each at its own offset. */
  method PutAll(out: array<byte>, fields: seq<Field>, n: nat)
    requires Tiled(fields) && n <= |fields| && End(fields) <= out.Length && out[..] == Zeros(out.Length)
    modifies out
    ensures Filled(out[..], fields, n)
  {
    assert out[..] == Pack(fields[..0]) + Zeros(out.Length);
    for i := 0 to n
      invariant Filled(out[..], fields, i)
    {
      FieldInside(fields, i);
      ghost var before := out[..];
      Patch(out, fields[i].offset, fields[i].width, fields[i].value);
      FilledNext(before, out[..], fields, i);
    }
  }

  method NewBuffer(size: nat) returns (out: array<byte>)
    ensures fresh(out) && out.Length == size && out[..] == Zeros(size)
  {
    out := new byte[size](_ => 0);
  }

  /** A whole structure. */
  method PutStructure(fields: seq<Field>) returns (out: array<byte>)
    requires Tiled(fields)
    ensures fresh(out) && out[..] == Pack(fields)
  {
    out := NewBuffer(End(fields));
    PutAll(out, fields, |fields|);
    assert fields[..|fields|] == fields;
    PackLength(fields);
  }

  /** Reads a word low byte first; the shifted bytes do not overlap, so combining them adds them. */
  method Get(bytes: seq<byte>, offset: nat, width: nat) returns (value: nat)
    requires offset + width <= |bytes|
    ensures value == Read(bytes, offset, width)
  {
    value := 0;
    for i := 0 to width
      invariant value == Value(bytes[offset..offset + i])
    {
      ValueSnoc(bytes[offset..offset + i], bytes[offset + i]);
      assert bytes[offset..offset + i + 1] == bytes[offset..offset + i] + [bytes[offset + i]];
      value := value + bytes[offset + i] * Range(i);
    }
  }
}
