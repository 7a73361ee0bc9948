/**
  CRC32C with the reflected Castagnoli polynomial of section 12.1 of RFC 3720: the bitwise form, the
  table-driven incremental form that must agree with it, and what a checksum of this kind detects.
 */
module Crc32c {
  import opened Bytes

  // ------------------------------------------------------------ bitwise form

  /** One bit of polynomial division. */
  function Shift(v: bv32): bv32 {
    if v & 1 == 0 then v >> 1 else (v >> 1) ^ 0x82f63b78
  }

  function Iterate<T>(f: T -> T, v: T, n: nat): T {
    if n == 0 then v else f(Iterate(f, v, n - 1))
  }

  const BITS: nat := 8

  function Bits(b: byte): bv32 {
    (b as bv8) as bv32
  }

  function ByteStep(state: bv32, b: byte): bv32 {
    Iterate(Shift, state ^ Bits(b), BITS)
  }

  function FoldWith(step: (bv32, byte) -> bv32, state: bv32, bytes: seq<byte>): bv32 {
    if bytes == [] then state else step(FoldWith(step, state, bytes[..|bytes| - 1]), bytes[|bytes| - 1])
  }

  function Fold(state: bv32, bytes: seq<byte>): bv32 {
    FoldWith(ByteStep, state, bytes)
  }

  const INIT: bv32 := 0xffff_ffff

  function Finish(state: bv32): bv32 {
    state ^ 0xffff_ffff
  }

  function Crc(bytes: seq<byte>): bv32 {
    Finish(Fold(INIT, bytes))
  }

  lemma {:induction false} FoldSnoc(step: (bv32, byte) -> bv32, state: bv32, bytes: seq<byte>, i: nat)
    requires i < |bytes|
    ensures FoldWith(step, state, bytes[..i + 1]) == step(FoldWith(step, state, bytes[..i]), bytes[i])
  {
    assert bytes[..i + 1][..i] == bytes[..i];
  }

  /** Eight single-bit steps, one after the other. */
  method StepBitwise(state: bv32, b: byte) returns (value: bv32)
    ensures value == ByteStep(state, b)
  {
    value := state ^ Bits(b);
    for bit := 0 to BITS
      invariant value == Iterate(Shift, state ^ Bits(b), bit)
    {
      value := Shift(value);
    }
  }

  /** The simple form: one bit at a time. */
  method CrcBitwise(bytes: seq<byte>) returns (value: bv32)
    ensures value == Crc(bytes)
  {
    value := INIT;
    for i := 0 to |bytes|
      invariant value == Fold(INIT, bytes[..i])
    {
      FoldSnoc(ByteStep, INIT, bytes, i);
      value := StepBitwise(value, bytes[i]);
    }
    assert bytes[..|bytes|] == bytes;
    value := Finish(value);
  }

  // --------------------------------------------------------- the check value

  /** A byte step, given every state it passes through. */
  lemma {:induction false} StepIs(state: bv32, b: byte, vs: seq<bv32>)
    requires |vs| == 9 && vs[0] == state ^ Bits(b)
    requires vs[1] == Shift(vs[0]) && vs[2] == Shift(vs[1]) && vs[3] == Shift(vs[2]) && vs[4] == Shift(vs[3])
    requires vs[5] == Shift(vs[4]) && vs[6] == Shift(vs[5]) && vs[7] == Shift(vs[6]) && vs[8] == Shift(vs[7])
    ensures ByteStep(state, b) == vs[8]
  {
    for k := 0 to 8
      invariant Iterate(Shift, vs[0], k) == vs[k]
    {
      assert vs[k + 1] == Shift(vs[k]);
    }
  }

  lemma {:induction false} FirstDigits()
    ensures ByteStep(0xffffffff, 49) == 0x6f0a661c
    ensures ByteStep(0x6f0a661c, 50) == 0x8caa3b9f
    ensures ByteStep(0x8caa3b9f, 51) == 0xef84d04d
  {
    StepIs(0xffffffff, 49, [0xffffffce, 0x7fffffe7, 0xbd09c48b, 0xdc72d93d, 0xeccf57e6,
                            0x7667abf3, 0xb9c5ee81, 0xde14cc38, 0x6f0a661c]);
    StepIs(0x6f0a661c, 50, [0x6f0a662e, 0x37853317, 0x9934a2f3, 0xce6c6a01, 0xe5c00e78,
                            0x72e0073c, 0x3970039e, 0x1cb801cf, 0x8caa3b9f]);
    StepIs(0x8caa3b9f, 51, [0x8caa3bac, 0x46551dd6, 0x232a8eeb, 0x93637c0d, 0xcb47857e,
                            0x65a3c2bf, 0xb027da27, 0xdae5d66b, 0xef84d04d]);
  }

  lemma {:induction false} MiddleDigits()
    ensures ByteStep(0xef84d04d, 52) == 0x09c50b11
    ensures ByteStep(0x09c50b11, 53) == 0xe72edcca
    ensures ByteStep(0xe72edcca, 54) == 0xbeca8e79
  {
    StepIs(0xef84d04d, 52, [0xef84d079, 0xf5345344, 0x7a9a29a2, 0x3d4d14d1, 0x9c50b110,
                            0x4e285888, 0x27142c44, 0x138a1622, 0x09c50b11]);
    StepIs(0x09c50b11, 53, [0x09c50b24, 0x04e28592, 0x027142c9, 0x83ce9a1c, 0x41e74d0e,
                            0x20f3a687, 0x928fe83b, 0xcbb1cf65, 0xe72edcca]);
    StepIs(0xe72edcca, 54, [0xe72edcfc, 0x73976e7e, 0x39cbb73f, 0x9e13e0e7, 0xcdffcb0b,
                            0xe409defd, 0xf0f2d406, 0x78796a03, 0xbeca8e79]);
  }

  lemma {:induction false} LastDigits()
    ensures ByteStep(0xbeca8e79, 55) == 0xedbd6815
    ensures ByteStep(0xedbd6815, 56) == 0x9f787f65
    ensures ByteStep(0x9f787f65, 57) == 0x1cf96d7c
  {
    StepIs(0xbeca8e79, 55, [0xbeca8e4e, 0x5f654727, 0xad4498eb, 0xd454770d, 0xe8dc00fe,
                            0x746e007f, 0xb8c13b47, 0xde96a6db, 0xedbd6815]);
    StepIs(0xedbd6815, 56, [0xedbd682d, 0xf4288f6e, 0x7a1447b7, 0xbffc18a3, 0xdd083729,
                            0xec7220ec, 0x76391076, 0x3b1c883b, 0x9f787f65]);
    StepIs(0x9f787f65, 57, [0x9f787f5c, 0x4fbc3fae, 0x27de1fd7, 0x91193493, 0xca7aa131,
                            0xe7cb6be0, 0x73e5b5f0, 0x39f2daf8, 0x1cf96d7c]);
  }

  /** The empty input has checksum zero. */
  lemma {:induction false} CrcOfNothing()
    ensures Crc([]) == 0
  {
    assert Fold(INIT, []) == INIT;
  }

  lemma {:induction false} FoldStep(bytes: seq<byte>, i: nat, before: bv32, after: bv32)
    requires i < |bytes| && Fold(INIT, bytes[..i]) == before && ByteStep(before, bytes[i]) == after
    ensures Fold(INIT, bytes[..i + 1]) == after
  {
    FoldSnoc(ByteStep, INIT, bytes, i);
  }

  /** The check value of CRC32C: the checksum of the nine digits "123456789". */
  lemma {:induction false} CheckValue(digits: seq<byte>)
    requires |digits| == 9 && forall i :: 0 <= i < 9 ==> digits[i] == 49 + i
    ensures Crc(digits) == 0xe3069283
  {
    FirstDigits();
    MiddleDigits();
    LastDigits();
    assert digits[..0] == [];
    FoldStep(digits, 0, 0xffffffff, 0x6f0a661c);
    FoldStep(digits, 1, 0x6f0a661c, 0x8caa3b9f);
    FoldStep(digits, 2, 0x8caa3b9f, 0xef84d04d);
    FoldStep(digits, 3, 0xef84d04d, 0x09c50b11);
    FoldStep(digits, 4, 0x09c50b11, 0xe72edcca);
    FoldStep(digits, 5, 0xe72edcca, 0xbeca8e79);
    FoldStep(digits, 6, 0xbeca8e79, 0xedbd6815);
    FoldStep(digits, 7, 0xedbd6815, 0x9f787f65);
    FoldStep(digits, 8, 0x9f787f65, 0x1cf96d7c);
    assert digits[..9] == digits;
  }

  // ----------------------------------------------------- linearity of a shift

  lemma {:induction false} ShiftEven(v: bv32)
    requires v & 1 == 0
    ensures Shift(v) == v >> 1
  {
  }

  lemma {:induction false} ShiftOdd(v: bv32)
    requires v & 1 != 0
    ensures Shift(v) == (v >> 1) ^ 0x82f63b78
  {
  }

  lemma {:induction false} EvenEven(a: bv32, b: bv32, sa: bv32, sb: bv32, sc: bv32)
    requires a & 1 == 0 && b & 1 == 0
    ensures (a ^ b) & 1 == 0
    ensures sa == a >> 1 && sb == b >> 1 && sc == (a ^ b) >> 1 ==> sc == sa ^ sb
  {
  }

  lemma {:induction false} OddEven(a: bv32, b: bv32, sa: bv32, sb: bv32, sc: bv32)
    requires a & 1 != 0 && b & 1 == 0
    ensures (a ^ b) & 1 != 0
    ensures sa == (a >> 1) ^ 0x82f63b78 && sb == b >> 1 && sc == ((a ^ b) >> 1) ^ 0x82f63b78 ==> sc == sa ^ sb
  {
  }

  lemma {:induction false} OddOdd(a: bv32, b: bv32, sa: bv32, sb: bv32, sc: bv32)
    requires a & 1 != 0 && b & 1 != 0
    ensures (a ^ b) & 1 == 0
    ensures sa == (a >> 1) ^ 0x82f63b78 && sb == (b >> 1) ^ 0x82f63b78 && sc == (a ^ b) >> 1 ==> sc == sa ^ sb
  {
  }

  lemma {:induction false} ShiftEvenEven(a: bv32, b: bv32)
    requires a & 1 == 0 && b & 1 == 0
    ensures Shift(a ^ b) == Shift(a) ^ Shift(b)
  {
    EvenEven(a, b, Shift(a), Shift(b), Shift(a ^ b));
    ShiftEven(a);
    ShiftEven(b);
    ShiftEven(a ^ b);
  }

  lemma {:induction false} ShiftOddEven(a: bv32, b: bv32)
    requires a & 1 != 0 && b & 1 == 0
    ensures Shift(a ^ b) == Shift(a) ^ Shift(b)
  {
    OddEven(a, b, Shift(a), Shift(b), Shift(a ^ b));
    ShiftOdd(a);
    ShiftEven(b);
    ShiftOdd(a ^ b);
  }

  lemma {:induction false} ShiftOddOdd(a: bv32, b: bv32)
    requires a & 1 != 0 && b & 1 != 0
    ensures Shift(a ^ b) == Shift(a) ^ Shift(b)
  {
    OddOdd(a, b, Shift(a), Shift(b), Shift(a ^ b));
    ShiftOdd(a);
    ShiftOdd(b);
    ShiftEven(a ^ b);
  }

  lemma {:induction false} XorCommutes(a: bv32, b: bv32)
    ensures a ^ b == b ^ a
  {
  }

  lemma {:induction false} ShiftLinear(a: bv32, b: bv32)
    ensures Shift(a ^ b) == Shift(a) ^ Shift(b)
  {
    if a & 1 != 0 && b & 1 != 0 {
      ShiftOddOdd(a, b);
    } else if a & 1 != 0 {
      ShiftOddEven(a, b);
    } else if b & 1 != 0 {
      ShiftOddEven(b, a);
      XorCommutes(a, b);
      XorCommutes(Shift(a), Shift(b));
    } else {
      ShiftEvenEven(a, b);
    }
  }

  function Xor(a: bv32, b: bv32): bv32 {
    a ^ b
  }

  ghost predicate Linear<T(!new)>(f: T -> T, op: (T, T) -> T) {
    forall a, b :: f(op(a, b)) == op(f(a), f(b))
  }

  lemma {:induction false} IterateLinear<T(!new)>(f: T -> T, op: (T, T) -> T, a: T, b: T, n: nat)
    requires Linear(f, op)
    ensures Iterate(f, op(a, b), n) == op(Iterate(f, a, n), Iterate(f, b, n))
    decreases n
  {
    if n > 0 {
      IterateLinear(f, op, a, b, n - 1);
    }
  }

  lemma {:induction false} ShiftIsLinear()
    ensures Linear(Shift, Xor)
  {
    forall a, b
      ensures Shift(Xor(a, b)) == Xor(Shift(a), Shift(b))
    {
      ShiftLinear(a, b);
    }
  }

  // --------------------------------------------------------------- table form

  lemma {:induction false} IterateTwice<T>(f: T -> T, v: T, n: nat)
    ensures Iterate(f, v, n + 2) == f(f(Iterate(f, v, n)))
  {
    assert Iterate(f, v, n + 2) == f(Iterate(f, v, n + 1));
  }

  lemma {:induction false} IterateEight<T>(f: T -> T, v: T, n: nat)
    requires n == BITS
    ensures Iterate(f, v, n) == f(f(f(f(f(f(f(f(v))))))))
  {
    IterateTwice(f, v, 0);
    IterateTwice(f, v, 2);
    IterateTwice(f, v, 4);
    IterateTwice(f, v, 6);
  }

  /** Eight shifts of a word whose low byte is zero move it down by a byte. */
  lemma {:induction false} HighBitsShift(v: bv32)
    requires v & 0xff == 0
    ensures Shift(Shift(Shift(Shift(Shift(Shift(Shift(Shift(v)))))))) == v >> 8
  {
  }

  lemma {:induction false} SplitLowByte(v: bv32)
    ensures v == Xor(v & 0xff, v & 0xffff_ff00)
    ensures (v & 0xffff_ff00) & 0xff == 0 && (v & 0xffff_ff00) >> 8 == v >> 8
  {
  }

  lemma {:induction false} ByteLeavesHighBits(state: bv32, b: bv8)
    ensures (state ^ (b as bv32)) >> 8 == state >> 8
  {
  }

  function LowByte(v: bv32): byte {
    ((v & 0xff) as bv8) as int
  }

  lemma {:induction false} RoundOctet(w: bv8)
    ensures (w as int) as bv8 == w
  {
  }

  lemma {:induction false} Narrowed(v: bv32)
    ensures ((v & 0xff) as bv8) as bv32 == v & 0xff
  {
  }

  lemma {:induction false} LowByteBits(v: bv32, low: bv32)
    requires low == v & 0xff
    ensures Bits(LowByte(v)) == low
  {
    RoundOctet((v & 0xff) as bv8);
    Narrowed(v);
  }

  function TableEntry(i: byte): bv32 {
    Iterate(Shift, Bits(i), BITS)
  }

  /** For any linear step: the steps of a sum whose second part has a known outcome. */
  lemma {:induction false} StepsOfSum<T(!new)>(f: T -> T, op: (T, T) -> T, x: T, low: T, high: T, moved: T, n: nat)
    requires Linear(f, op) && x == op(low, high) && Iterate(f, high, n) == moved
    ensures op(Iterate(f, low, n), moved) == Iterate(f, x, n)
  {
    IterateLinear(f, op, low, high, n);
  }

  lemma {:induction false} HighBitsMove(high: bv32, moved: bv32)
    requires high & 0xff == 0 && high >> 8 == moved
    ensures Iterate(Shift, high, BITS) == moved
  {
    HighBitsShift(high);
    IterateEight(Shift, high, BITS);
  }

  lemma {:induction false} StepsOfWord(x: bv32, low: bv32, high: bv32, moved: bv32)
    requires x == Xor(low, high) && high & 0xff == 0 && high >> 8 == moved
    ensures Xor(Iterate(Shift, low, BITS), moved) == Iterate(Shift, x, BITS)
  {
    ShiftIsLinear();
    HighBitsMove(high, moved);
    StepsOfSum(Shift, Xor, x, low, high, moved, BITS);
  }

  lemma {:induction false} EntryOfLowByte(x: bv32, low: bv32)
    requires low == x & 0xff
    ensures TableEntry(LowByte(x)) == Iterate(Shift, low, BITS)
  {
    LowByteBits(x, low);
  }

  lemma {:induction false} StepByTable(x: bv32)
    ensures Xor(TableEntry(LowByte(x)), x >> 8) == Iterate(Shift, x, BITS)
  {
    var low, high, moved := x & 0xff, x & 0xffff_ff00, x >> 8;
    SplitLowByte(x);
    StepsOfWord(x, low, high, moved);
    EntryOfLowByte(x, low);
  }

  /** One table lookup does the work of eight single-bit shifts. */
  lemma {:induction false} TableStepIsByteStep(state: bv32, b: byte)
    ensures Xor(TableEntry(LowByte(state ^ Bits(b))), state >> 8) == ByteStep(state, b)
  {
    StepByTable(state ^ Bits(b));
    ByteLeavesHighBits(state, b as bv8);
  }

  ghost predicate TableOf<T>(table: seq<T>, entry: byte -> T, n: nat) {
    |table| == n <= 256 && forall i :: 0 <= i < n ==> table[i] == entry(i)
  }

  lemma {:induction false} TableGrows<T>(table: seq<T>, entry: byte -> T, n: byte, value: T)
    requires TableOf(table, entry, n) && value == entry(n)
    ensures TableOf(table + [value], entry, n + 1)
  {
  }

  method TableValue(i: byte) returns (value: bv32)
    ensures value == TableEntry(i)
  {
    value := Bits(i);
    for bit := 0 to BITS
      invariant value == Iterate(Shift, Bits(i), bit)
    {
      value := Shift(value);
    }
  }

  method BuildTable() returns (table: seq<bv32>)
    ensures TableOf(table, TableEntry, 256)
  {
    table := [];
    for i := 0 to 256
      invariant TableOf(table, TableEntry, i)
    {
      var value := TableValue(i);
      TableGrows(table, TableEntry, i, value);
      table := table + [value];
    }
  }

  /** The incremental table-driven form computes what the bitwise form computes. */
  method Update(table: seq<bv32>, start: bv32, bytes: seq<byte>) returns (state: bv32)
    requires TableOf(table, TableEntry, 256)
    ensures state == Fold(start, bytes)
  {
    state := start;
    for i := 0 to |bytes|
      invariant state == Fold(start, bytes[..i])
    {
      FoldSnoc(ByteStep, start, bytes, i);
      TableStepIsByteStep(state, bytes[i]);
      state := Xor(table[LowByte(state ^ Bits(bytes[i]))], state >> 8);
    }
    assert bytes[..|bytes|] == bytes;
  }

  method CrcByTable(bytes: seq<byte>) returns (value: bv32)
    ensures value == Crc(bytes)
  {
    var table := BuildTable();
    value := Update(table, INIT, bytes);
    value := Finish(value);
  }

  lemma {:induction false} FoldConcat(step: (bv32, byte) -> bv32, state: bv32, a: seq<byte>, b: seq<byte>)
    ensures FoldWith(step, state, a + b) == FoldWith(step, FoldWith(step, state, a), b)
    decreases |b|
  {
    if b == [] {
      assert a + b == a;
    } else {
      var n := |b| - 1;
      FoldConcat(step, state, a, b[..n]);
      assert (a + b)[..|a| + n] == a + b[..n];
    }
  }

  /** The bytes with the four-byte field at `offset` read as zero. */
  function Zeroed(bytes: seq<byte>, offset: nat): (r: seq<byte>)
    requires offset + 4 <= |bytes|
    ensures |r| == |bytes|
  {
    bytes[..offset] + ([0, 0, 0, 0] + bytes[offset + 4..])
  }

  /** Checksums a structure whose own CRC field must read as zero, without copying it. */
  method CrcWithZeroedField(bytes: seq<byte>, offset: nat) returns (value: bv32)
    requires offset + 4 <= |bytes|
    ensures value == Crc(Zeroed(bytes, offset))
  {
    var zero: seq<byte> := [0, 0, 0, 0];
    var table := BuildTable();
    var state := Update(table, INIT, bytes[..offset]);
    FoldConcat(ByteStep, INIT, bytes[..offset], zero + bytes[offset + 4..]);
    FoldConcat(ByteStep, state, zero, bytes[offset + 4..]);
    state := Update(table, state, zero);
    state := Update(table, state, bytes[offset + 4..]);
    value := Finish(state);
  }

  // --------------------------------------------------------- what it detects

  function Unshift(v: bv32): bv32 {
    if v & 0x8000_0000 != 0 then ((v ^ 0x82f63b78) << 1) | 1 else v << 1
  }

  lemma {:induction false} UnshiftEven(v: bv32)
    requires v & 1 == 0
    ensures Unshift(v >> 1) == v
  {
  }

  lemma {:induction false} UnshiftOdd(v: bv32)
    requires v & 1 != 0
    ensures Unshift((v >> 1) ^ 0x82f63b78) == v
  {
  }

  lemma {:induction false} ShiftInvertible(v: bv32)
    ensures Unshift(Shift(v)) == v
  {
    if v & 1 == 0 {
      ShiftEven(v);
      UnshiftEven(v);
    } else {
      ShiftOdd(v);
      UnshiftOdd(v);
    }
  }

  ghost predicate Injective(f: bv32 -> bv32) {
    forall a, b :: f(a) == f(b) ==> a == b
  }

  lemma {:induction false} ShiftIsInjective()
    ensures Injective(Shift)
  {
    forall a, b | Shift(a) == Shift(b)
      ensures a == b
    {
      ShiftInvertible(a);
      ShiftInvertible(b);
    }
  }

  lemma {:induction false} IterateInjective(f: bv32 -> bv32, a: bv32, b: bv32, n: nat)
    requires Injective(f) && Iterate(f, a, n) == Iterate(f, b, n)
    ensures a == b
    decreases n
  {
    if n > 0 {
      assert f(Iterate(f, a, n - 1)) == f(Iterate(f, b, n - 1));
      IterateInjective(f, a, b, n - 1);
    }
  }

  lemma {:induction false} XorCancels(a: bv32, b: bv32, x: bv32)
    ensures a ^ x == b ^ x ==> a == b
    ensures x ^ a == x ^ b ==> a == b
  {
  }

  lemma {:induction false} NextOctet(w: bv8)
    ensures w as int < 255 ==> (w + 1) as int == w as int + 1
  {
  }

  lemma {:induction false} OctetOfByte(b: byte, w: bv8)
    requires w as int == b
    ensures (b as bv8) as int == b
  {
    RoundOctet(w);
  }

  lemma {:induction false} ByteToBits(b: byte)
    ensures (b as bv8) as int == b
    decreases b
  {
    if b > 0 {
      ByteToBits(b - 1);
      NextOctet((b - 1) as bv8);
      OctetOfByte(b, ((b - 1) as bv8) + 1);
    }
  }

  lemma {:induction false} Widened(a: bv8, b: bv8)
    ensures a as bv32 == b as bv32 ==> a == b
  {
  }

  lemma {:induction false} BitsInjective(a: byte, b: byte)
    requires Bits(a) == Bits(b)
    ensures a == b
  {
    Widened(a as bv8, b as bv8);
    ByteToBits(a);
    ByteToBits(b);
  }

  /** A byte step loses nothing of the state. */
  lemma {:induction false} StateRecovered(s: bv32, t: bv32, b: byte)
    requires ByteStep(s, b) == ByteStep(t, b)
    ensures s == t
  {
    ShiftIsInjective();
    IterateInjective(Shift, s ^ Bits(b), t ^ Bits(b), BITS);
    XorCancels(s, t, Bits(b));
  }

  /** Nor of the byte. */
  lemma {:induction false} ByteRecovered(s: bv32, a: byte, b: byte)
    requires ByteStep(s, a) == ByteStep(s, b)
    ensures a == b
  {
    ShiftIsInjective();
    IterateInjective(Shift, s ^ Bits(a), s ^ Bits(b), BITS);
    XorCancels(Bits(a), Bits(b), s);
    BitsInjective(a, b);
  }

  lemma {:induction false} FoldInjective(s: bv32, t: bv32, bytes: seq<byte>)
    requires Fold(s, bytes) == Fold(t, bytes)
    ensures s == t
    decreases |bytes|
  {
    if bytes != [] {
      var n := |bytes| - 1;
      StateRecovered(Fold(s, bytes[..n]), Fold(t, bytes[..n]), bytes[n]);
      FoldInjective(s, t, bytes[..n]);
    }
  }

  /** Two inputs that differ in exactly one byte. */
  predicate DifferAt(x: seq<byte>, y: seq<byte>, i: nat) {
    && i < |x| == |y| && x[i] != y[i]
    && x[..i] == y[..i] && x[i + 1..] == y[i + 1..]
  }

  lemma {:induction false} FoldAround(state: bv32, x: seq<byte>, i: nat)
    requires i < |x|
    ensures Fold(state, x) == Fold(ByteStep(Fold(state, x[..i]), x[i]), x[i + 1..])
  {
    assert x == x[..i + 1] + x[i + 1..];
    FoldConcat(ByteStep, state, x[..i + 1], x[i + 1..]);
    FoldSnoc(ByteStep, state, x, i);
  }

  lemma {:induction false} FinishInjective(s: bv32, t: bv32)
    ensures Finish(s) == Finish(t) ==> s == t
  {
    XorCancels(s, t, 0xffff_ffff);
  }

  /** No two inputs that differ in exactly one byte have the same checksum. */
  lemma {:induction false} OneByteDetected(x: seq<byte>, y: seq<byte>, i: nat)
    requires DifferAt(x, y, i)
    ensures Crc(x) != Crc(y)
  {
    var before := Fold(INIT, x[..i]);
    FoldAround(INIT, x, i);
    FoldAround(INIT, y, i);
    FinishInjective(Fold(INIT, x), Fold(INIT, y));
    if Crc(x) == Crc(y) {
      FoldInjective(ByteStep(before, x[i]), ByteStep(before, y[i]), x[i + 1..]);
      ByteRecovered(before, x[i], y[i]);
    }
  }
}
