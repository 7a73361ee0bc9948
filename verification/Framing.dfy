/**
  Blocks of self-delimiting records, for any record code: reading a block inverts writing it, in both
  directions, and a code that notices one changed byte in a record notices it in a block of records.
 */
module Framing {
  import opened Bytes
  import opened Crc32c

  /** `decode` reads the record at the front of its input; `size` is how far it reaches. */
  datatype Code<!R> = Code(decode: seq<byte> -> Result<R>, encode: R -> seq<byte>, size: R -> nat, fits: R -> bool)

  ghost predicate Inverts<R(!new)>(c: Code<R>) {
    forall r, tail :: c.fits(r) ==> c.decode(c.encode(r) + tail) == Ok(r)
  }

  ghost predicate Sized<R(!new)>(c: Code<R>) {
    forall r :: c.fits(r) ==> |c.encode(r)| == c.size(r) > 0
  }

  ghost predicate Canonical<R(!new)>(c: Code<R>) {
    forall data :: c.decode(data).Ok? ==> c.fits(c.decode(data).value) && c.encode(c.decode(data).value) <= data
  }

  ghost predicate Delimits<R(!new)>(c: Code<R>) {
    Inverts(c) && Sized(c) && Canonical(c)
  }

  /** What a block holds: its leading records, and whether they are all of it. */
  datatype Parsed<R> = Parsed(records: seq<R>, complete: bool)

  function Parse<R(!new)>(c: Code<R>, block: seq<byte>): Parsed<R>
    requires Delimits(c)
    decreases |block|
  {
    if block == [] then Parsed([], true)
    else
      var first := c.decode(block);
      if first.Err? then Parsed([], false)
      else
        var rest := Parse(c, block[c.size(first.value)..]);
        Parsed([first.value] + rest.records, rest.complete)
  }

  function Concat<R>(c: Code<R>, records: seq<R>): seq<byte> {
    if records == [] then [] else c.encode(records[0]) + Concat(c, records[1..])
  }

  predicate AllFit<R>(c: Code<R>, records: seq<R>) {
    forall i :: 0 <= i < |records| ==> c.fits(records[i])
  }

  /** Concatenated encodings parse to exactly the records encoded. */
  lemma {:induction false} ParseConcat<R(!new)>(c: Code<R>, records: seq<R>)
    requires Delimits(c) && AllFit(c, records)
    ensures Parse(c, Concat(c, records)) == Parsed(records, true)
    decreases |records|
  {
    if records != [] {
      var r, tail := records[0], Concat(c, records[1..]);
      assert c.decode(c.encode(r) + tail) == Ok(r);
      assert (c.encode(r) + tail)[c.size(r)..] == tail;
      ParseConcat(c, records[1..]);
      assert records == [r] + records[1..];
    }
  }

  /** What parses is the encoding of what it parses to. */
  lemma {:induction false} ConcatParse<R(!new)>(c: Code<R>, block: seq<byte>)
    requires Delimits(c)
    ensures var p := Parse(c, block);
            && AllFit(c, p.records) && Concat(c, p.records) <= block
            && (p.complete <==> Concat(c, p.records) == block)
    decreases |block|
  {
    if block != [] && c.decode(block).Ok? {
      var r := c.decode(block).value;
      var rest := block[c.size(r)..];
      ConcatParse(c, rest);
      assert block == c.encode(r) + rest;
      var p, q := Parse(c, block), Parse(c, rest);
      assert p.records[1..] == q.records;
      assert Concat(c, p.records) == c.encode(r) + Concat(c, q.records);
    }
  }

  /** A block is accepted in full exactly when it is a concatenation of encodings. */
  lemma {:induction false} AcceptedExactly<R(!new)>(c: Code<R>, block: seq<byte>)
    requires Delimits(c)
    ensures Parse(c, block).complete <==> exists rs :: AllFit(c, rs) && Concat(c, rs) == block
  {
    ConcatParse(c, block);
    if rs :| AllFit(c, rs) && Concat(c, rs) == block {
      ParseConcat(c, rs);
    }
  }

  lemma {:induction false} ParseStep<R(!new)>(c: Code<R>, block: seq<byte>, r: R, rest: seq<byte>)
    requires Delimits(c) && block != [] && c.decode(block) == Ok(r)
    requires c.size(r) <= |block| && rest == block[c.size(r)..]
    ensures Parse(c, block) == Parsed([r] + Parse(c, rest).records, Parse(c, rest).complete)
  {
  }

  /** A change inside a record is noticed by the decoder of that record. */
  ghost predicate Notices<R(!new)>(c: Code<R>) {
    forall x, y, i: nat {:trigger DifferAt(x, y, i)} ::
      DifferAt(x, y, i) && c.decode(x).Ok? && i < c.size(c.decode(x).value) ==> c.decode(y).Err?
  }

  lemma {:induction false} SameFront<R(!new)>(c: Code<R>, x: seq<byte>, y: seq<byte>, i: nat)
    requires Delimits(c) && DifferAt(x, y, i) && c.decode(x).Ok? && c.size(c.decode(x).value) <= i
    ensures c.decode(y) == c.decode(x)
  {
    var r := c.decode(x).value;
    var n := c.size(r);
    assert y[..n] == y[..i][..n] && x[..n] == x[..i][..n];
    assert y == c.encode(r) + y[n..];
    assert c.decode(c.encode(r) + y[n..]) == Ok(r);
  }

  lemma {:induction false} TailDiffers(x: seq<byte>, y: seq<byte>, i: nat, n: nat)
    requires DifferAt(x, y, i) && n <= i
    ensures DifferAt(x[n..], y[n..], i - n)
  {
    assert x[n..][..i - n] == x[..i][n..] && y[n..][..i - n] == y[..i][n..];
    assert x[n..][i - n + 1..] == x[i + 1..] && y[n..][i - n + 1..] == y[i + 1..];
  }

  /** No two blocks that differ in exactly one byte are both accepted in full. */
  lemma {:induction false} OneByteNoticed<R(!new)>(c: Code<R>, x: seq<byte>, y: seq<byte>, i: nat)
    requires Delimits(c) && Notices(c) && DifferAt(x, y, i)
    ensures !Parse(c, x).complete || !Parse(c, y).complete
    decreases |x|
  {
    if c.decode(x).Ok? {
      var n := c.size(c.decode(x).value);
      if i >= n {
        SameFront(c, x, y, i);
        TailDiffers(x, y, i, n);
        OneByteNoticed(c, x[n..], y[n..], i - n);
      }
    }
  }
}
