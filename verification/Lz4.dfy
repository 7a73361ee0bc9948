/**
  The built-in LZ4 raw-block codec: a hash-table encoder and a bounded decoder,
  both proved against the documented stream grammar.
 */
module Lz4 {
  import opened Bytes

  const MIN_MATCH := 4
  const LAST_LITERALS := 5
  const MATCH_FIND_LIMIT := 12
  const MAX_DISTANCE := 65535
  const HASH_SIZE := 4096

  // ---------------------------------------------------------------- grammar

  /** Literals followed by a back reference `distance` bytes behind the output. */
  datatype Sequence = Sequence(literals: seq<byte>, distance: nat, matchLength: nat)

  predicate WellFormed(q: Sequence) {
    1 <= q.distance <= MAX_DISTANCE && q.matchLength >= MIN_MATCH
  }

  /** A length beyond a saturated nibble: 255-bytes closed by a smaller byte. */
  function LengthTail(n: nat): (r: seq<byte>)
    ensures |r| == n / 255 + 1
  {
    if n >= 255 then [255] + LengthTail(n - 255) else [n]
  }

  function Nibble(n: nat): (r: nat)
    ensures r < 16
  {
    if n >= 15 then 15 else n
  }

  function Escape(n: nat): seq<byte> {
    if n >= 15 then LengthTail(n - 15) else []
  }

  function Token(literals: nat, match_: nat): byte {
    Nibble(literals) * 16 + Nibble(match_)
  }

  /** The two-byte little-endian offset, then the rest of the match length. */
  function MatchBytes(distance: nat, length: nat): seq<byte>
    requires 1 <= distance <= MAX_DISTANCE && length >= MIN_MATCH
  {
    [distance % 256, distance / 256] + Escape(length - MIN_MATCH)
  }

  function SequenceBytes(q: Sequence): seq<byte>
    requires WellFormed(q)
  {
    [Token(|q.literals|, q.matchLength - MIN_MATCH)]
    + (Escape(|q.literals|) + (q.literals + MatchBytes(q.distance, q.matchLength)))
  }

  /** The closing sequence has no match: no offset follows, the match nibble is zero. */
  function LastBytes(literals: seq<byte>): seq<byte> {
    [Token(|literals|, 0)] + (Escape(|literals|) + literals)
  }

  predicate AllWellFormed(qs: seq<Sequence>) {
    forall i :: 0 <= i < |qs| ==> WellFormed(qs[i])
  }

  function StreamBytes(qs: seq<Sequence>): seq<byte>
    requires AllWellFormed(qs)
  {
    if qs == [] then [] else StreamBytes(qs[..|qs| - 1]) + SequenceBytes(qs[|qs| - 1])
  }

  /** `n` more bytes, each a copy of the byte `distance` behind it; the copy may overlap itself. */
  function Copied(out: seq<byte>, distance: nat, n: nat): (r: seq<byte>)
    requires 1 <= distance <= |out|
    ensures |r| == |out| + n
    decreases n
  {
    if n == 0 then out else Copied(out + [out[|out| - distance]], distance, n - 1)
  }

  /** What one sequence appends to the output; undefined when its offset reaches before the output. */
  function Perform(out: seq<byte>, q: Sequence): (r: Option<seq<byte>>)
    requires WellFormed(q)
    ensures r.Some? ==> |r.value| == |out| + |q.literals| + q.matchLength
  {
    if q.distance > |out| + |q.literals| then None
    else Some(Copied(out + q.literals, q.distance, q.matchLength))
  }

  /** The bytes a list of sequences stands for. */
  function Expand(qs: seq<Sequence>): Option<seq<byte>>
    requires AllWellFormed(qs)
  {
    if qs == [] then Some([])
    else
      match Expand(qs[..|qs| - 1])
      case None => None
      case Some(out) => Perform(out, qs[|qs| - 1])
  }

  /** Where the last match landed in the output. */
  datatype Mark = NoMatch | Match(begin: nat, end: nat)

  function MarkOf(out: seq<byte>, q: Sequence): Mark {
    Match(|out| + |q.literals|, |out| + |q.literals| + q.matchLength)
  }

  function LastMatch(qs: seq<Sequence>): Mark
    requires AllWellFormed(qs) && Expand(qs).Some?
  {
    if qs == [] then NoMatch else MarkOf(Expand(qs[..|qs| - 1]).value, qs[|qs| - 1])
  }

  /** The two end-of-block conditions: five closing literals, last match twelve bytes from the end. */
  predicate EndOfBlock(mark: Mark, size: nat) {
    mark.Match? ==> size - mark.end >= LAST_LITERALS && size - mark.begin >= MATCH_FIND_LIMIT
  }

  ghost predicate EncodesWith(stored: seq<byte>, raw: seq<byte>, qs: seq<Sequence>, literals: seq<byte>) {
    && AllWellFormed(qs)
    && stored == StreamBytes(qs) + LastBytes(literals)
    && Expand(qs).Some?
    && raw == Expand(qs).value + literals
    && EndOfBlock(LastMatch(qs), |raw|)
  }

  /** `stored` is a conforming block for `raw`.  The decoder also takes no bytes at all for no bytes. */
  ghost predicate Encodes(stored: seq<byte>, raw: seq<byte>) {
    || (stored == [] && raw == [])
    || exists qs, literals :: EncodesWith(stored, raw, qs, literals)
  }

  /**
    Sequences and closing literals form a block exactly when there is no match, or at least 5 literals close
    the block and the last match begins at least 12 bytes before its end.
   */
  lemma {:induction false} BlockEnds(qs: seq<Sequence>, literals: seq<byte>)
    requires AllWellFormed(qs) && Expand(qs).Some?
    ensures var raw, n := Expand(qs).value + literals, |qs| - 1;
            EncodesWith(StreamBytes(qs) + LastBytes(literals), raw, qs, literals) <==>
              || qs == []
              || (|literals| >= 5 && |Expand(qs[..n]).value| + |qs[n].literals| + 12 <= |raw|)
  {
  }

  /** A short sequence: one token for both lengths, the literals, and the distance, low byte first. */
  lemma {:induction false} ShortSequence(q: Sequence)
    requires WellFormed(q) && |q.literals| < 15 && q.matchLength < 19
    ensures 1 <= q.distance <= 65535 && q.matchLength >= 4
    ensures SequenceBytes(q) ==
            [16 * |q.literals| + (q.matchLength - 4)] + q.literals + [q.distance % 256, q.distance / 256]
  {
  }

  /** The longer ones continue a nibble of 15 with bytes that add up, all 255 but the last. */
  lemma {:induction false} LongLength(n: nat)
    requires n >= 15
    ensures Nibble(n) == 15 && |Escape(n)| == (n - 15) / 255 + 1
    ensures var e := Escape(n);
            && (forall i :: 0 <= i < |e| - 1 ==> e[i] == 255)
            && e[|e| - 1] as int == (n - 15) % 255
  {
    TailBytes(n - 15);
  }

  lemma {:induction false} TailBytes(n: nat)
    ensures var e := LengthTail(n);
            && (forall i :: 0 <= i < |e| - 1 ==> e[i] == 255)
            && e[|e| - 1] as int == n % 255
    decreases n
  {
    if n >= 255 {
      TailBytes(n - 255);
    }
  }

  // ------------------------------------------------- reference decoder

  function ReadTail(s: seq<byte>, length: nat): (r: Option<(nat, seq<byte>)>)
    ensures r.Some? ==> |r.value.1| < |s| && r.value.0 >= length
  {
    if s == [] then None
    else if s[0] == 255 then ReadTail(s[1..], length + 255)
    else Some((length + s[0], s[1..]))
  }

  function ReadLength(nibble: nat, s: seq<byte>): (r: Option<(nat, seq<byte>)>)
    ensures r.Some? ==> |r.value.1| <= |s|
  {
    if nibble == 15 then ReadTail(s, nibble) else Some((nibble, s))
  }

  /** One element of the stream, and what follows it. */
  datatype Item =
    | Malformed
    | Final(literals: seq<byte>)
    | Step(q: Sequence, rest: seq<byte>)

  function ReadMatch(nibble: nat, literals: seq<byte>, s: seq<byte>): Item {
    if |s| < 2 then Malformed
    else
      var distance: int := s[0] as int + 256 * s[1] as int;
      if distance == 0 then Malformed
      else
        match ReadLength(nibble, s[2..])
        case None => Malformed
        case Some((n, rest)) => Step(Sequence(literals, distance, n + MIN_MATCH), rest)
  }

  function ReadItem(s: seq<byte>): (r: Item)
    requires s != []
    ensures r.Step? ==> WellFormed(r.q) && |r.rest| < |s|
  {
    match ReadLength(s[0] / 16, s[1..])
    case None => Malformed
    case Some((n, tail)) =>
      if n > |tail| then Malformed
      else if n == |tail| then (if s[0] % 16 != 0 then Malformed else Final(tail))
      else ReadMatch(s[0] % 16, tail[..n], tail[n..])
  }

  datatype Decoded = Decoded(raw: seq<byte>, mark: Mark)

  /** Reads a whole stream with no bound on lengths or output. */
  function Decode(s: seq<byte>, out: seq<byte>, mark: Mark): (r: Option<Decoded>)
    ensures r.Some? ==> |r.value.raw| >= |out|
    decreases |s|
  {
    if s == [] then Some(Decoded(out, mark))
    else
      match ReadItem(s)
      case Malformed => None
      case Final(literals) => Some(Decoded(out + literals, mark))
      case Step(q, rest) =>
        match Perform(out, q)
        case None => None
        case Some(out') => Decode(rest, out', MarkOf(out, q))
  }

  function Decompressed(stored: seq<byte>, size: nat): Option<seq<byte>> {
    match Decode(stored, [], NoMatch)
    case None => None
    case Some(d) => if |d.raw| == size && EndOfBlock(d.mark, size) then Some(d.raw) else None
  }

  // -------------------------------- the grammar and the reference decoder agree

  lemma {:induction false} ReadTailOfLength(n: nat, length: nat, rest: seq<byte>)
    ensures ReadTail(LengthTail(n) + rest, length) == Some((length + n, rest))
    decreases n
  {
    var s := LengthTail(n) + rest;
    if n >= 255 {
      assert s[1..] == LengthTail(n - 255) + rest;
      ReadTailOfLength(n - 255, length + 255, rest);
    } else {
      assert s[1..] == rest;
    }
  }

  lemma {:induction false} ReadLengthOfEscape(n: nat, rest: seq<byte>)
    ensures ReadLength(Nibble(n), Escape(n) + rest) == Some((n, rest))
  {
    if n >= 15 {
      ReadTailOfLength(n - 15, 15, rest);
    } else {
      assert Escape(n) + rest == rest;
    }
  }

  lemma {:induction false} TokenParts(literals: nat, match_: nat)
    ensures Token(literals, match_) / 16 == Nibble(literals)
    ensures Token(literals, match_) % 16 == Nibble(match_)
  {
  }

  lemma {:induction false} ReadMatchOf(q: Sequence, rest: seq<byte>)
    requires WellFormed(q)
    ensures ReadMatch(Nibble(q.matchLength - MIN_MATCH), q.literals,
                      MatchBytes(q.distance, q.matchLength) + rest) == Step(q, rest)
  {
    var s := MatchBytes(q.distance, q.matchLength) + rest;
    assert s[0] as int + 256 * s[1] as int == q.distance;
    assert s[2..] == Escape(q.matchLength - MIN_MATCH) + rest;
    ReadLengthOfEscape(q.matchLength - MIN_MATCH, rest);
  }

  /** Reading the token and literals that were written leaves what follows them. */
  lemma {:induction false} ReadLiterals(literals: seq<byte>, match_: nat, after: seq<byte>)
    ensures ReadItem([Token(|literals|, match_)] + (Escape(|literals|) + (literals + after))) ==
            if after != [] then ReadMatch(Nibble(match_), literals, after)
            else if Nibble(match_) != 0 then Malformed else Final(literals)
  {
    var tail := literals + after;
    var s := [Token(|literals|, match_)] + (Escape(|literals|) + tail);
    assert s[0] == Token(|literals|, match_) && s[1..] == Escape(|literals|) + tail;
    TokenParts(|literals|, match_);
    ReadLengthOfEscape(|literals|, tail);
    assert tail[..|literals|] == literals && tail[|literals|..] == after;
    assert after == [] ==> tail == literals;
  }

  lemma {:induction false} SequenceLayout(q: Sequence, rest: seq<byte>)
    requires WellFormed(q)
    ensures SequenceBytes(q) + rest ==
            [Token(|q.literals|, q.matchLength - MIN_MATCH)]
            + (Escape(|q.literals|) + (q.literals + (MatchBytes(q.distance, q.matchLength) + rest)))
  {
    var matchBytes := MatchBytes(q.distance, q.matchLength);
    Regroup([Token(|q.literals|, q.matchLength - MIN_MATCH)], Escape(|q.literals|), q.literals, matchBytes, rest);
  }

  lemma {:induction false} ReadLaidOut(literals: seq<byte>, match_: nat, after: seq<byte>, s: seq<byte>)
    requires after != [] && s == [Token(|literals|, match_)] + (Escape(|literals|) + (literals + after))
    ensures s != [] && ReadItem(s) == ReadMatch(Nibble(match_), literals, after)
  {
    ReadLiterals(literals, match_, after);
  }

  /** Reading back one written sequence yields that sequence. */
  lemma {:induction false} ReadSequence(q: Sequence, rest: seq<byte>)
    requires WellFormed(q)
    ensures SequenceBytes(q) + rest != [] && ReadItem(SequenceBytes(q) + rest) == Step(q, rest)
  {
    SequenceLayout(q, rest);
    ReadMatchOf(q, rest);
    ReadLaidOut(q.literals, q.matchLength - MIN_MATCH, MatchBytes(q.distance, q.matchLength) + rest,
                SequenceBytes(q) + rest);
  }

  lemma {:induction false} ReadLast(literals: seq<byte>, rest: seq<byte>)
    ensures LastBytes(literals) + rest != []
    ensures ReadItem(LastBytes(literals) + rest) ==
            if rest == [] then Final(literals) else ReadMatch(0, literals, rest)
  {
    ReadLiterals(literals, 0, rest);
    Assoc(Escape(|literals|), literals, rest);
    Assoc([Token(|literals|, 0)], Escape(|literals|) + literals, rest);
  }

  lemma {:induction false} ExpandLast(init: seq<Sequence>, q: Sequence)
    requires AllWellFormed(init) && WellFormed(q) && Expand(init).Some?
    ensures AllWellFormed(init + [q])
    ensures Expand(init + [q]) == Perform(Expand(init).value, q)
    ensures Expand(init + [q]).Some? ==> LastMatch(init + [q]) == MarkOf(Expand(init).value, q)
    ensures StreamBytes(init + [q]) == StreamBytes(init) + SequenceBytes(q)
  {
    assert (init + [q])[..|init|] == init;
  }

  lemma {:induction false} DecodeSequence(q: Sequence, out: seq<byte>, mark: Mark, rest: seq<byte>)
    requires WellFormed(q) && Perform(out, q).Some?
    ensures Decode(SequenceBytes(q) + rest, out, mark) == Decode(rest, Perform(out, q).value, MarkOf(out, q))
  {
    ReadSequence(q, rest);
  }

  lemma {:induction false} DecodeStream(qs: seq<Sequence>, rest: seq<byte>)
    requires AllWellFormed(qs) && Expand(qs).Some?
    ensures Decode(StreamBytes(qs) + rest, [], NoMatch) == Decode(rest, Expand(qs).value, LastMatch(qs))
    decreases |qs|
  {
    if qs == [] {
      assert StreamBytes(qs) + rest == rest;
    } else {
      var init, q := qs[..|qs| - 1], qs[|qs| - 1];
      Assoc(StreamBytes(init), SequenceBytes(q), rest);
      DecodeStream(init, SequenceBytes(q) + rest);
      DecodeSequence(q, Expand(init).value, LastMatch(init), rest);
    }
  }

  lemma {:induction false} DecodeBlock(qs: seq<Sequence>, literals: seq<byte>)
    requires AllWellFormed(qs) && Expand(qs).Some?
    ensures Decode(StreamBytes(qs) + LastBytes(literals), [], NoMatch) ==
            Some(Decoded(Expand(qs).value + literals, LastMatch(qs)))
  {
    DecodeStream(qs, LastBytes(literals));
    ReadLast(literals, []);
    assert LastBytes(literals) + [] == LastBytes(literals);
  }

  lemma {:induction false} ReadTailInverts(s: seq<byte>, length: nat)
    requires ReadTail(s, length).Some?
    ensures var (n, rest) := ReadTail(s, length).value; n >= length && s == LengthTail(n - length) + rest
    decreases |s|
  {
    if s[0] == 255 {
      ReadTailInverts(s[1..], length + 255);
    }
  }

  lemma {:induction false} ReadLengthInverts(nibble: nat, s: seq<byte>)
    requires nibble < 16 && ReadLength(nibble, s).Some?
    ensures var (n, rest) := ReadLength(nibble, s).value; nibble == Nibble(n) && s == Escape(n) + rest
  {
    if nibble == 15 {
      ReadTailInverts(s, 15);
    }
  }

  lemma {:induction false} TokenInverts(t: byte, literals: nat, match_: nat)
    requires t / 16 == Nibble(literals) && t % 16 == Nibble(match_)
    ensures t == Token(literals, match_)
  {
  }

  lemma {:induction false} ReadMatchInverts(nibble: nat, literals: seq<byte>, s: seq<byte>)
    requires nibble < 16 && ReadMatch(nibble, literals, s).Step?
    ensures var item := ReadMatch(nibble, literals, s);
            && WellFormed(item.q) && item.q.literals == literals
            && nibble == Nibble(item.q.matchLength - MIN_MATCH)
            && s == MatchBytes(item.q.distance, item.q.matchLength) + item.rest
  {
    var item := ReadMatch(nibble, literals, s);
    ReadLengthInverts(nibble, s[2..]);
    OffsetBytes(s[0], s[1]);
    assert s == [s[0], s[1]] + s[2..];
    Assoc([s[0], s[1]], Escape(item.q.matchLength - MIN_MATCH), item.rest);
  }

  lemma {:induction false} OffsetBytes(low: byte, high: byte)
    ensures (low + 256 * high) % 256 == low && (low + 256 * high) / 256 == high
  {
  }

  lemma {:induction false} ReadHeadInverts(s: seq<byte>) returns (n: nat, tail: seq<byte>)
    requires s != [] && ReadLength(s[0] / 16, s[1..]).Some?
    ensures ReadLength(s[0] / 16, s[1..]) == Some((n, tail))
    ensures s[0] / 16 == Nibble(n) && s == [s[0]] + (Escape(n) + tail)
  {
    ReadLengthInverts(s[0] / 16, s[1..]);
    n, tail := ReadLength(s[0] / 16, s[1..]).value.0, ReadLength(s[0] / 16, s[1..]).value.1;
    assert s == [s[0]] + s[1..];
  }

  lemma {:induction false} SequenceRebuilt(t: byte, tail: seq<byte>, q: Sequence, rest: seq<byte>)
    requires WellFormed(q) && t == Token(|q.literals|, q.matchLength - MIN_MATCH)
    requires tail == q.literals + (MatchBytes(q.distance, q.matchLength) + rest)
    ensures [t] + (Escape(|q.literals|) + tail) == SequenceBytes(q) + rest
  {
    Regroup([t], Escape(|q.literals|), q.literals, MatchBytes(q.distance, q.matchLength), rest);
  }

  lemma {:induction false} StepInverts(token: byte, n: nat, tail: seq<byte>, q: Sequence, rest: seq<byte>)
    requires WellFormed(q) && n < |tail| && q.literals == tail[..n]
    requires tail[n..] == MatchBytes(q.distance, q.matchLength) + rest
    requires token / 16 == Nibble(n) && token % 16 == Nibble(q.matchLength - MIN_MATCH)
    ensures [token] + (Escape(n) + tail) == SequenceBytes(q) + rest
  {
    TokenInverts(token, n, q.matchLength - MIN_MATCH);
    assert tail == tail[..n] + tail[n..];
    SequenceRebuilt(token, tail, q, rest);
  }

  lemma {:induction false} StepItem(s: seq<byte>, n: nat, tail: seq<byte>)
    requires s != [] && ReadLength(s[0] / 16, s[1..]) == Some((n, tail)) && n < |tail|
    ensures ReadItem(s) == ReadMatch(s[0] % 16, tail[..n], tail[n..])
  {
  }

  lemma {:induction false} StepFacts(s: seq<byte>, n: nat, tail: seq<byte>) returns (q: Sequence, rest: seq<byte>)
    requires s != [] && ReadLength(s[0] / 16, s[1..]) == Some((n, tail)) && n < |tail| && ReadItem(s).Step?
    ensures q == ReadItem(s).q && rest == ReadItem(s).rest
    ensures WellFormed(q) && q.literals == tail[..n] && tail[n..] == MatchBytes(q.distance, q.matchLength) + rest
    ensures s[0] % 16 == Nibble(q.matchLength - MIN_MATCH)
  {
    StepItem(s, n, tail);
    ReadMatchInverts(s[0] % 16, tail[..n], tail[n..]);
    q, rest := ReadItem(s).q, ReadItem(s).rest;
  }

  lemma {:induction false} ReadStepInverts(s: seq<byte>, n: nat, tail: seq<byte>)
    requires s != [] && ReadLength(s[0] / 16, s[1..]) == Some((n, tail)) && n < |tail|
    requires s[0] / 16 == Nibble(n)
    requires ReadItem(s).Step?
    ensures [s[0]] + (Escape(n) + tail) == SequenceBytes(ReadItem(s).q) + ReadItem(s).rest
  {
    var q, rest := StepFacts(s, n, tail);
    StepInverts(s[0], n, tail, q, rest);
  }

  /** Every element read is exactly the bytes written for it. */
  lemma {:induction false} ReadItemInverts(s: seq<byte>)
    requires s != []
    ensures ReadItem(s).Step? ==> s == SequenceBytes(ReadItem(s).q) + ReadItem(s).rest
    ensures ReadItem(s).Final? ==> s == LastBytes(ReadItem(s).literals)
  {
    var item := ReadItem(s);
    if item.Step? {
      var n, tail := ReadHeadInverts(s);
      ReadStepInverts(s, n, tail);
    } else if item.Final? {
      var n, tail := ReadHeadInverts(s);
      TokenInverts(s[0], n, 0);
    }
  }

  /** Whatever the reference decoder finishes was a block of the grammar. */
  lemma {:induction false} DecodeSound(qs: seq<Sequence>, s: seq<byte>)
    requires AllWellFormed(qs) && Expand(qs).Some?
    requires qs == [] ==> s != []
    requires Decode(s, Expand(qs).value, LastMatch(qs)).Some?
    requires var d := Decode(s, Expand(qs).value, LastMatch(qs)).value; EndOfBlock(d.mark, |d.raw|)
    ensures Encodes(StreamBytes(qs) + s, Decode(s, Expand(qs).value, LastMatch(qs)).value.raw)
    decreases |s|
  {
    var out := Expand(qs).value;
    if s != [] {
      ReadItemInverts(s);
      var item := ReadItem(s);
      if item.Final? {
        assert EncodesWith(StreamBytes(qs) + s, out + item.literals, qs, item.literals);
      } else {
        ExpandLast(qs, item.q);
        Assoc(StreamBytes(qs), SequenceBytes(item.q), item.rest);
        DecodeSound(qs + [item.q], item.rest);
      }
    }
  }

  /** The reference decoder, followed by the two final checks, accepts exactly the grammar. */
  lemma {:induction false} DecoderExact(stored: seq<byte>, raw: seq<byte>)
    ensures Decompressed(stored, |raw|) == Some(raw) <==> Encodes(stored, raw)
  {
    if Decompressed(stored, |raw|) == Some(raw) && stored != [] {
      DecodeSound([], stored);
      assert StreamBytes([]) + stored == stored;
    }
    if Encodes(stored, raw) && !(stored == [] && raw == []) {
      var qs, literals :| EncodesWith(stored, raw, qs, literals);
      DecodeBlock(qs, literals);
    }
  }

  /** One stream stands for at most one block. */
  lemma {:induction false} EncodesFunctional(stored: seq<byte>, x: seq<byte>, y: seq<byte>)
    requires Encodes(stored, x) && Encodes(stored, y)
    ensures x == y
  {
    DecoderExact(stored, x);
    DecoderExact(stored, y);
  }

  /** Bytes after a complete block either break it or add output. */
  lemma {:induction false} DecodeContinued(literals: seq<byte>, out: seq<byte>, mark: Mark, more: seq<byte>)
    requires more != []
    ensures var d := Decode(LastBytes(literals) + more, out, mark);
            d.Some? ==> |d.value.raw| > |out| + |literals|
  {
    ReadLast(literals, more);
  }

  /** For a nonzero size no accepted stream continues another one. */
  lemma {:induction false} PrefixFree(stored: seq<byte>, more: seq<byte>, x: seq<byte>, y: seq<byte>)
    requires Encodes(stored, x) && Encodes(stored + more, y)
    requires |x| == |y| > 0
    ensures more == [] && x == y
  {
    var qs, literals :| EncodesWith(stored, x, qs, literals);
    if more != [] {
      Assoc(StreamBytes(qs), LastBytes(literals), more);
      DecoderExact(stored + more, y);
      DecodeStream(qs, LastBytes(literals) + more);
      DecodeContinued(literals, Expand(qs).value, LastMatch(qs), more);
    } else {
      assert stored + more == stored;
      EncodesFunctional(stored, x, y);
    }
  }

  lemma {:induction false} NoSequences(qs: seq<Sequence>)
    requires qs == []
    ensures AllWellFormed(qs) && StreamBytes(qs) == [] && Expand(qs) == Some([]) && LastMatch(qs) == NoMatch
  {
  }

  /** Literals alone, without any match, always form a block. */
  lemma {:induction false} LiteralsOnly(stored: seq<byte>, literals: seq<byte>, qs: seq<Sequence>)
    requires qs == [] && stored == LastBytes(literals)
    ensures EncodesWith(stored, literals, qs, literals)
  {
    NoSequences(qs);
    assert [] + stored == stored && [] + literals == literals;
  }

  lemma {:induction false} ZeroToken(none: seq<byte>)
    requires none == []
    ensures LastBytes(none) == [0]
  {
    assert Nibble(|none|) == 0 && Escape(|none|) == [];
  }

  /** A stream for no output holds no match. */
  lemma {:induction false} EmptyOutput(stored: seq<byte>, qs: seq<Sequence>, literals: seq<byte>)
    requires EncodesWith(stored, [], qs, literals)
    ensures stored == [0]
  {
    assert |Expand(qs).value| == 0 && literals == [];
    if qs == [] {
      NoSequences(qs);
      ZeroToken(literals);
    }
  }

  /** Size zero is the one exception: exactly two streams stand for it, no bytes at all and a zero token. */
  lemma {:induction false} EncodesNothingExactly(stored: seq<byte>)
    ensures Encodes(stored, []) <==> stored == [] || stored == [0]
  {
    if stored == [0] {
      ZeroToken([]);
      LiteralsOnly(stored, [], []);
    } else if stored != [] && Encodes(stored, []) {
      var qs, literals :| EncodesWith(stored, [], qs, literals);
      EmptyOutput(stored, qs, literals);
    }
  }

  /** So for size zero one accepted stream continues another. */
  lemma {:induction false} PrefixFreeFailsAtZero(none: seq<byte>, token: seq<byte>)
    requires none == [] && token == [0]
    ensures Encodes(none, none) && Encodes(none + token, none)
  {
    EncodesNothingExactly(none);
    EncodesNothingExactly(none + token);
  }

  // ------------------------------------------------- the bounded decoder

  /** Continues a saturated nibble, giving up as soon as the total passes `limit`. */
  method ReadLengthBounded(stored: seq<byte>, limit: nat, start: nat, saturated: nat)
    returns (ok: bool, position: nat, length: nat)
    requires start <= |stored|
    ensures ok ==> start <= position <= |stored| && length <= limit
    ensures ok ==> ReadTail(stored[start..], saturated) == Some((length, stored[position..]))
    ensures !ok ==> ReadTail(stored[start..], saturated).None? || ReadTail(stored[start..], saturated).value.0 > limit
  {
    position, length := start, saturated;
    while true
      invariant start <= position <= |stored|
      invariant ReadTail(stored[start..], saturated) == ReadTail(stored[position..], length)
      decreases |stored| - position
    {
      if position == |stored| {
        return false, position, length;
      }
      var extra := stored[position];
      position := position + 1;
      if length > limit || extra > limit - length {
        return false, position, length;
      }
      length := length + extra;
      if extra != 255 {
        return true, position, length;
      }
    }
  }

  method ReadLengthAt(stored: seq<byte>, limit: nat, start: nat, nibble: nat)
    returns (ok: bool, position: nat, length: nat)
    requires start <= |stored|
    ensures ok ==> start <= position <= |stored|
    ensures ok ==> ReadLength(nibble, stored[start..]) == Some((length, stored[position..]))
    ensures !ok ==> ReadLength(nibble, stored[start..]).None? || ReadLength(nibble, stored[start..]).value.0 > limit
  {
    ok, position, length := true, start, nibble;
    if nibble == 15 {
      ok, position, length := ReadLengthBounded(stored, limit, start, nibble);
    }
  }

  /** Copies byte by byte, so that an offset below the length repeats the window. */
  method CopyMatch(out: seq<byte>, distance: nat, length: nat) returns (decoded: seq<byte>)
    requires 1 <= distance <= |out|
    ensures decoded == Copied(out, distance, length)
  {
    decoded := out;
    for i := 0 to length
      invariant |decoded| == |out| + i
      invariant Copied(out, distance, length) == Copied(decoded, distance, length - i)
    {
      decoded := decoded + [decoded[|decoded| - distance]];
    }
  }

  /** Nothing that already announced more than `size` bytes can decode to `size` bytes. */
  lemma {:induction false} TooManyLiterals(s: seq<byte>, out: seq<byte>, mark: Mark, size: nat)
    requires s != []
    requires var n := ReadLength(s[0] / 16, s[1..]); n.None? || |out| + n.value.0 > size
    ensures var d := Decode(s, out, mark); d.None? || |d.value.raw| > size
  {
  }

  lemma {:induction false} TooLongMatch(s: seq<byte>, out: seq<byte>, mark: Mark, size: nat)
    requires s != [] && ReadItem(s).Step?
    requires |out| + |ReadItem(s).q.literals| + ReadItem(s).q.matchLength > size
    ensures var d := Decode(s, out, mark); d.None? || |d.value.raw| > size
  {
  }

  datatype Progress =
    | Rejected
    | Ended(decoded: seq<byte>)
    | Continued(position: nat, decoded: seq<byte>, mark: Mark)

  /** What a step of the bounded decoder may conclude about the stream from `start` on. */
  ghost predicate StepSound(stored: seq<byte>, start: nat, out: seq<byte>, mark: Mark, size: nat, p: Progress)
    requires start <= |stored|
  {
    var d := Decode(stored[start..], out, mark);
    match p
    case Rejected => d.None? || |d.value.raw| > size
    case Ended(decoded) => d == Some(Decoded(decoded, mark))
    case Continued(position, decoded, mark') =>
      start < position <= |stored| && |decoded| <= size && d == Decode(stored[position..], decoded, mark')
  }

  /** What the match half of a step may conclude about the match encoded at `start`. */
  ghost predicate MatchSound(stored: seq<byte>, start: nat, nibble: nat, literals: seq<byte>,
                             out: seq<byte>, size: nat, p: Progress)
    requires start <= |stored|
  {
    var item := ReadMatch(nibble, literals, stored[start..]);
    match p
    case Ended(_) => false
    case Rejected =>
      item.Malformed? || (item.Step? && (item.q.distance > |out| || |out| + item.q.matchLength > size))
    case Continued(position, decoded, mark) =>
      && start < position <= |stored| && |decoded| <= size
      && item.Step? && item.rest == stored[position..] && 1 <= item.q.distance <= |out|
      && decoded == Copied(out, item.q.distance, item.q.matchLength)
      && mark == Match(|out|, |out| + item.q.matchLength)
  }

  method DecodeMatch(stored: seq<byte>, size: nat, start: nat, nibble: nat, ghost literals: seq<byte>, out: seq<byte>)
    returns (p: Progress)
    requires start < |stored| && nibble < 16 && |literals| <= |out| <= size
    ensures MatchSound(stored, start, nibble, literals, out, size, p)
  {
    if |stored| - start < 2 {
      return Rejected;
    }
    var distance: int := stored[start] as int + 256 * stored[start + 1] as int;
    assert stored[start..][2..] == stored[start + 2..];
    if distance == 0 || distance > |out| {
      return Rejected;
    }
    var ok, position, length := ReadLengthAt(stored, size, start + 2, nibble);
    if !ok {
      return Rejected;
    }
    length := length + MIN_MATCH;
    if length > size - |out| {
      return Rejected;
    }
    var decoded := CopyMatch(out, distance, length);
    p := Continued(position, decoded, Match(|out|, |decoded|));
  }

  /** The element at `start`, in terms of positions in the whole stream. */
  lemma {:induction false} ItemAt(stored: seq<byte>, start: nat, position: nat, literals: nat)
    requires start < |stored| && position <= |stored|
    requires ReadLength(stored[start] / 16, stored[start + 1..]) == Some((literals, stored[position..]))
    ensures ReadItem(stored[start..]) ==
            if position + literals > |stored| then Malformed
            else if position + literals == |stored|
            then if stored[start] % 16 != 0 then Malformed else Final(stored[position..position + literals])
            else ReadMatch(stored[start] % 16, stored[position..position + literals], stored[position + literals..])
  {
    var tail := stored[position..];
    assert stored[start..][1..] == stored[start + 1..];
    if position + literals <= |stored| {
      assert tail[..literals] == stored[position..position + literals];
      assert tail[literals..] == stored[position + literals..];
    }
  }

  lemma {:induction false} DecodeItem(s: seq<byte>, out: seq<byte>, mark: Mark)
    requires s != []
    ensures ReadItem(s).Malformed? ==> Decode(s, out, mark).None?
    ensures ReadItem(s).Final? ==> Decode(s, out, mark) == Some(Decoded(out + ReadItem(s).literals, mark))
    ensures ReadItem(s).Step? && ReadItem(s).q.distance <= |out| + |ReadItem(s).q.literals| ==>
              var q := ReadItem(s).q;
              Decode(s, out, mark) == Decode(ReadItem(s).rest, Copied(out + q.literals, q.distance, q.matchLength),
                                             MarkOf(out, q))
    ensures ReadItem(s).Step? && ReadItem(s).q.distance > |out| + |ReadItem(s).q.literals| ==>
              Decode(s, out, mark).None?
  {
  }

  lemma {:induction false} MatchRejected(s: seq<byte>, run: seq<byte>, out: seq<byte>, mark: Mark, size: nat)
    requires s != []
    requires var item := ReadItem(s);
             || item.Malformed?
             || (item.Step? && item.q.literals == run
                 && (item.q.distance > |out + run| || |out + run| + item.q.matchLength > size))
    ensures var d := Decode(s, out, mark); d.None? || |d.value.raw| > size
  {
    DecodeItem(s, out, mark);
    if ReadItem(s).Step? && ReadItem(s).q.distance <= |out + run| {
      TooLongMatch(s, out, mark, size);
    }
  }

  lemma {:induction false} MatchContinued(s: seq<byte>, run: seq<byte>, out: seq<byte>, mark: Mark)
    requires s != [] && ReadItem(s).Step? && ReadItem(s).q.literals == run && ReadItem(s).q.distance <= |out + run|
    ensures var q := ReadItem(s).q;
            Decode(s, out, mark) == Decode(ReadItem(s).rest, Copied(out + run, q.distance, q.matchLength),
                                           Match(|out + run|, |out + run| + q.matchLength))
  {
    DecodeItem(s, out, mark);
  }

  lemma {:induction false} MatchStepSound(stored: seq<byte>, start: nat, position: nat, nibble: nat,
                                          run: seq<byte>, out: seq<byte>, mark: Mark, size: nat, p: Progress)
    requires start < position < |stored| && nibble < 16
    requires ReadItem(stored[start..]) == ReadMatch(nibble, run, stored[position..])
    requires MatchSound(stored, position, nibble, run, out + run, size, p)
    ensures StepSound(stored, start, out, mark, size, p)
  {
    match p
    case Ended(_) =>
    case Rejected => MatchRejected(stored[start..], run, out, mark, size);
    case Continued(next, decoded, mark') => MatchContinued(stored[start..], run, out, mark);
  }

  method DecodeSequenceAt(stored: seq<byte>, size: nat, start: nat, out: seq<byte>, ghost mark: Mark)
    returns (p: Progress)
    requires start < |stored| && |out| <= size
    ensures StepSound(stored, start, out, mark, size, p)
  {
    ghost var s := stored[start..];
    var token := stored[start];
    assert s[1..] == stored[start + 1..];
    var ok, position, literals := ReadLengthAt(stored, size, start + 1, token / 16);
    if !ok || literals > size - |out| {
      TooManyLiterals(s, out, mark, size);
      return Rejected;
    }
    ItemAt(stored, start, position, literals);
    if literals > |stored| - position {
      DecodeItem(s, out, mark);
      return Rejected;
    }
    p := DecodeAfterLength(stored, size, start, position, literals, out, mark);
  }

  /** The literals are there; either they end the block or a match follows. */
  method DecodeAfterLength(stored: seq<byte>, size: nat, start: nat, position: nat, literals: nat, out: seq<byte>,
                           ghost mark: Mark)
    returns (p: Progress)
    requires start < position && position + literals <= |stored| && |out| + literals <= size
    requires ReadItem(stored[start..]) ==
             if position + literals == |stored|
             then if stored[start] % 16 != 0 then Malformed else Final(stored[position..position + literals])
             else ReadMatch(stored[start] % 16, stored[position..position + literals], stored[position + literals..])
    ensures StepSound(stored, start, out, mark, size, p)
  {
    var nibble, run := stored[start] % 16, stored[position..position + literals];
    if position + literals == |stored| {
      p := if nibble != 0 then Rejected else Ended(out + run);
      DecodeItem(stored[start..], out, mark);
      return;
    }
    p := DecodeMatch(stored, size, position + literals, nibble, run, out + run);
    MatchStepSound(stored, start, position + literals, nibble, run, out, mark, size, p);
  }

  method DecodeBounded(stored: seq<byte>, size: nat) returns (r: Result<seq<byte>>)
    ensures r == match Decompressed(stored, size) case None => Err(Corrupt) case Some(raw) => Ok(raw)
  {
    var decoded: seq<byte>, position, mark := [], 0, NoMatch;
    assert stored[0..] == stored;
    while position < |stored|
      invariant position <= |stored| && |decoded| <= size
      invariant Decode(stored, [], NoMatch) == Decode(stored[position..], decoded, mark)
      decreases |stored| - position
    {
      var p := DecodeSequenceAt(stored, size, position, decoded, mark);
      match p
      case Rejected =>
        return Err(Corrupt);
      case Ended(all) =>
        return if |all| != size || !EndOfBlock(mark, size) then Err(Corrupt) else Ok(all);
      case Continued(position', decoded', mark') =>
        position, decoded, mark := position', decoded', mark';
    }
    return if |decoded| != size || !EndOfBlock(mark, size) then Err(Corrupt) else Ok(decoded);
  }

  /** Accepts exactly the conforming blocks of the declared size and returns what they stand for. */
  method Decompress(stored: seq<byte>, size: nat) returns (r: Result<seq<byte>>)
    ensures r.Ok? ==> |r.value| == size && Encodes(stored, r.value)
    ensures r.Err? ==> r.error == Corrupt && forall raw: seq<byte> | |raw| == size :: !Encodes(stored, raw)
  {
    r := DecodeBounded(stored, size);
    forall raw: seq<byte> | |raw| == size
      ensures Decompressed(stored, size) == Some(raw) <==> Encodes(stored, raw)
    {
      DecoderExact(stored, raw);
    }
  }

  // ------------------------------------------------- the encoder

  function MaxCompressedSize(size: nat): nat {
    size + size / 255 + 16
  }

  method WriteLength(length: nat, out: seq<byte>) returns (r: seq<byte>)
    ensures r == out + LengthTail(length)
  {
    r := out;
    var remaining := length;
    while remaining >= 255
      invariant 0 <= remaining <= length
      invariant out + LengthTail(length) == r + LengthTail(remaining)
    {
      Assoc(r, [255], LengthTail(remaining - 255));
      r := r + [255];
      remaining := remaining - 255;
    }
    r := r + [remaining];
  }

  /** Appends the escape bytes, if any, and returns the nibble that announces them. */
  method WriteEscape(length: nat, out: seq<byte>) returns (nibble: byte, r: seq<byte>)
    ensures nibble == Nibble(length) && r == out + Escape(length)
  {
    if length >= 15 {
      nibble := 15;
      r := WriteLength(length - 15, out);
    } else {
      nibble, r := length, out;
    }
  }

  lemma {:induction false} TokenPatched(out: seq<byte>, token: byte, tail: seq<byte>)
    ensures (out + [0] + tail)[|out| := token] == out + ([token] + tail)
  {
  }

  lemma {:induction false} SequenceAssembled(out: seq<byte>, token: byte, escape: seq<byte>, literals: seq<byte>,
                                             offset: seq<byte>, more: seq<byte>)
    ensures (out + [0] + escape + literals + offset + more)[|out| := token] ==
            out + ([token] + (escape + (literals + (offset + more))))
  {
    RegroupLeft(out + [0], escape, literals, offset, more);
    TokenPatched(out, token, escape + (literals + (offset + more)));
  }

  method EmitSequence(out: seq<byte>, q: Sequence) returns (r: seq<byte>)
    requires WellFormed(q)
    ensures r == out + SequenceBytes(q)
  {
    var high, low;
    var offset: seq<byte> := [q.distance % 256, q.distance / 256];
    high, r := WriteEscape(|q.literals|, out + [0]);
    r := r + q.literals;
    r := r + offset;
    low, r := WriteEscape(q.matchLength - MIN_MATCH, r);
    SequenceAssembled(out, high * 16 + low, Escape(|q.literals|), q.literals, offset,
                      Escape(q.matchLength - MIN_MATCH));
    r := r[|out| := high * 16 + low];
  }

  method EmitLastLiterals(out: seq<byte>, literals: seq<byte>) returns (r: seq<byte>)
    ensures r == out + LastBytes(literals)
  {
    var high;
    high, r := WriteEscape(|literals|, out + [0]);
    r := r + literals;
    Assoc(out + [0], Escape(|literals|), literals);
    TokenPatched(out, high * 16, Escape(|literals|) + literals);
    r := r[|out| := high * 16];
  }

  function Load32(data: seq<byte>, position: nat): nat
    requires position + 4 <= |data|
  {
    data[position] as int + 256 * data[position + 1] as int
    + 65536 * data[position + 2] as int + 16777216 * data[position + 3] as int
  }

  lemma {:induction false} Digits(a: byte, b: byte, c: byte, d: byte, a': byte, b': byte, c': byte, d': byte)
    requires a as int + 256 * b as int + 65536 * c as int + 16777216 * d as int
          == a' as int + 256 * b' as int + 65536 * c' as int + 16777216 * d' as int
    ensures a == a' && b == b' && c == c' && d == d'
  {
    LowDigit(a, a', b as int + 256 * c as int + 65536 * d as int, b' as int + 256 * c' as int + 65536 * d' as int);
    LowDigit(b, b', c as int + 256 * d as int, c' as int + 256 * d' as int);
    LowDigit(c, c', d as int, d' as int);
  }

  lemma {:induction false} LowDigit(a: byte, a': byte, rest: int, rest': int)
    requires a as int + 256 * rest == a' as int + 256 * rest'
    ensures a == a' && rest == rest'
  {
  }

  lemma {:induction false} Load32Equal(data: seq<byte>, position: nat, distance: nat)
    requires distance <= position && position + 4 <= |data|
    requires Load32(data, position - distance) == Load32(data, position)
    ensures forall k :: position <= k < position + 4 ==> data[k] == data[k - distance]
  {
    var i := position - distance;
    Digits(data[i], data[i + 1], data[i + 2], data[i + 3],
           data[position], data[position + 1], data[position + 2], data[position + 3]);
  }

  /** Multiplicative hashing in 32-bit arithmetic, keeping the top twelve bits. */
  function Hash(word: nat): (r: nat)
    ensures r < HASH_SIZE
  {
    (word * 2654435761 % 0x1_0000_0000) / 0x10_0000
  }

  /** Copying from `distance` back reproduces input that repeats at that distance. */
  lemma {:induction false} CopiedRepeats(data: seq<byte>, position: nat, distance: nat, n: nat)
    requires 1 <= distance <= position && position + n <= |data|
    requires forall k :: position <= k < position + n ==> data[k] == data[k - distance]
    ensures Copied(data[..position], distance, n) == data[..position + n]
    decreases n
  {
    if n > 0 {
      assert data[..position] + [data[position - distance]] == data[..position + 1];
      CopiedRepeats(data, position + 1, distance, n - 1);
    }
  }

  lemma {:induction false} SequenceCost(q: Sequence)
    requires WellFormed(q)
    ensures 255 * |SequenceBytes(q)| <= 256 * (|q.literals| + q.matchLength)
  {
  }

  lemma {:induction false} LastCost(literals: seq<byte>)
    ensures 255 * |LastBytes(literals)| <= 256 * |literals| + 495
  {
  }

  /** The state of the encoder: what was emitted stands for the input up to `anchor`. */
  ghost predicate Emitted(input: seq<byte>, anchor: nat, encoded: seq<byte>, qs: seq<Sequence>) {
    && anchor <= |input|
    && AllWellFormed(qs)
    && encoded == StreamBytes(qs)
    && Expand(qs) == Some(input[..anchor])
    && EndOfBlock(LastMatch(qs), |input|)
    && 255 * |encoded| <= 256 * anchor
  }

  lemma {:induction false} EmittedMore(input: seq<byte>, anchor: nat, position: nat, distance: nat, length: nat,
                                       encoded: seq<byte>, qs: seq<Sequence>)
    requires Emitted(input, anchor, encoded, qs)
    requires anchor <= position && 1 <= distance <= position && distance <= MAX_DISTANCE && length >= MIN_MATCH
    requires position + length + LAST_LITERALS <= |input| && position + MATCH_FIND_LIMIT <= |input|
    requires forall k :: position <= k < position + length ==> input[k] == input[k - distance]
    ensures var q := Sequence(input[anchor..position], distance, length);
            Emitted(input, position + length, encoded + SequenceBytes(q), qs + [q])
  {
    var q := Sequence(input[anchor..position], distance, length);
    assert input[..anchor] + input[anchor..position] == input[..position];
    CopiedRepeats(input, position, distance, length);
    ExpandLast(qs, q);
    SequenceCost(q);
  }

  /** Extends a four-byte match up to the last-literals limit. */
  method ExtendMatch(input: seq<byte>, position: nat, distance: nat, limit: nat) returns (length: nat)
    requires 1 <= distance <= position && position + MIN_MATCH <= limit <= |input|
    requires forall k :: position <= k < position + MIN_MATCH ==> input[k] == input[k - distance]
    ensures MIN_MATCH <= length && position + length <= limit
    ensures forall k :: position <= k < position + length ==> input[k] == input[k - distance]
    ensures position + length < limit ==> input[position + length] != input[position + length - distance]
  {
    length := MIN_MATCH;
    while position + length < limit && input[position - distance + length] == input[position + length]
      invariant MIN_MATCH <= length && position + length <= limit
      invariant forall k :: position <= k < position + length ==> input[k] == input[k - distance]
    {
      length := length + 1;
    }
  }

  /** The longest match at `position`, as a sequence whose literals start at `anchor`. */
  method MatchAt(input: seq<byte>, anchor: nat, position: nat, distance: nat) returns (q: Sequence)
    requires anchor <= position && position + MATCH_FIND_LIMIT < |input|
    requires 1 <= distance <= position && distance <= MAX_DISTANCE
    requires Load32(input, position - distance) == Load32(input, position)
    ensures WellFormed(q) && q.literals == input[anchor..position] && q.distance == distance
    ensures position + q.matchLength + LAST_LITERALS <= |input|
    ensures forall k :: position <= k < position + q.matchLength ==> input[k] == input[k - distance]
  {
    Load32Equal(input, position, distance);
    var length := ExtendMatch(input, position, distance, |input| - LAST_LITERALS);
    q := Sequence(input[anchor..position], distance, length);
  }

  method EmitMatchAt(input: seq<byte>, anchor: nat, position: nat, distance: nat, encoded: seq<byte>,
                     ghost qs: seq<Sequence>)
    returns (next: nat, encoded': seq<byte>, ghost qs': seq<Sequence>)
    requires Emitted(input, anchor, encoded, qs) && anchor <= position && position + MATCH_FIND_LIMIT < |input|
    requires 1 <= distance <= position && distance <= MAX_DISTANCE
    requires Load32(input, position - distance) == Load32(input, position)
    ensures position < next <= |input| && Emitted(input, next, encoded', qs')
    ensures AllSparse(qs) && Sparse(input[anchor..position]) ==> AllSparse(qs')
  {
    var q := MatchAt(input, anchor, position, distance);
    EmittedMore(input, anchor, position, distance, q.matchLength, encoded, qs);
    encoded' := EmitSequence(encoded, q);
    next, qs' := position + q.matchLength, qs + [q];
  }

  /** Five equal bytes in a row. */
  predicate Five(s: seq<byte>, i: nat) {
    i + 5 <= |s| && s[i] == s[i + 1] == s[i + 2] == s[i + 3] == s[i + 4]
  }

  ghost predicate Sparse(s: seq<byte>) {
    forall i: nat {:trigger Five(s, i)} :: !Five(s, i)
  }

  ghost predicate AllSparse(qs: seq<Sequence>) {
    forall k :: 0 <= k < |qs| ==> Sparse(qs[k].literals)
  }

  /** No five equal bytes begin between `anchor` and the last position visited. */
  ghost predicate Passed(input: seq<byte>, anchor: nat, position: nat) {
    forall i: nat {:trigger Five(input, i)} :: anchor <= i && i + 1 < position ==> !Five(input, i)
  }

  lemma {:induction false} FiveLoads(input: seq<byte>, i: nat)
    requires Five(input, i)
    ensures Load32(input, i) == Load32(input, i + 1)
  {
  }

  /** A position is passed over only if the one before it does not begin five equal bytes. */
  lemma {:induction false} PassedMore(input: seq<byte>, anchor: nat, position: nat, candidate: nat)
    requires Passed(input, anchor, position) && position + 4 <= |input| && candidate <= position
    requires anchor < position && Hash(Load32(input, position - 1)) == Hash(Load32(input, position)) ==>
               candidate == position
    requires || candidate == 0 || position - (candidate - 1) > MAX_DISTANCE
             || Load32(input, candidate - 1) != Load32(input, position)
    ensures Passed(input, anchor, position + 1)
  {
    if anchor < position && Five(input, position - 1) {
      FiveLoads(input, position - 1);
    }
  }

  lemma {:induction false} PassedIsSparse(input: seq<byte>, anchor: nat, end: nat, position: nat)
    requires Passed(input, anchor, position) && anchor <= end <= |input| && end <= position + 3
    ensures Sparse(input[anchor..end])
  {
    forall i: nat
      ensures !Five(input[anchor..end], i)
    {
      if Five(input[anchor..end], i) {
        assert Five(input, anchor + i);
      }
    }
  }

  /** The table knows no position ahead, and the last one visited; nothing long was passed over. */
  ghost predicate Searched(input: seq<byte>, anchor: nat, position: nat, table: seq<nat>) {
    forall k {:trigger Unfold(k)} :: Unfold(k) ==>
      && |table| == HASH_SIZE && (forall i :: 0 <= i < HASH_SIZE ==> table[i] <= position)
      && (anchor < position ==>
            position + MATCH_FIND_LIMIT <= |input| && table[Hash(Load32(input, position - 1))] == position)
      && Passed(input, anchor, position)
  }

  lemma {:induction false} SearchBegins(input: seq<byte>, anchor: nat, table: seq<nat>)
    requires Behind(table, anchor)
    ensures Searched(input, anchor, anchor, table)
  {
    assert Unfold(0);
  }

  /** The table knows no position from here on. */
  ghost predicate Behind(table: seq<nat>, position: nat) {
    forall k {:trigger Unfold(k)} :: Unfold(k) ==>
      |table| == HASH_SIZE && forall i :: 0 <= i < HASH_SIZE ==> table[i] <= position
  }

  lemma {:induction false} BehindLater(table: seq<nat>, position: nat, later: nat)
    requires Behind(table, position) && position <= later
    ensures Behind(table, later)
  {
    assert Unfold(0);
  }

  lemma {:induction false} SearchEnds(input: seq<byte>, anchor: nat, end: nat, position: nat, table: seq<nat>)
    requires Searched(input, anchor, position, table) && anchor <= end <= |input| && end <= position + 3
    ensures Sparse(input[anchor..end])
  {
    assert Unfold(0);
    PassedIsSparse(input, anchor, end, position);
  }

  /** Looks a position up and enters it; the distance of the match found, or zero. */
  method Probe(input: seq<byte>, ghost anchor: nat, position: nat, table: array<nat>) returns (distance: nat)
    requires table.Length == HASH_SIZE && position + MATCH_FIND_LIMIT < |input| && anchor <= position
    requires Searched(input, anchor, position, table[..])
    modifies table
    ensures distance == 0 ==> Searched(input, anchor, position + 1, table[..])
    ensures distance > 0 ==>
              && distance <= position && distance <= MAX_DISTANCE
              && Load32(input, position - distance) == Load32(input, position)
              && Sparse(input[anchor..position]) && Behind(table[..], position + 1)
  {
    assert Unfold(0);
    PassedIsSparse(input, anchor, position, position);
    var word := Load32(input, position);
    var slot := Hash(word);
    var candidate := table[slot];
    table[slot] := position + 1;
    if candidate == 0 || position - (candidate - 1) > MAX_DISTANCE || Load32(input, candidate - 1) != word {
      PassedMore(input, anchor, position, candidate);
      return 0;
    }
    return position - (candidate - 1);
  }

  /** Finds repeats through the hash table and emits every sequence but the last; long runs never stay literals. */
  method EmitMatches(input: seq<byte>) returns (encoded: seq<byte>, anchor: nat, ghost qs: seq<Sequence>)
    requires |input| > MATCH_FIND_LIMIT
    ensures Emitted(input, anchor, encoded, qs)
    ensures anchor <= |input| && 255 * |encoded| <= 256 * anchor
    ensures AllSparse(qs) && (anchor <= |input| - 9 ==> Sparse(input[anchor..|input| - 9]))
  {
    var table := new nat[HASH_SIZE](_ => 0);
    var position := 0;
    encoded, anchor, qs := [], 0, [];
    SearchBegins(input, anchor, table[..]);
    while position < |input| - MATCH_FIND_LIMIT
      invariant anchor <= position
      invariant Emitted(input, anchor, encoded, qs) && AllSparse(qs)
      invariant Searched(input, anchor, position, table[..])
      decreases |input| - position
    {
      var distance := Probe(input, anchor, position, table);
      if distance == 0 {
        position := position + 1;
      } else {
        ghost var was := position + 1;
        position, encoded, qs := EmitMatchAt(input, anchor, position, distance, encoded, qs);
        anchor := position;
        BehindLater(table[..], was, anchor);
        SearchBegins(input, anchor, table[..]);
      }
    }
    if anchor <= |input| - 9 {
      SearchEnds(input, anchor, |input| - 9, position, table[..]);
    }
  }

  /**
    Every input gets a conforming block within the declared bound, in which five equal bytes in a row never
    stay literals, except where the last nine bytes begin or behind.
   */
  method Compress(input: seq<byte>) returns (encoded: seq<byte>, ghost qs: seq<Sequence>, ghost last: seq<byte>)
    ensures Encodes(encoded, input) && EncodesWith(encoded, input, qs, last)
    ensures 0 < |encoded| <= |input| + |input| / 255 + 16
    ensures |input| > 12 ==> AllSparse(qs) && (|last| >= 9 ==> Sparse(last[..|last| - 9]))
  {
    var anchor := 0;
    qs := [];
    encoded := [];
    if |input| > MATCH_FIND_LIMIT {
      encoded, anchor, qs := EmitMatches(input);
    }
    var literals := input[anchor..];
    ghost var sequences := encoded;
    encoded := EmitLastLiterals(encoded, literals);
    LastCost(literals);
    assert input == input[..anchor] + literals;
    last := literals;
    assert |literals| >= 9 ==> literals[..|literals| - 9] == input[anchor..|input| - 9];
    assert EncodesWith(encoded, input, qs, literals);
  }

  /** What is compressed for a block decompresses to that block. */
  method RoundTrip(input: seq<byte>) returns (stored: seq<byte>, raw: Result<seq<byte>>)
    ensures raw == Ok(input)
    ensures |stored| <= MaxCompressedSize(|input|)
  {
    ghost var qs, last;
    stored, qs, last := Compress(input);
    raw := Decompress(stored, |input|);
    if raw.Ok? {
      EncodesFunctional(stored, raw.value, input);
    }
  }
}
