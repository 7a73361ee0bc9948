/** The built-in PackBits codec: byte runs and literal groups, encoder and bounded decoder. */
module PackBits {
  import opened Bytes

  const MAX_LITERAL := 128
  const MIN_RUN := 3
  const MAX_RUN := 130

  // ---------------------------------------------------------------- grammar

  datatype Group = Literal(bytes: seq<byte>) | Run(count: nat, value: byte)

  predicate WellFormed(g: Group) {
    match g
    case Literal(bytes) => 1 <= |bytes| <= MAX_LITERAL
    case Run(count, _) => MIN_RUN <= count <= MAX_RUN
  }

  function GroupBytes(g: Group): seq<byte>
    requires WellFormed(g)
  {
    match g
    case Literal(bytes) => [|bytes| - 1] + bytes
    case Run(count, value) => [128 + count - MIN_RUN, value]
  }

  function Repeat(value: byte, count: nat): (r: seq<byte>)
    ensures |r| == count && forall i :: 0 <= i < count ==> r[i] == value
  {
    if count == 0 then [] else Repeat(value, count - 1) + [value]
  }

  function GroupRaw(g: Group): (r: seq<byte>)
    requires WellFormed(g)
    ensures |r| > 0
  {
    match g
    case Literal(bytes) => bytes
    case Run(count, value) => Repeat(value, count)
  }

  predicate AllWellFormed(gs: seq<Group>) {
    forall i :: 0 <= i < |gs| ==> WellFormed(gs[i])
  }

  function StreamBytes(gs: seq<Group>): seq<byte>
    requires AllWellFormed(gs)
  {
    if gs == [] then [] else StreamBytes(gs[..|gs| - 1]) + GroupBytes(gs[|gs| - 1])
  }

  function Expand(gs: seq<Group>): seq<byte>
    requires AllWellFormed(gs)
  {
    if gs == [] then [] else Expand(gs[..|gs| - 1]) + GroupRaw(gs[|gs| - 1])
  }

  ghost predicate EncodesWith(stored: seq<byte>, raw: seq<byte>, gs: seq<Group>) {
    AllWellFormed(gs) && stored == StreamBytes(gs) && raw == Expand(gs)
  }

  ghost predicate Encodes(stored: seq<byte>, raw: seq<byte>) {
    exists gs :: EncodesWith(stored, raw, gs)
  }

  /** A control byte up to 127 announces that many literals and one more, any other a run of it less 125. */
  lemma {:induction false} GroupForm(g: Group)
    ensures WellFormed(g) <==> if g.Literal? then 1 <= |g.bytes| <= 128 else 3 <= g.count <= 130
    ensures WellFormed(g) && g.Literal? ==> GroupBytes(g)[0] <= 127 && |g.bytes| == GroupBytes(g)[0] as int + 1
    ensures WellFormed(g) && g.Literal? ==> GroupBytes(g)[1..] == GroupRaw(g) == g.bytes
    ensures WellFormed(g) && g.Run? ==>
              |GroupBytes(g)| == 2 && GroupBytes(g)[0] >= 128 && g.count == GroupBytes(g)[0] as int - 125
    ensures WellFormed(g) && g.Run? ==>
              |GroupRaw(g)| == g.count && forall i :: 0 <= i < g.count ==> GroupRaw(g)[i] == GroupBytes(g)[1]
  {
  }

  lemma {:induction false} GroupsSnoc(gs: seq<Group>, g: Group)
    requires AllWellFormed(gs) && WellFormed(g)
    ensures AllWellFormed(gs + [g])
    ensures StreamBytes(gs + [g]) == StreamBytes(gs) + GroupBytes(g)
    ensures Expand(gs + [g]) == Expand(gs) + GroupRaw(g)
  {
    assert (gs + [g])[..|gs|] == gs;
  }

  // ------------------------------------------------------ reference decoder

  datatype Item = Malformed | Item(group: Group, rest: seq<byte>)

  function ReadItem(s: seq<byte>): (r: Item)
    requires s != []
    ensures r.Item? ==> WellFormed(r.group) && |r.rest| < |s|
  {
    var token := s[0];
    if token < 128 then
      var count: nat := token + 1;
      if count > |s| - 1 then Malformed else Item(Literal(s[1..1 + count]), s[1 + count..])
    else if |s| == 1 then Malformed
    else Item(Run(token as int - 128 + MIN_RUN, s[1]), s[2..])
  }

  function Decode(s: seq<byte>, out: seq<byte>): (r: Option<seq<byte>>)
    ensures r.Some? ==> |r.value| >= |out|
    ensures r.Some? && s != [] ==> |r.value| > |out|
    decreases |s|
  {
    if s == [] then Some(out)
    else
      match ReadItem(s)
      case Malformed => None
      case Item(g, rest) => Decode(rest, out + GroupRaw(g))
  }

  lemma {:induction false} ReadBack(g: Group, rest: seq<byte>)
    requires WellFormed(g)
    ensures GroupBytes(g) + rest != [] && ReadItem(GroupBytes(g) + rest) == Item(g, rest)
  {
    var s := GroupBytes(g) + rest;
    match g
    case Literal(bytes) =>
      assert s[1..1 + |bytes|] == bytes && s[1 + |bytes|..] == rest;
    case Run(_, _) =>
      assert s[2..] == rest;
  }

  lemma {:induction false} ReadInverts(s: seq<byte>)
    requires s != [] && ReadItem(s).Item?
    ensures s == GroupBytes(ReadItem(s).group) + ReadItem(s).rest
  {
  }

  lemma {:induction false} DecodeStream(gs: seq<Group>, rest: seq<byte>)
    requires AllWellFormed(gs)
    ensures Decode(StreamBytes(gs) + rest, []) == Decode(rest, Expand(gs))
    decreases |gs|
  {
    if gs == [] {
      assert StreamBytes(gs) + rest == rest;
    } else {
      var init, g := gs[..|gs| - 1], gs[|gs| - 1];
      Assoc(StreamBytes(init), GroupBytes(g), rest);
      DecodeStream(init, GroupBytes(g) + rest);
      ReadBack(g, rest);
    }
  }

  lemma {:induction false} DecodeSound(gs: seq<Group>, s: seq<byte>)
    requires AllWellFormed(gs) && Decode(s, Expand(gs)).Some?
    ensures Encodes(StreamBytes(gs) + s, Decode(s, Expand(gs)).value)
    decreases |s|
  {
    if s == [] {
      assert StreamBytes(gs) + s == StreamBytes(gs);
      assert EncodesWith(StreamBytes(gs), Expand(gs), gs);
    } else {
      var item := ReadItem(s);
      ReadInverts(s);
      GroupsSnoc(gs, item.group);
      Assoc(StreamBytes(gs), GroupBytes(item.group), item.rest);
      DecodeSound(gs + [item.group], item.rest);
    }
  }

  /** The reference decoder accepts exactly the grammar. */
  lemma {:induction false} DecoderExact(stored: seq<byte>, raw: seq<byte>)
    ensures Decode(stored, []) == Some(raw) <==> Encodes(stored, raw)
  {
    if Decode(stored, []) == Some(raw) {
      DecodedIsEncoded(stored, [], raw);
    }
    if gs :| EncodesWith(stored, raw, gs) {
      EncodedIsDecoded(stored, raw, gs);
    }
  }

  lemma {:induction false} DecodedIsEncoded(stored: seq<byte>, gs: seq<Group>, raw: seq<byte>)
    requires gs == [] && Decode(stored, []) == Some(raw)
    ensures Encodes(stored, raw)
  {
    DecodeSound(gs, stored);
    assert StreamBytes(gs) + stored == stored;
  }

  lemma {:induction false} EncodedIsDecoded(stored: seq<byte>, raw: seq<byte>, gs: seq<Group>)
    requires EncodesWith(stored, raw, gs)
    ensures Decode(stored, []) == Some(raw)
  {
    DecodeStream(gs, []);
    assert StreamBytes(gs) + [] == StreamBytes(gs);
  }

  /** For each size, no accepted stream continues another one. */
  lemma {:induction false} PrefixFree(stored: seq<byte>, more: seq<byte>, x: seq<byte>, y: seq<byte>)
    requires Encodes(stored, x) && Encodes(stored + more, y) && |x| == |y|
    ensures more == [] && x == y
  {
    var gs :| EncodesWith(stored, x, gs);
    DecodeStream(gs, more);
    DecoderExact(stored + more, y);
  }

  // ---------------------------------------------------- the bounded decoder

  method Decompress(stored: seq<byte>, size: nat) returns (r: Result<seq<byte>>)
    ensures r.Ok? ==> |r.value| == size && Encodes(stored, r.value)
    ensures r.Err? ==> r.error == Corrupt && forall raw: seq<byte> | |raw| == size :: !Encodes(stored, raw)
  {
    r := DecodeBounded(stored, size);
    forall raw: seq<byte>
      ensures Decode(stored, []) == Some(raw) <==> Encodes(stored, raw)
    {
      DecoderExact(stored, raw);
    }
  }

  ghost predicate TooLong(s: seq<byte>, out: seq<byte>, size: nat) {
    Decode(s, out).Some? ==> |Decode(s, out).value| > size
  }

  /** A literal group that does not fit its input or the expected size cannot be part of the answer. */
  lemma {:induction false} LiteralRefused(s: seq<byte>, out: seq<byte>, size: nat)
    requires s != [] && s[0] < 128 && (s[0] as int + 1 > |s| - 1 || s[0] as int + 1 > size - |out|)
    ensures TooLong(s, out, size)
  {
  }

  lemma {:induction false} RunRefused(s: seq<byte>, out: seq<byte>, size: nat)
    requires s != [] && s[0] >= 128 && (|s| == 1 || s[0] as int - 128 + MIN_RUN > size - |out|)
    ensures TooLong(s, out, size)
  {
  }

  datatype Progress = Refused | Continue(position: nat, decoded: seq<byte>)

  method DecodeGroupAt(stored: seq<byte>, size: nat, start: nat, out: seq<byte>) returns (p: Progress, ghost g: Group)
    requires start < |stored| && |out| <= size
    ensures p.Refused? ==> TooLong(stored[start..], out, size)
    ensures p.Continue? ==>
              && start < p.position <= |stored| && |p.decoded| <= size && WellFormed(g)
              && GroupBytes(g) == stored[start..p.position] && p.decoded == out + GroupRaw(g)
  {
    var token, position := stored[start], start + 1;
    if token < 128 {
      var count := token as int + 1;
      if count > |stored| - position || count > size - |out| {
        LiteralRefused(stored[start..], out, size);
        return Refused, Literal([0]);
      }
      p := Continue(position + count, out + stored[position..position + count]);
      g := Literal(stored[position..position + count]);
    } else {
      var count := token as int - 128 + MIN_RUN;
      if position == |stored| || count > size - |out| {
        RunRefused(stored[start..], out, size);
        return Refused, Literal([0]);
      }
      p := Continue(position + 1, out + Repeat(stored[position], count));
      g := Run(count, stored[position]);
    }
  }

  /** The groups read so far, and what they stand for. */
  ghost predicate ReadSoFar(stored: seq<byte>, position: nat, gs: seq<Group>, decoded: seq<byte>) {
    && position <= |stored| && AllWellFormed(gs)
    && StreamBytes(gs) == stored[..position] && Expand(gs) == decoded
  }

  lemma {:induction false} ReadMore(stored: seq<byte>, position: nat, gs: seq<Group>, decoded: seq<byte>, g: Group,
                                    next: nat)
    requires ReadSoFar(stored, position, gs, decoded) && WellFormed(g)
    requires position <= next <= |stored| && GroupBytes(g) == stored[position..next]
    ensures ReadSoFar(stored, next, gs + [g], decoded + GroupRaw(g))
  {
    GroupsSnoc(gs, g);
    assert stored[..next] == stored[..position] + stored[position..next];
  }

  /** Where the rest of the stream cannot succeed, the whole stream cannot. */
  lemma {:induction false} RestRefused(stored: seq<byte>, position: nat, gs: seq<Group>, decoded: seq<byte>, size: nat)
    requires ReadSoFar(stored, position, gs, decoded) && TooLong(stored[position..], decoded, size)
    ensures TooLong(stored, [], size)
  {
    DecodeStream(gs, stored[position..]);
    assert stored[..position] + stored[position..] == stored;
  }

  lemma {:induction false} AllRead(stored: seq<byte>, gs: seq<Group>, decoded: seq<byte>)
    requires ReadSoFar(stored, |stored|, gs, decoded)
    ensures Decode(stored, []) == Some(decoded)
  {
    DecodeStream(gs, []);
    assert stored[..|stored|] + [] == stored;
  }

  method DecodeGroups(stored: seq<byte>, size: nat) returns (r: Option<seq<byte>>)
    ensures r.Some? ==> Decode(stored, []) == r
    ensures r.None? ==> TooLong(stored, [], size)
  {
    var decoded: seq<byte>, position := [], 0;
    ghost var gs: seq<Group> := [];
    while position < |stored|
      invariant |decoded| <= size && ReadSoFar(stored, position, gs, decoded)
      decreases |stored| - position
    {
      var p, g := DecodeGroupAt(stored, size, position, decoded);
      if p.Refused? {
        RestRefused(stored, position, gs, decoded, size);
        return None;
      }
      ReadMore(stored, position, gs, decoded, g, p.position);
      gs, position, decoded := gs + [g], p.position, p.decoded;
    }
    AllRead(stored, gs, decoded);
    return Some(decoded);
  }

  method DecodeBounded(stored: seq<byte>, size: nat) returns (r: Result<seq<byte>>)
    ensures r == match Decode(stored, [])
                 case Some(raw) => (if |raw| == size then Ok(raw) else Err(Corrupt))
                 case None => Err(Corrupt)
  {
    var decoded := DecodeGroups(stored, size);
    r := if decoded.None? || |decoded.value| != size then Err(Corrupt) else Ok(decoded.value);
  }

  // ------------------------------------------------------------ the encoder

  function MaxCompressedSize(size: nat): nat {
    size + size / 128 + (if size % 128 == 0 then 0 else 1)
  }

  predicate RunAt(input: seq<byte>, position: nat, count: nat) {
    position + count <= |input| && forall i :: position <= i < position + count ==> input[i] == input[position]
  }

  /** The length of the run starting here, up to the longest one a token can express. */
  method Repeated(input: seq<byte>, position: nat) returns (count: nat)
    requires position < |input|
    ensures 1 <= count <= MAX_RUN && RunAt(input, position, count)
    ensures count < MAX_RUN && position + count < |input| ==> input[position + count] != input[position]
  {
    count := 1;
    while position + count < |input| && count < MAX_RUN && input[position + count] == input[position]
      invariant 1 <= count <= MAX_RUN && RunAt(input, position, count)
    {
      count := count + 1;
    }
  }

  /** Either the input ends here or a run long enough for a token starts here. */
  predicate RunOrEnd(input: seq<byte>, position: nat) {
    position == |input| || RunAt(input, position, MIN_RUN)
  }

  predicate Triple(s: seq<byte>, i: nat) {
    i + 3 <= |s| && s[i] == s[i + 1] == s[i + 2]
  }

  /** No three equal bytes in a row lie between the two positions. */
  ghost predicate NoTriple(input: seq<byte>, begin: nat, end: nat) {
    forall i: nat {:trigger Triple(input, i)} :: begin <= i && i + 3 <= end ==> !Triple(input, i)
  }

  /** Runs of three or more bytes never stay literals. */
  ghost predicate NoLiteralRuns(gs: seq<Group>) {
    forall k :: 0 <= k < |gs| && gs[k].Literal? ==> NoTriple(gs[k].bytes, 0, |gs[k].bytes|)
  }

  lemma {:induction false} NoTripleInside(input: seq<byte>, begin: nat, end: nat)
    requires begin <= end <= |input| && NoTriple(input, begin, end)
    ensures NoTriple(input[begin..end], 0, end - begin)
  {
    var bytes := input[begin..end];
    forall i: nat | i + 3 <= |bytes|
      ensures !Triple(bytes, i)
    {
      assert Triple(bytes, i) ==> Triple(input, begin + i);
    }
  }

  /** Extends a literal group until it is full, the input ends, or a run starts. */
  method LiteralEnd(input: seq<byte>, begin: nat, start: nat) returns (position: nat)
    requires begin < start <= |input| && start - begin <= 2 && RunAt(input, begin, start - begin)
    requires start < |input| ==> input[start] != input[begin]
    ensures start <= position <= |input| && position - begin <= MAX_LITERAL
    ensures position - begin < MAX_LITERAL ==> RunOrEnd(input, position)
    ensures NoTriple(input, begin, position)
  {
    position := start;
    while position < |input| && position - begin < MAX_LITERAL
      invariant start <= position <= |input| && position - begin <= MAX_LITERAL
      invariant NoTriple(input, begin, position)
      invariant position < |input| && position - begin < MAX_LITERAL ==> input[position - 1] != input[position]
    {
      var run := Repeated(input, position);
      if run >= MIN_RUN {
        return;
      }
      position := position + (if run < MAX_LITERAL - (position - begin) then run else MAX_LITERAL - (position - begin));
    }
  }

  /** What was emitted stands for the input so far; `full` groups of 128 and a pending short one pay for it. */
  ghost predicate Emitted(input: seq<byte>, position: nat, encoded: seq<byte>, gs: seq<Group>, full: nat,
                          pending: nat) {
    && position <= |input| && pending <= 1
    && EncodesWith(encoded, input[..position], gs)
    && |encoded| <= position + full + pending && 128 * full + pending <= position
    && (pending == 1 ==> RunOrEnd(input, position)) && NoLiteralRuns(gs)
  }

  lemma {:induction false} RunIsRepeat(input: seq<byte>, position: nat, count: nat)
    requires RunAt(input, position, count) && count > 0
    ensures input[position..position + count] == Repeat(input[position], count)
  {
  }

  lemma {:induction false} EmittedMore(input: seq<byte>, position: nat, end: nat, encoded: seq<byte>, gs: seq<Group>,
                                       g: Group)
    requires position <= end <= |input| && EncodesWith(encoded, input[..position], gs)
    requires WellFormed(g) && GroupRaw(g) == input[position..end]
    ensures EncodesWith(encoded + GroupBytes(g), input[..end], gs + [g])
  {
    GroupsSnoc(gs, g);
    assert input[..end] == input[..position] + input[position..end];
  }

  lemma {:induction false} GroupsPay(size: nat, full: nat, pending: nat)
    requires 128 * full + pending <= size && pending <= 1
    ensures size + full + pending <= MaxCompressedSize(size)
  {
  }

  lemma {:induction false} EmittedRun(input: seq<byte>, position: nat, run: nat, encoded: seq<byte>, gs: seq<Group>,
                                      full: nat, pending: nat)
    requires Emitted(input, position, encoded, gs, full, pending)
    requires RunAt(input, position, run) && MIN_RUN <= run <= MAX_RUN
    ensures var g := Run(run, input[position]);
            Emitted(input, position + run, encoded + GroupBytes(g), gs + [g], full, 0)
  {
    RunIsRepeat(input, position, run);
    EmittedMore(input, position, position + run, encoded, gs, Run(run, input[position]));
  }

  /** A full literal group pays for itself; a shorter one is paid for by the run that follows it. */
  lemma {:induction false} EmittedLiteral(input: seq<byte>, position: nat, end: nat, encoded: seq<byte>, gs: seq<Group>,
                                          full: nat)
    requires Emitted(input, position, encoded, gs, full, 0) && position < end <= |input|
    requires end - position <= MAX_LITERAL && (end - position < MAX_LITERAL ==> RunOrEnd(input, end))
    requires NoTriple(input, position, end)
    ensures var g := Literal(input[position..end]);
            Emitted(input, end, encoded + GroupBytes(g), gs + [g], full + (end - position) / MAX_LITERAL,
                    1 - (end - position) / MAX_LITERAL)
  {
    EmittedMore(input, position, end, encoded, gs, Literal(input[position..end]));
    NoTripleInside(input, position, end);
  }

  method EmitRun(input: seq<byte>, position: nat, run: nat, encoded: seq<byte>, ghost gs: seq<Group>, ghost full: nat,
                 ghost pending: nat)
    returns (encoded': seq<byte>, ghost gs': seq<Group>)
    requires Emitted(input, position, encoded, gs, full, pending)
    requires RunAt(input, position, run) && MIN_RUN <= run <= MAX_RUN
    ensures Emitted(input, position + run, encoded', gs', full, 0)
  {
    EmittedRun(input, position, run, encoded, gs, full, pending);
    encoded' := encoded + [128 + run - MIN_RUN, input[position]];
    gs' := gs + [Run(run, input[position])];
  }

  method EmitLiteral(input: seq<byte>, position: nat, end: nat, encoded: seq<byte>, ghost gs: seq<Group>,
                     ghost full: nat)
    returns (encoded': seq<byte>, ghost gs': seq<Group>, ghost full': nat, ghost pending: nat)
    requires Emitted(input, position, encoded, gs, full, 0) && position < end <= |input|
    requires end - position <= MAX_LITERAL && (end - position < MAX_LITERAL ==> RunOrEnd(input, end))
    requires NoTriple(input, position, end)
    ensures Emitted(input, end, encoded', gs', full', pending)
  {
    EmittedLiteral(input, position, end, encoded, gs, full);
    var bytes := input[position..end];
    encoded' := encoded + ([|bytes| - 1] + bytes);
    gs' := gs + [Literal(bytes)];
    full', pending := full + (end - position) / MAX_LITERAL, 1 - (end - position) / MAX_LITERAL;
  }

  /** One group: a run when there is one, else literals up to the next run. */
  method EmitGroup(input: seq<byte>, position: nat, encoded: seq<byte>, ghost gs: seq<Group>, ghost full: nat,
                   ghost pending: nat)
    returns (end: nat, encoded': seq<byte>, ghost gs': seq<Group>, ghost full': nat, ghost pending': nat)
    requires Emitted(input, position, encoded, gs, full, pending) && position < |input|
    ensures position < end && Emitted(input, end, encoded', gs', full', pending')
  {
    var run := Repeated(input, position);
    if run >= MIN_RUN {
      end, full', pending' := position + run, full, 0;
      encoded', gs' := EmitRun(input, position, run, encoded, gs, full, pending);
    } else {
      end := LiteralEnd(input, position, position + run);
      encoded', gs', full', pending' := EmitLiteral(input, position, end, encoded, gs, full);
    }
  }

  lemma {:induction false} EmittedAll(input: seq<byte>, encoded: seq<byte>, gs: seq<Group>, full: nat, pending: nat)
    requires Emitted(input, |input|, encoded, gs, full, pending)
    ensures EncodesWith(encoded, input, gs) && NoLiteralRuns(gs)
    ensures Encodes(encoded, input) && |encoded| <= MaxCompressedSize(|input|)
  {
    assert input[..|input|] == input;
    GroupsPay(|input|, full, pending);
  }

  /** Every input gets a stream of the grammar within the declared bound, with every longer run as a run. */
  method Compress(input: seq<byte>) returns (encoded: seq<byte>, ghost gs: seq<Group>)
    ensures Encodes(encoded, input) && EncodesWith(encoded, input, gs) && NoLiteralRuns(gs)
    ensures |encoded| <= |input| + (|input| + 127) / 128
  {
    encoded := [];
    var position := 0;
    gs := [];
    ghost var full, pending := 0, 0;
    while position < |input|
      invariant Emitted(input, position, encoded, gs, full, pending)
      decreases |input| - position
    {
      position, encoded, gs, full, pending := EmitGroup(input, position, encoded, gs, full, pending);
    }
    EmittedAll(input, encoded, gs, full, pending);
  }

  /** What is compressed for a block decompresses to that block. */
  method RoundTrip(input: seq<byte>) returns (stored: seq<byte>, raw: Result<seq<byte>>)
    ensures raw == Ok(input) && |stored| <= MaxCompressedSize(|input|)
  {
    ghost var gs;
    stored, gs := Compress(input);
    raw := Decompress(stored, |input|);
    if raw.Ok? {
      DecoderExact(stored, raw.value);
      DecoderExact(stored, input);
    }
  }
}
