/**
  Recovery of one partition: the validated scan, and why what it accepts is always a
  list that some writer really held in memory.
 */
module Recovery {
  import opened Bytes
  import opened Media

  /** A frame some writer issued, with the list it held in memory at that moment. */
  datatype Issue = Issue(frame: Frame, prefix: seq<Frame>)

  function LastWriter(frames: seq<Frame>): nat {
    if frames == [] then 0 else frames[|frames| - 1].writer
  }

  /** The writers of some frames, one by one; entries of an index carry them in memory only. */
  function WritersOf(frames: seq<Frame>): (ws: seq<nat>)
    ensures |ws| == |frames| && forall i :: 0 <= i < |ws| ==> ws[i] == frames[i].writer
  {
    seq(|frames|, i requires 0 <= i < |frames| => frames[i].writer)
  }

  function LastOf(writers: seq<nat>): nat {
    if writers == [] then 0 else writers[|writers| - 1]
  }

  // ------------------------------------------------------------------- ledger

  /** What the writer guarantees of every frame it issues. */
  predicate FrameOk(g: Geometry, f: Frame)
    requires ValidGeometry(g)
  {
    && f.generation > 0 && f.slot == SlotOf(g, f.generation)
    && f.writer != 0
    && |f.records| > 0 && f.minTime <= f.maxTime
    && (forall i :: 0 <= i < |f.records| ==> f.minTime <= f.records[i].time <= f.maxTime)
    && 1 <= f.stored <= RawSize(f.records) <= g.maxPayload
    && f.span == AlignUp(BLOCK_HEADER + f.stored, g.quantum)
  }

  predicate IssueOk(g: Geometry, i: Issue)
    requires ValidGeometry(g)
  {
    && FrameOk(g, i.frame)
    && i.frame.sequence == |i.prefix|
    && i.frame.previousWriter == LastWriter(i.prefix)
    && DataEnd(i.prefix) + i.frame.span <= g.indexBegin
    && |i.prefix| < g.indexCapacity
  }

  /** Every element was issued on top of exactly the elements before it. */
  ghost predicate Chained(issued: set<Issue>, generation: nat, frames: seq<Frame>) {
    forall k :: 0 <= k < |frames| ==> frames[k].generation == generation && Issue(frames[k], frames[..k]) in issued
  }

  predicate SamePosition(a: Frame, b: Frame) {
    a.writer == b.writer && a.generation == b.generation && a.sequence == b.sequence
  }

  /** No incarnation issues two frames with one (generation, sequence). */
  ghost predicate OneFramePerPosition(issued: set<Issue>) {
    forall i, j {:trigger SamePosition(i.frame, j.frame)} ::
      i in issued && j in issued && SamePosition(i.frame, j.frame) ==> i == j
  }

  ghost predicate Ledger(g: Geometry, issued: set<Issue>)
    requires ValidGeometry(g)
  {
    && (forall i {:trigger IssueOk(g, i)} :: i in issued ==> IssueOk(g, i))
    && (forall i {:trigger Chained(issued, i.frame.generation, i.prefix)} ::
          i in issued ==> Chained(issued, i.frame.generation, i.prefix))
    && OneFramePerPosition(issued)
  }

  ghost predicate IssuedAt(issued: set<Issue>, p: Place, f: Frame) {
    exists i :: i in issued && i.frame == f && p == FrameAt(f.slot, DataEnd(i.prefix))
  }

  /** Any frame that passes its CRC was issued, and issued for that place. */
  ghost predicate FramesIssued(issued: set<Issue>, image: Image) {
    forall p :: Get(image, p).FrameCell? ==> IssuedAt(issued, p, Get(image, p).frame)
  }

  // --------------------------------------------------------------------- scan

  lemma TotalSpanSnoc(frames: seq<Frame>, f: Frame)
    ensures TotalSpan(frames + [f]) == TotalSpan(frames) + f.span
  {
    assert (frames + [f])[..|frames|] == frames;
  }

  /** The checks a scan makes on the frame it finds at `cursor`, behind `sequence` frames, the last by `writer`. */
  predicate Admits(g: Geometry, h: Header, limit: nat, cursor: nat, sequence: nat, writer: nat, f: Frame)
    requires g.quantum > 0
  {
    && f.generation == h.generation && f.slot == h.slot
    && f.previousWriter == writer && f.sequence == sequence
    && |f.records| > 0 && f.minTime <= f.maxTime
    && f.stored <= g.maxPayload && RawSize(f.records) <= g.maxPayload
    && f.span % g.quantum == 0 && cursor % g.quantum == 0
    && f.span <= limit - cursor
    && f.span == AlignUp(BLOCK_HEADER + f.stored, g.quantum)
  }

  predicate Accepted(g: Geometry, h: Header, limit: nat, sofar: seq<Frame>, f: Frame)
    requires g.quantum > 0
  {
    Admits(g, h, limit, DataEnd(sofar), |sofar|, LastWriter(sofar), f)
  }

  /** The next frame a scan accepts, if any. */
  function NextFrame(g: Geometry, image: Image, h: Header, limit: nat, sofar: seq<Frame>): Option<Frame>
    requires g.quantum > 0
  {
    var cell := Get(image, FrameAt(h.slot, DataEnd(sofar)));
    if DataEnd(sofar) + BLOCK_HEADER <= limit && cell.FrameCell? && Accepted(g, h, limit, sofar, cell.frame)
    then Some(cell.frame) else None
  }

  function Scan(g: Geometry, image: Image, h: Header, limit: nat, sofar: seq<Frame>): (r: seq<Frame>)
    requires g.quantum > 0
    ensures sofar <= r
    decreases if DataEnd(sofar) <= limit then limit - DataEnd(sofar) else 0
  {
    match NextFrame(g, image, h, limit, sofar)
    case None => sofar
    case Some(f) =>
      TotalSpanSnoc(sofar, f);
      Scan(g, image, h, limit, sofar + [f])
  }

  // ------------------------------------------------------------- true history

  /** Two chained lists of one length that end with the same incarnation are the same list. */
  lemma {:induction false} ChainsAgree(g: Geometry, issued: set<Issue>, generation: nat, a: seq<Frame>, b: seq<Frame>)
    requires ValidGeometry(g) && Ledger(g, issued)
    requires Chained(issued, generation, a) && Chained(issued, generation, b)
    requires |a| == |b| && LastWriter(a) == LastWriter(b)
    ensures a == b
  {
    var k := |a|;
    if k > 0 {
      var ia, ib := Issue(a[k - 1], a[..k - 1]), Issue(b[k - 1], b[..k - 1]);
      assert ia in issued && ib in issued;
      assert IssueOk(g, ia) && IssueOk(g, ib);
      assert SamePosition(ia.frame, ib.frame);
      assert a == a[..k - 1] + [a[k - 1]];
      assert b == b[..k - 1] + [b[k - 1]];
    }
  }

  /** The heart of the writer chain: an accepted frame was issued on top of exactly what precedes it. */
  lemma {:induction false} AcceptedWasIssuedHere(g: Geometry, issued: set<Issue>, image: Image, h: Header,
                                                 limit: nat, sofar: seq<Frame>)
    requires ValidGeometry(g) && Ledger(g, issued) && FramesIssued(issued, image)
    requires Chained(issued, h.generation, sofar)
    requires NextFrame(g, image, h, limit, sofar).Some?
    ensures Issue(NextFrame(g, image, h, limit, sofar).value, sofar) in issued
  {
    var f := NextFrame(g, image, h, limit, sofar).value;
    assert IssuedAt(issued, FrameAt(h.slot, DataEnd(sofar)), f);
    var i :| i in issued && i.frame == f && FrameAt(h.slot, DataEnd(sofar)) == FrameAt(f.slot, DataEnd(i.prefix));
    assert IssueOk(g, i) && Chained(issued, i.frame.generation, i.prefix);
    ChainsAgree(g, issued, h.generation, i.prefix, sofar);
    assert i == Issue(f, sofar);
  }

  lemma {:induction false} ChainedSnoc(issued: set<Issue>, generation: nat, frames: seq<Frame>, f: Frame)
    requires Chained(issued, generation, frames)
    requires f.generation == generation && Issue(f, frames) in issued
    ensures Chained(issued, generation, frames + [f])
  {
    var more := frames + [f];
    forall k | 0 <= k < |more|
      ensures more[k].generation == generation && Issue(more[k], more[..k]) in issued
    {
      assert more[..k] == frames[..k];
    }
  }

  /**
    True history: whatever the media holds, if every valid frame on it was issued, then each
    frame a scan accepts was issued by a writer that held exactly the accepted frames before it.
   */
  lemma {:induction false} ScanIsTrueHistory(g: Geometry, issued: set<Issue>, image: Image, h: Header,
                                             limit: nat, sofar: seq<Frame>)
    requires ValidGeometry(g) && Ledger(g, issued) && FramesIssued(issued, image)
    requires Chained(issued, h.generation, sofar)
    ensures Chained(issued, h.generation, Scan(g, image, h, limit, sofar))
    decreases if DataEnd(sofar) <= limit then limit - DataEnd(sofar) else 0
  {
    match NextFrame(g, image, h, limit, sofar)
    case None =>
    case Some(f) =>
      AcceptedWasIssuedHere(g, issued, image, h, limit, sofar);
      ChainedSnoc(issued, h.generation, sofar, f);
      TotalSpanSnoc(sofar, f);
      ScanIsTrueHistory(g, issued, image, h, limit, sofar + [f]);
  }

  // ------------------------------------------------ what is placed is found

  /** The frames lie back to back on the media from the start of the data region. */
  ghost predicate Placed(image: Image, slot: nat, frames: seq<Frame>) {
    forall k :: 0 <= k < |frames| ==> Get(image, FrameAt(slot, DataEnd(frames[..k]))) == FrameCell(frames[k])
  }

  lemma {:induction false} MultipleOf(q: nat, k: nat)
    requires q > 0
    ensures (q * k) % q == 0
  {
    var d, r := (q * k) / q, (q * k) % q;
    assert q * (k - d) == r;
    assert k - d >= 1 ==> q * (k - d) >= q;
    assert k - d <= -1 ==> q * (k - d) + q <= 0;
  }

  lemma {:induction false} AlignUpAligned(value: nat, q: nat)
    requires q > 0
    ensures AlignUp(value, q) % q == 0
  {
    if value % q != 0 {
      assert AlignUp(value, q) == q * (value / q + 1);
      MultipleOf(q, value / q + 1);
    }
  }

  lemma {:induction false} SumAligned(a: nat, b: nat, q: nat)
    requires q > 0 && a % q == 0 && b % q == 0
    ensures (a + b) % q == 0
  {
    assert a + b == q * (a / q + b / q);
    MultipleOf(q, a / q + b / q);
  }

  lemma {:induction false} DataEndAligned(g: Geometry, issued: set<Issue>, generation: nat, frames: seq<Frame>)
    requires ValidGeometry(g) && Ledger(g, issued) && Chained(issued, generation, frames)
    ensures DataEnd(frames) % g.quantum == 0
    decreases |frames|
  {
    if frames != [] {
      var n := |frames| - 1;
      var init := frames[..n];
      ChainedPrefix(issued, generation, frames, n);
      DataEndAligned(g, issued, generation, init);
      assert IssueOk(g, Issue(frames[n], init));
      AlignUpAligned(BLOCK_HEADER + frames[n].stored, g.quantum);
      SumAligned(DataEnd(init), frames[n].span, g.quantum);
    }
  }

  lemma {:induction false} TotalSpanMonotone(frames: seq<Frame>, k: nat)
    requires k <= |frames|
    ensures TotalSpan(frames[..k]) <= TotalSpan(frames)
    decreases |frames|
  {
    if k < |frames| {
      var init := frames[..|frames| - 1];
      assert init[..k] == frames[..k];
      TotalSpanMonotone(init, k);
    } else {
      assert frames[..k] == frames;
    }
  }

  lemma {:induction false} ChainedPrefix(issued: set<Issue>, generation: nat, frames: seq<Frame>, k: nat)
    requires Chained(issued, generation, frames) && k <= |frames|
    ensures Chained(issued, generation, frames[..k])
  {
    var head := frames[..k];
    assert forall j :: 0 <= j < k ==> head[..j] == frames[..j];
  }

  /** A frame issued behind `sofar` passes every check a scan makes there. */
  lemma {:induction false} IssuedAccepted(g: Geometry, issued: set<Issue>, h: Header, limit: nat,
                                          sofar: seq<Frame>, f: Frame)
    requires ValidGeometry(g) && Ledger(g, issued) && Chained(issued, h.generation, sofar)
    requires h.generation > 0 && h.slot == SlotOf(g, h.generation)
    requires IssueOk(g, Issue(f, sofar)) && f.generation == h.generation
    requires DataEnd(sofar) + f.span <= limit
    ensures Accepted(g, h, limit, sofar, f)
  {
    DataEndAligned(g, issued, h.generation, sofar);
    AlignUpAligned(BLOCK_HEADER + f.stored, g.quantum);
  }

  /** A placed and chained frame is the next one a scan accepts. */
  lemma {:induction false} PlacedAccepted(g: Geometry, issued: set<Issue>, image: Image, h: Header,
                                          limit: nat, frames: seq<Frame>, k: nat)
    requires ValidGeometry(g) && Ledger(g, issued) && Chained(issued, h.generation, frames)
    requires h.generation > 0 && h.slot == SlotOf(g, h.generation)
    requires Placed(image, h.slot, frames) && DataEnd(frames) <= limit && k < |frames|
    ensures NextFrame(g, image, h, limit, frames[..k]) == Some(frames[k])
    ensures DataEnd(frames[..k + 1]) == DataEnd(frames[..k]) + frames[k].span <= limit
  {
    var sofar, f := frames[..k], frames[k];
    assert IssueOk(g, Issue(f, sofar));
    ChainedPrefix(issued, h.generation, frames, k);
    assert frames[..k + 1] == sofar + [f];
    TotalSpanSnoc(sofar, f);
    TotalSpanMonotone(frames, k + 1);
    IssuedAccepted(g, issued, h, limit, sofar, f);
  }

  /** A scan passes over everything that is placed. */
  lemma {:induction false} ScanPassesPlaced(g: Geometry, issued: set<Issue>, image: Image, h: Header,
                                            limit: nat, frames: seq<Frame>, k: nat)
    requires ValidGeometry(g) && Ledger(g, issued) && Chained(issued, h.generation, frames)
    requires h.generation > 0 && h.slot == SlotOf(g, h.generation)
    requires Placed(image, h.slot, frames) && DataEnd(frames) <= limit && k <= |frames|
    ensures Scan(g, image, h, limit, frames[..k]) == Scan(g, image, h, limit, frames)
    decreases |frames| - k
  {
    if k < |frames| {
      var sofar, f := frames[..k], frames[k];
      PlacedAccepted(g, issued, image, h, limit, frames, k);
      assert frames[..k + 1] == sofar + [f];
      assert Scan(g, image, h, limit, sofar) == Scan(g, image, h, limit, sofar + [f]);
      ScanPassesPlaced(g, issued, image, h, limit, frames, k + 1);
    } else {
      assert frames[..k] == frames;
    }
  }

  /** A scan from the start finds at least what is placed, and exactly that when bounded by its end. */
  lemma {:induction false} ScanFindsPlaced(g: Geometry, issued: set<Issue>, image: Image, h: Header,
                                           limit: nat, frames: seq<Frame>)
    requires ValidGeometry(g) && Ledger(g, issued) && Chained(issued, h.generation, frames)
    requires h.generation > 0 && h.slot == SlotOf(g, h.generation)
    requires Placed(image, h.slot, frames) && DataEnd(frames) <= limit
    ensures frames <= Scan(g, image, h, limit, [])
    ensures limit == DataEnd(frames) ==> Scan(g, image, h, limit, []) == frames
  {
    ScanPassesPlaced(g, issued, image, h, limit, frames, 0);
    assert frames[..0] == [];
  }

  // ---------------------------------------------------- sealed partitions

  function EntryOf(f: Frame, offset: nat): Entry {
    Entry(offset, BLOCK_HEADER + f.stored, f.span, f.sequence, |f.records|, f.minTime, f.maxTime, RawSize(f.records))
  }

  function EntriesOf(frames: seq<Frame>): (es: seq<Entry>)
    ensures |es| == |frames|
  {
    if frames == [] then []
    else
      var init := frames[..|frames| - 1];
      EntriesOf(init) + [EntryOf(frames[|frames| - 1], DataEnd(init))]
  }

  function FooterOf(g: Geometry, generation: nat, frames: seq<Frame>): Footer
    requires ValidGeometry(g) && generation > 0
  {
    Footer(generation, SlotOf(g, generation), |frames|, DataEnd(frames), EntriesOf(frames))
  }

  /** The footer of this header's generation, when the media holds one that passes its checks. */
  function ReadFooter(g: Geometry, image: Image, h: Header): Option<Footer>
    requires g.quantum > 0
  {
    match Get(image, FooterAt(h.slot))
    case FooterCell(ft) =>
      if && ft.slot == h.slot && ft.generation == h.generation
         && |ft.index| == ft.blockCount <= g.indexCapacity
         && REGION <= ft.dataEnd <= g.indexBegin && ft.dataEnd % g.quantum == 0
         && (ft.blockCount == 0 ==> ft.dataEnd == REGION)
      then Some(ft) else None
    case _ => None
  }

  predicate EntryValid(g: Geometry, e: Entry, sequence: nat, offset: nat)
    requires g.quantum > 0
  {
    && e.sequence == sequence && e.offset == offset
    && e.recordCount > 0 && e.minTime <= e.maxTime
    && BLOCK_HEADER <= e.frameSize <= BLOCK_HEADER + g.maxPayload
    && e.rawSize <= g.maxPayload
    && e.span % g.quantum == 0 && e.offset <= g.indexBegin && e.span <= g.indexBegin - e.offset
    && e.span == AlignUp(e.frameSize, g.quantum)
  }

  /** The entries form one run of valid entries from `offset` to the footer's data end. */
  predicate IndexValid(g: Geometry, es: seq<Entry>, from: nat, offset: nat, dataEnd: nat)
    requires g.quantum > 0 && from <= |es|
    decreases |es| - from
  {
    if from == |es| then offset == dataEnd
    else EntryValid(g, es[from], from, offset) && IndexValid(g, es, from + 1, offset + es[from].span, dataEnd)
  }

  function LoadIndex(g: Geometry, image: Image, ft: Footer): Result<seq<Entry>>
    requires g.quantum > 0
  {
    if ft.blockCount == 0 then Ok([])
    else
      match Get(image, IndexAt(ft.slot))
      case IndexCell(es) =>
        if es == ft.index && |es| == ft.blockCount && IndexValid(g, es, 0, REGION, ft.dataEnd)
        then Ok(es) else Err(Corrupt)
      case _ => Err(Corrupt)
  }

  /** The checks on the block an entry of `h` leads to; a writer of zero is not known. */
  predicate BlockAgrees(g: Geometry, h: Header, e: Entry, writer: nat, f: Frame)
    requires g.quantum > 0
  {
    && f.generation == h.generation && f.slot == h.slot && (writer != 0 ==> f.writer == writer)
    && EntryOf(f, e.offset) == e
    && RawSize(f.records) <= g.maxPayload && f.stored <= g.maxPayload
    && |f.records| > 0 && f.minTime <= f.maxTime
    && f.span == AlignUp(BLOCK_HEADER + f.stored, g.quantum)
  }

  /** The block an entry of an index on the media points at, when it agrees with the entry. */
  function ReadBlock(g: Geometry, image: Image, h: Header, e: Entry): Option<Frame>
    requires g.quantum > 0
  {
    match Get(image, FrameAt(h.slot, e.offset))
    case FrameCell(f) =>
      if BlockAgrees(g, h, e, 0, f) then Some(f) else None
    case _ => None
  }

  function ReadBlocks(g: Geometry, image: Image, h: Header, es: seq<Entry>): seq<Frame>
    requires g.quantum > 0
  {
    if es == [] then []
    else
      ReadBlocks(g, image, h, es[..|es| - 1]) +
      (match ReadBlock(g, image, h, es[|es| - 1]) case Some(f) => [f] case None => [])
  }

  /** What a lazy read-only open and an unbounded query return of the partition with header `h`. */
  function Retrieved(g: Geometry, image: Image, h: Header): seq<Frame>
    requires g.quantum > 0
  {
    match ReadFooter(g, image, h)
    case None => Scan(g, image, h, g.indexBegin, [])
    case Some(ft) =>
      match LoadIndex(g, image, ft)
      case Ok(es) => ReadBlocks(g, image, h, es)
      case Err(_) => Scan(g, image, h, ft.dataEnd, [])
  }

  lemma {:induction false} EntriesSnoc(frames: seq<Frame>, f: Frame)
    ensures EntriesOf(frames + [f]) == EntriesOf(frames) + [EntryOf(f, DataEnd(frames))]
  {
    assert (frames + [f])[..|frames|] == frames;
  }

  lemma {:induction false} EntriesAt(frames: seq<Frame>, k: nat)
    requires k < |frames|
    ensures EntriesOf(frames)[k] == EntryOf(frames[k], DataEnd(frames[..k]))
    decreases |frames|
  {
    var n := |frames| - 1;
    if k < n {
      EntriesAt(frames[..n], k);
      assert frames[..n][..k] == frames[..k];
    }
  }

  lemma {:induction false} EntriesValid(g: Geometry, issued: set<Issue>, generation: nat, frames: seq<Frame>, k: nat)
    requires ValidGeometry(g) && Ledger(g, issued) && Chained(issued, generation, frames) && k <= |frames|
    ensures IndexValid(g, EntriesOf(frames), k, DataEnd(frames[..k]), DataEnd(frames))
    decreases |frames| - k
  {
    if k < |frames| {
      EntriesAt(frames, k);
      assert IssueOk(g, Issue(frames[k], frames[..k]));
      AlignUpAligned(BLOCK_HEADER + frames[k].stored, g.quantum);
      assert frames[..k + 1] == frames[..k] + [frames[k]];
      TotalSpanSnoc(frames[..k], frames[k]);
      EntriesValid(g, issued, generation, frames, k + 1);
    } else {
      assert frames[..k] == frames;
    }
  }

  /** An index loads exactly when it is the one its footer vouches for; an empty partition needs none. */
  lemma {:induction false} IndexLoads(g: Geometry, issued: set<Issue>, image: Image, generation: nat,
                                      frames: seq<Frame>)
    requires ValidGeometry(g) && generation > 0 && Ledger(g, issued) && Chained(issued, generation, frames)
    ensures LoadIndex(g, image, FooterOf(g, generation, frames)) ==
            if frames == [] || Get(image, IndexAt(SlotOf(g, generation))) == IndexCell(EntriesOf(frames))
            then Ok(EntriesOf(frames)) else Err(Corrupt)
  {
    EntriesValid(g, issued, generation, frames, 0);
    assert frames[..0] == [];
  }

  lemma {:induction false} BlockRead(g: Geometry, issued: set<Issue>, image: Image, h: Header, frames: seq<Frame>,
                                     k: nat)
    requires ValidGeometry(g) && Ledger(g, issued) && Chained(issued, h.generation, frames)
    requires h.generation > 0 && h.slot == SlotOf(g, h.generation)
    requires Placed(image, h.slot, frames) && k < |frames|
    ensures ReadBlock(g, image, h, EntriesOf(frames)[k]) == Some(frames[k])
  {
    EntriesAt(frames, k);
    assert IssueOk(g, Issue(frames[k], frames[..k]));
  }

  lemma {:induction false} BlocksRead(g: Geometry, image: Image, h: Header, es: seq<Entry>, frames: seq<Frame>)
    requires g.quantum > 0 && |es| == |frames|
    requires forall k :: 0 <= k < |es| ==> ReadBlock(g, image, h, es[k]) == Some(frames[k])
    ensures ReadBlocks(g, image, h, es) == frames
    decreases |es|
  {
    if es != [] {
      var n := |es| - 1;
      BlocksRead(g, image, h, es[..n], frames[..n]);
      assert frames == frames[..n] + [frames[n]];
    }
  }

  /**
    A sealed partition whose frames are placed is retrieved exactly, through its index when the
    index is intact and otherwise through the scan bounded by the footer's data end.
   */
  lemma {:induction false} SealedRetrieved(g: Geometry, issued: set<Issue>, image: Image, h: Header, frames: seq<Frame>)
    requires ValidGeometry(g) && Ledger(g, issued) && Chained(issued, h.generation, frames)
    requires h.generation > 0 && h.slot == SlotOf(g, h.generation)
    requires Placed(image, h.slot, frames)
    requires DataEnd(frames) <= g.indexBegin && |frames| <= g.indexCapacity
    requires Get(image, FooterAt(h.slot)) == FooterCell(FooterOf(g, h.generation, frames))
    ensures ReadFooter(g, image, h) == Some(FooterOf(g, h.generation, frames))
    ensures LoadIndex(g, image, FooterOf(g, h.generation, frames)) in {Ok(EntriesOf(frames)), Err(Corrupt)}
    ensures Scan(g, image, h, DataEnd(frames), []) == frames
    ensures Retrieved(g, image, h) == frames
  {
    DataEndAligned(g, issued, h.generation, frames);
    ScanFindsPlaced(g, issued, image, h, DataEnd(frames), frames);
    forall k | 0 <= k < |frames|
      ensures ReadBlock(g, image, h, EntriesOf(frames)[k]) == Some(frames[k])
    {
      BlockRead(g, issued, image, h, frames, k);
    }
    BlocksRead(g, image, h, EntriesOf(frames), frames);
  }
}
