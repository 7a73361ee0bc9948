/**
  Queries that race with rotation.  A reader copies the catalog and then reads the media without
  any lock; the writer may replace the partition between any two reads.

  `at(i)` is the media in force when the reader's i-th read begins.  Every interleaving of the writer with
  the reader is such a sequence of images.  Only reads of partition headers are atomic: a read of anything
  else that the writer overtakes may return any mixture.
 */
module ReaderRace {
  import opened Bytes
  import opened Media
  import opened Recovery

  /** A catalog entry as the reader copied it; a sealed one carries its footer, others their index in memory. */
  datatype Snapshot = Snapshot(header: Header, sealed: bool, footer: Footer, index: seq<Entry>, writers: seq<nat>)

  /** What the media holds for an entry: its blocks, and whatever is in the index region of a sealed one. */
  datatype Truth = Truth(frames: seq<Frame>, index: Cell)

  /** The index can be read back; an empty partition and an unsealed one need none. */
  predicate Intact(p: Snapshot, t: Truth) {
    !p.sealed || t.frames == [] || t.index == IndexCell(EntriesOf(t.frames))
  }

  function GenerationIn(image: Image, slot: nat): nat {
    match Get(image, HeaderAt(slot)) case HeaderCell(h) => h.generation case _ => 0
  }

  predicate InForce(image: Image, h: Header) {
    GenerationIn(image, h.slot) == h.generation
  }

  /** As long as the snapshotted header is in force, so is everything the snapshot describes. */
  ghost predicate Stable(p: Snapshot, t: Truth, image: Image) {
    && Get(image, HeaderAt(p.header.slot)).HeaderCell?
    && GenerationIn(image, p.header.slot) >= p.header.generation
    && (InForce(image, p.header) ==>
          && Placed(image, p.header.slot, t.frames)
          && (p.sealed ==> Get(image, IndexAt(p.header.slot)) == t.index))
  }

  /** Generations of a slot only grow. */
  ghost predicate Forward(at: nat -> Image, slot: nat) {
    forall i: nat, j: nat :: i <= j ==> GenerationIn(at(i), slot) <= GenerationIn(at(j), slot)
  }

  /** The entry describes a chained list of blocks that fits its partition. */
  ghost predicate Describing(g: Geometry, issued: set<Issue>, p: Snapshot, frames: seq<Frame>)
    requires ValidGeometry(g)
  {
    && Ledger(g, issued) && Chained(issued, p.header.generation, frames)
    && p.header.generation > 0 && p.header.slot == SlotOf(g, p.header.generation)
    && DataEnd(frames) <= g.indexBegin && |frames| <= g.indexCapacity
    && (if p.sealed then p.footer == FooterOf(g, p.header.generation, frames)
        else p.index == EntriesOf(frames) && p.writers == WritersOf(frames))
  }

  /** What the reader relies on for one partition, throughout its query. */
  ghost predicate Watched(g: Geometry, issued: set<Issue>, at: nat -> Image, p: Snapshot, t: Truth)
    requires ValidGeometry(g)
  {
    && Describing(g, issued, p, t.frames)
    && (forall i: nat :: Stable(p, t, at(i)))
    && Forward(at, p.header.slot)
  }

  /** The seqlock argument: a header still in force at read `j` was in force at every earlier read. */
  lemma {:induction false} StillThere(g: Geometry, issued: set<Issue>, at: nat -> Image, p: Snapshot, t: Truth,
                                      i: nat, j: nat)
    requires ValidGeometry(g) && Watched(g, issued, at, p, t) && i <= j && InForce(at(j), p.header)
    ensures InForce(at(i), p.header) && Placed(at(i), p.header.slot, t.frames)
    ensures p.sealed ==> Get(at(i), IndexAt(p.header.slot)) == t.index
  {
    assert Stable(p, t, at(i));
  }

  /**
    What a read that begins at `now` returns: what is there, as long as the partition is still in force when
    the read has ended, and otherwise whatever mixture it caught.
   */
  function CellRead(at: nat -> Image, mixture: nat -> Cell, now: nat, place: Place, h: Header): Cell {
    if InForce(at(now + 1), h) then Get(at(now), place) else mixture(now)
  }

  // --------------------------------------------------------------- one block

  datatype BlockOutcome = Block(frame: Frame) | Replaced | Damaged

  /** A failed read is an overwrite exactly when the header has moved on. */
  function Classify(image: Image, p: Snapshot): BlockOutcome {
    if !InForce(image, p.header) then Replaced else Damaged
  }

  /** The payload found by a separate read has the CRC the block header announced. */
  predicate PayloadMatches(header: Frame, payload: Cell) {
    payload.FrameCell? && payload.frame.records == header.records && payload.frame.stored == header.stored
  }

  /** Header, block header, payload, header again: four reads, and one more to classify a failure. */
  method ReadBlock(g: Geometry, ghost issued: set<Issue>, at: nat -> Image, mixture: nat -> Cell, start: nat,
                   p: Snapshot, e: Entry, writer: nat, ghost t: Truth, ghost k: nat)
    returns (outcome: BlockOutcome, now: nat)
    requires ValidGeometry(g) && Watched(g, issued, at, p, t)
    requires k < |t.frames| && e == EntriesOf(t.frames)[k] && writer in {0, t.frames[k].writer}
    ensures start <= now
    ensures outcome == Replaced || outcome == Block(t.frames[k])
    ensures outcome.Block? ==> BlockAgrees(g, p.header, e, writer, outcome.frame)
    ensures outcome == Replaced ==> !InForce(at(now), p.header)
  {
    now := start;
    if !InForce(at(now), p.header) {
      return Replaced, now;
    }
    now := now + 1;
    var cell := CellRead(at, mixture, now, FrameAt(p.header.slot, e.offset), p.header);
    if !cell.FrameCell? || !BlockAgrees(g, p.header, e, writer, cell.frame) {
      now := now + 1;
      BlockInPlace(g, issued, at, mixture, p, t, k, now - 1, now);
      return Classify(at(now), p), now;
    }
    now := now + 1;
    var payload := CellRead(at, mixture, now, FrameAt(p.header.slot, e.offset), p.header);
    now := now + 1;
    if !InForce(at(now), p.header) {
      return Replaced, now;
    }
    BlockInPlace(g, issued, at, mixture, p, t, k, now - 2, now);
    BlockInPlace(g, issued, at, mixture, p, t, k, now - 1, now);
    var again := now + 1;
    outcome := if PayloadMatches(cell.frame, payload) then Block(cell.frame) else Classify(at(again), p);
  }

  /** While the header is unchanged the entry still leads to its block, and the block agrees with it. */
  lemma {:induction false} BlockInPlace(g: Geometry, issued: set<Issue>, at: nat -> Image, mixture: nat -> Cell,
                                        p: Snapshot, t: Truth, k: nat, i: nat, j: nat)
    requires ValidGeometry(g) && Watched(g, issued, at, p, t) && k < |t.frames| && i < j
    ensures var e, f := EntriesOf(t.frames)[k], t.frames[k];
            InForce(at(j), p.header) ==>
              && CellRead(at, mixture, i, FrameAt(p.header.slot, e.offset), p.header) == FrameCell(f)
              && BlockAgrees(g, p.header, e, 0, f) && BlockAgrees(g, p.header, e, f.writer, f)
  {
    if InForce(at(j), p.header) {
      StillThere(g, issued, at, p, t, i, j);
      StillThere(g, issued, at, p, t, i + 1, j);
      EntriesAt(t.frames, k);
      assert IssueOk(g, Issue(t.frames[k], t.frames[..k]));
    }
  }

  // ---------------------------------------------------------------- the rescan

  /** A rescan has passed over the first blocks of the partition, and over nothing else. */
  ghost predicate Walked(frames: seq<Frame>, entries: seq<Entry>, writers: seq<nat>, cursor: nat) {
    var k := |entries|;
    && k <= |frames| && entries == EntriesOf(frames[..k]) && writers == WritersOf(frames[..k])
    && cursor == DataEnd(frames[..k])
  }

  lemma {:induction false} WalkedShort(frames: seq<Frame>, entries: seq<Entry>, writers: seq<nat>, cursor: nat)
    requires Walked(frames, entries, writers, cursor) && cursor != DataEnd(frames)
    ensures |entries| < |frames|
  {
    assert frames[..|frames|] == frames;
  }

  /** One block further. */
  lemma {:induction false} WalkedMore(frames: seq<Frame>, entries: seq<Entry>, writers: seq<nat>, cursor: nat, f: Frame)
    requires Walked(frames, entries, writers, cursor) && |entries| < |frames| && f == frames[|entries|]
    ensures Walked(frames, entries + [EntryOf(f, cursor)], writers + [f.writer], cursor + f.span)
    ensures LastOf(writers) == LastWriter(frames[..|entries|])
  {
    var k := |entries|;
    assert frames[..k + 1] == frames[..k] + [f];
    EntriesSnoc(frames[..k], f);
    TotalSpanSnoc(frames[..k], f);
  }

  /** While the header is unchanged a rescan finds the next block where it looks for it. */
  lemma {:induction false} RescanStep(g: Geometry, issued: set<Issue>, at: nat -> Image, mixture: nat -> Cell,
                                      p: Snapshot, t: Truth, entries: seq<Entry>, writers: seq<nat>, cursor: nat,
                                      i: nat, j: nat)
    requires ValidGeometry(g) && Watched(g, issued, at, p, t) && i < j && InForce(at(j), p.header)
    requires Walked(t.frames, entries, writers, cursor) && cursor < DataEnd(t.frames)
    ensures |entries| < |t.frames|
    ensures var f := t.frames[|entries|];
            && CellRead(at, mixture, i, FrameAt(p.header.slot, cursor), p.header) == FrameCell(f)
            && Admits(g, p.header, DataEnd(t.frames), cursor, |entries|, LastOf(writers), f)
            && Walked(t.frames, entries + [EntryOf(f, cursor)], writers + [f.writer], cursor + f.span)
  {
    WalkedShort(t.frames, entries, writers, cursor);
    var k := |entries|;
    StillThere(g, issued, at, p, t, i, j);
    StillThere(g, issued, at, p, t, i + 1, j);
    WalkedMore(t.frames, entries, writers, cursor, t.frames[k]);
    PlacedAccepted(g, issued, at(i), p.header, DataEnd(t.frames), t.frames, k);
  }

  /** A rescan that stops short of a block header before the end has passed over everything. */
  lemma {:induction false} RescanEnd(g: Geometry, issued: set<Issue>, p: Snapshot, frames: seq<Frame>,
                                     entries: seq<Entry>, writers: seq<nat>, cursor: nat)
    requires ValidGeometry(g) && Describing(g, issued, p, frames)
    requires Walked(frames, entries, writers, cursor) && cursor + BLOCK_HEADER > DataEnd(frames)
    ensures entries == EntriesOf(frames) && writers == WritersOf(frames) && cursor == DataEnd(frames)
  {
    var k := |entries|;
    if k < |frames| {
      assert IssueOk(g, Issue(frames[k], frames[..k]));
      assert frames[..k + 1] == frames[..k] + [frames[k]];
      TotalSpanSnoc(frames[..k], frames[k]);
      TotalSpanMonotone(frames, k + 1);
    } else {
      assert frames[..k] == frames;
    }
  }

  /**
    Rebuilds the entries of a sealed partition whose index cannot be read: a cursor walks the data up to the
    footer's end, with a read for each block header and one for each payload.  If the partition is still in
    force afterwards, the walk found exactly its blocks.
   */
  method Rescan(g: Geometry, ghost issued: set<Issue>, at: nat -> Image, mixture: nat -> Cell, start: nat,
                p: Snapshot, ghost t: Truth)
    returns (entries: seq<Entry>, writers: seq<nat>, end: nat, corrupt: bool, now: nat)
    requires ValidGeometry(g) && Watched(g, issued, at, p, t) && p.sealed
    ensures start <= now
    ensures InForce(at(now), p.header) ==>
              && entries == EntriesOf(t.frames) && writers == WritersOf(t.frames)
              && end == p.footer.dataEnd && !corrupt
  {
    var h, limit := p.header, p.footer.dataEnd;
    entries, writers, end, corrupt, now := [], [], REGION, false, start;
    while end + BLOCK_HEADER <= limit
      invariant start <= now && !corrupt
      invariant InForce(at(now), h) ==> Walked(t.frames, entries, writers, end)
      decreases if end <= limit then limit - end else 0
    {
      var cell := CellRead(at, mixture, now, FrameAt(h.slot, end), h);
      now := now + 1;
      if InForce(at(now), h) {
        StillThere(g, issued, at, p, t, now - 1, now);
        RescanStep(g, issued, at, mixture, p, t, entries, writers, end, now - 1, now);
      }
      if !cell.FrameCell? || !Admits(g, h, limit, end, |entries|, LastOf(writers), cell.frame) {
        corrupt := true;
        return;
      }
      var f, payload := cell.frame, CellRead(at, mixture, now, FrameAt(h.slot, end), h);
      now := now + 1;
      if InForce(at(now), h) {
        StillThere(g, issued, at, p, t, now - 1, now);
        RescanStep(g, issued, at, mixture, p, t, entries, writers, end, now - 1, now);
      }
      if !PayloadMatches(f, payload) {
        corrupt := true;
        return;
      }
      entries, writers, end := entries + [EntryOf(f, end)], writers + [f.writer], end + f.span;
    }
    if InForce(at(now), h) {
      RescanEnd(g, issued, p, t.frames, entries, writers, end);
    }
  }

  // ----------------------------------------------------------- one partition

  datatype BlockEvent = Data(frame: Frame) | OverwrittenGap(generation: nat) | CorruptGap(generation: nat)

  /** Either a physical scan of every block or a half-open time range in one domain. */
  datatype Query = ScanAll | InRange(domain: nat, begin: int, end: int)

  /** Empty time ranges are refused, and so is the domain that stands for no domain. */
  predicate BadQuery(q: Query) {
    q.InRange? && (q.end <= q.begin || q.domain == 0)
  }

  predicate Selects(q: Query, minTime: int, maxTime: int) {
    q.ScanAll? || (minTime < q.end && maxTime >= q.begin)
  }

  predicate InDomain(q: Query, h: Header) {
    q.ScanAll? || q.domain == h.options.timeDomain
  }

  function Selected(q: Query, frames: seq<Frame>): seq<Frame> {
    if frames == [] then []
    else
      var f := frames[|frames| - 1];
      Selected(q, frames[..|frames| - 1]) + (if Selects(q, f.minTime, f.maxTime) then [f] else [])
  }

  function DataEvents(frames: seq<Frame>): (events: seq<BlockEvent>)
    ensures |events| == |frames| && forall i :: 0 <= i < |frames| ==> events[i] == Data(frames[i])
  {
    seq(|frames|, i requires 0 <= i < |frames| => Data(frames[i]))
  }

  /** A partition was read to its end, or overtaken by the writer, or left at a gap because the caller asked so. */
  datatype Ending = Finished | Overtaken | Halted

  /** How a partition fared: whether its index was reported damaged, and how many selected blocks were delivered. */
  datatype Delivery = Delivery(damaged: bool, count: nat, ending: Ending)

  /**
    Damage is reported exactly when the index is not intact, unless the partition was overtaken before its
    index was acquired; and only an overtaken partition, or one the caller gave up, lacks blocks.
   */
  ghost predicate Faithful(q: Query, p: Snapshot, t: Truth, d: Delivery) {
    && d.count <= |Selected(q, t.frames)|
    && (d.damaged ==> !Intact(p, t))
    && (!d.damaged && !Intact(p, t) ==> d.ending == Overtaken && d.count == 0)
    && (d.ending == Finished ==> d.count == |Selected(q, t.frames)|)
    && (d.ending == Halted ==> d.damaged && d.count == 0)
  }

  /** An optional corrupt gap, the first selected blocks, an optional overwrite notice. */
  function EventsOf(q: Query, generation: nat, frames: seq<Frame>, d: Delivery): seq<BlockEvent> {
    var all, head := Selected(q, frames), if d.damaged then 1 else 0;
    var count := if d.count <= |all| then d.count else |all|;
    seq(head + count + (if d.ending == Overtaken then 1 else 0), i requires 0 <= i =>
        if i < head then CorruptGap(generation)
        else if i < head + count then Data(all[i - head])
        else OverwrittenGap(generation))
  }

  lemma {:induction false} SelectedPrefix(q: Query, frames: seq<Frame>, k: nat)
    requires k <= |frames|
    ensures Selected(q, frames[..k]) <= Selected(q, frames)
    decreases |frames|
  {
    if k < |frames| {
      var init := frames[..|frames| - 1];
      assert init[..k] == frames[..k];
      SelectedPrefix(q, init, k);
    } else {
      assert frames[..k] == frames;
    }
  }

  lemma {:induction false} SelectedStep(q: Query, frames: seq<Frame>, k: nat)
    requires k < |frames|
    ensures DataEvents(Selected(q, frames[..k + 1])) ==
            DataEvents(Selected(q, frames[..k])) +
            (if Selects(q, frames[k].minTime, frames[k].maxTime) then [Data(frames[k])] else [])
  {
    assert frames[..k + 1][..k] == frames[..k];
  }

  /** Entries of these blocks, with their writers where those are known. */
  ghost predicate EntriesFor(frames: seq<Frame>, entries: seq<Entry>, writers: seq<nat>) {
    && entries == EntriesOf(frames) && |writers| == |frames|
    && forall i :: 0 <= i < |frames| ==> writers[i] in {0, frames[i].writer}
  }

  /** The first selected blocks, and then one overwrite notice. */
  ghost predicate CutOff(q: Query, generation: nat, frames: seq<Frame>, events: seq<BlockEvent>) {
    && 1 <= |events| <= |Selected(q, frames)| + 1
    && events == DataEvents(Selected(q, frames)[..|events| - 1]) + [OverwrittenGap(generation)]
  }

  lemma {:induction false} CutOffAt(q: Query, generation: nat, frames: seq<Frame>, k: nat)
    requires k <= |frames|
    ensures CutOff(q, generation, frames, DataEvents(Selected(q, frames[..k])) + [OverwrittenGap(generation)])
  {
    SelectedPrefix(q, frames, k);
    var n := |Selected(q, frames[..k])|;
    assert Selected(q, frames)[..n] == Selected(q, frames[..k]);
  }

  lemma {:induction false} DataEventsSnoc(frames: seq<Frame>)
    requires frames != []
    ensures var n := |frames| - 1; DataEvents(frames) == DataEvents(frames[..n]) + [Data(frames[n])]
  {
  }

  /** Reads the blocks of a partition whose entries the reader holds. */
  method ReadBlocks(g: Geometry, ghost issued: set<Issue>, at: nat -> Image, mixture: nat -> Cell, start: nat,
                    p: Snapshot, q: Query, entries: seq<Entry>, writers: seq<nat>, ghost t: Truth)
    returns (events: seq<BlockEvent>, overtaken: bool, now: nat)
    requires ValidGeometry(g) && Watched(g, issued, at, p, t) && EntriesFor(t.frames, entries, writers)
    ensures start <= now && (overtaken ==> !InForce(at(now), p.header))
    ensures !overtaken ==> events == DataEvents(Selected(q, t.frames))
    ensures overtaken ==> CutOff(q, p.header.generation, t.frames, events)
  {
    events, now := [], start;
    for i := 0 to |entries|
      invariant start <= now
      invariant events == DataEvents(Selected(q, t.frames[..i]))
    {
      EntriesAt(t.frames, i);
      SelectedStep(q, t.frames, i);
      if Selects(q, entries[i].minTime, entries[i].maxTime) {
        var outcome;
        outcome, now := ReadBlock(g, issued, at, mixture, now, p, entries[i], writers[i], t, i);
        if outcome.Replaced? {
          CutOffAt(q, p.header.generation, t.frames, i);
          return events + [OverwrittenGap(p.header.generation)], true, now;
        }
        if outcome.Damaged? {
          events := events + [CorruptGap(p.header.generation)];
        } else {
          events := events + [Data(outcome.frame)];
        }
      }
    }
    assert t.frames[..|entries|] == t.frames;
    overtaken := false;
  }

  /** The media as a read of the index finds it. */
  function IndexRead(at: nat -> Image, mixture: nat -> Cell, now: nat, h: Header): Image {
    at(now)[IndexAt(h.slot) := CellRead(at, mixture, now, IndexAt(h.slot), h)]
  }

  /** While the header is unchanged, the index of a sealed partition loads exactly when it is intact. */
  lemma {:induction false} IndexStillThere(g: Geometry, issued: set<Issue>, at: nat -> Image, mixture: nat -> Cell,
                                           p: Snapshot, t: Truth, i: nat, j: nat)
    requires ValidGeometry(g) && Watched(g, issued, at, p, t) && p.sealed && i < j && InForce(at(j), p.header)
    ensures LoadIndex(g, IndexRead(at, mixture, i, p.header), p.footer) ==
            if Intact(p, t) then Ok(EntriesOf(t.frames)) else Err(Corrupt)
  {
    StillThere(g, issued, at, p, t, i, j);
    StillThere(g, issued, at, p, t, i + 1, j);
    IndexLoads(g, issued, IndexRead(at, mixture, i, p.header), p.header.generation, t.frames);
  }

  /**
    Acquires the entries of one partition: those in memory, those of its index, or those a rescan of its data
    finds.  `invalid` says that the partition has to be reported damaged.
   */
  method AcquireEntries(g: Geometry, ghost issued: set<Issue>, at: nat -> Image, mixture: nat -> Cell, start: nat,
                        p: Snapshot, ghost t: Truth)
    returns (entries: seq<Entry>, writers: seq<nat>, invalid: bool, now: nat)
    requires ValidGeometry(g) && Watched(g, issued, at, p, t)
    ensures start <= now
    ensures InForce(at(now), p.header) ==>
              EntriesFor(t.frames, entries, writers) && (invalid <==> !Intact(p, t))
  {
    if !p.sealed {
      return p.index, p.writers, false, start;
    }
    var loaded := LoadIndex(g, IndexRead(at, mixture, start, p.header), p.footer);
    now := start + 1;
    if loaded.Ok? {
      entries, writers := loaded.value, seq(|loaded.value|, _ => 0);
      invalid := |entries| != p.footer.blockCount;
      if InForce(at(now), p.header) {
        IndexStillThere(g, issued, at, mixture, p, t, start, now);
      }
    } else {
      var end, corrupt;
      entries, writers, end, corrupt, now := Rescan(g, issued, at, mixture, now, p, t);
      invalid := true;
      if InForce(at(now), p.header) {
        IndexStillThere(g, issued, at, mixture, p, t, start, now);
      }
    }
  }

  /** A damaged index or not, and the blocks read behind it. */
  lemma {:induction false} Assembled(q: Query, p: Snapshot, t: Truth, invalid: bool, found: seq<BlockEvent>,
                                     overtaken: bool)
    requires invalid <==> !Intact(p, t)
    requires if overtaken then CutOff(q, p.header.generation, t.frames, found)
             else found == DataEvents(Selected(q, t.frames))
    ensures var count: nat := if overtaken then |found| - 1 else |found|;
            var d := Delivery(invalid, count, if overtaken then Overtaken else Finished);
            && Faithful(q, p, t, d)
            && (if invalid then [CorruptGap(p.header.generation)] else []) + found ==
               EventsOf(q, p.header.generation, t.frames, d)
  {
  }

  /**
    One partition of a query, under every interleaving with the writer.  If it is still in force at the end,
    and the caller did not give up, its selected blocks were delivered, behind one corrupt gap exactly when
    its index is not intact; otherwise one overwrite notice comes last.
   */
  method QueryPartition(g: Geometry, ghost issued: set<Issue>, at: nat -> Image, mixture: nat -> Cell, start: nat,
                        p: Snapshot, q: Query, continueOnGap: bool, ghost t: Truth)
    returns (events: seq<BlockEvent>, d: Delivery, now: nat)
    requires ValidGeometry(g) && Watched(g, issued, at, p, t)
    ensures start <= now && Faithful(q, p, t, d) && events == EventsOf(q, p.header.generation, t.frames, d)
    ensures d.ending == Overtaken ==> !InForce(at(now), p.header)
    ensures d.ending == Halted ==> !continueOnGap
    ensures d.damaged && !continueOnGap ==> d.ending == Halted
    ensures InForce(at(now), p.header) && continueOnGap ==>
              events == (if !Intact(p, t) then [CorruptGap(p.header.generation)] else [])
                        + DataEvents(Selected(q, t.frames))
  {
    var entries, writers, invalid;
    entries, writers, invalid, now := AcquireEntries(g, issued, at, mixture, start, p, t);
    if !InForce(at(now), p.header) {
      return [OverwrittenGap(p.header.generation)], Delivery(false, 0, Overtaken), now;
    }
    var gap := if invalid then [CorruptGap(p.header.generation)] else [];
    if invalid && !continueOnGap {
      return gap, Delivery(true, 0, Halted), now;
    }
    var found, overtaken;
    found, overtaken, now := ReadBlocks(g, issued, at, mixture, now + 1, p, q, entries, writers, t);
    d := Delivery(invalid, if overtaken then |found| - 1 else |found|, if overtaken then Overtaken else Finished);
    events := gap + found;
    Assembled(q, p, t, invalid, found, overtaken);
  }

  // -------------------------------------------------------------- the query

  ghost predicate Watching(g: Geometry, issued: set<Issue>, at: nat -> Image, p: Snapshot, t: Truth)
    requires ValidGeometry(g)
  {
    forall k {:trigger Unfold(k)} :: Unfold(k) ==> Watched(g, issued, at, p, t)
  }

  lemma {:induction false} WatchingMeans(g: Geometry, issued: set<Issue>, at: nat -> Image, p: Snapshot, t: Truth)
    requires ValidGeometry(g)
    ensures Watching(g, issued, at, p, t) <==> Watched(g, issued, at, p, t)
  {
    assert Unfold(0);
  }

  /** All partitions of a snapshot are watched, oldest generation first. */
  ghost predicate WatchedAll(g: Geometry, issued: set<Issue>, at: nat -> Image, ps: seq<Snapshot>, truth: seq<Truth>)
    requires ValidGeometry(g)
  {
    && |truth| == |ps|
    && (forall i {:trigger Watching(g, issued, at, ps[i], truth[i])} ::
          0 <= i < |ps| ==> Watching(g, issued, at, ps[i], truth[i]))
    && (forall i, j :: 0 <= i < j < |ps| ==> ps[i].header.generation < ps[j].header.generation)
  }

  /** What one partition contributes, given how it fared; other domains are passed over. */
  function Contribution(q: Query, p: Snapshot, frames: seq<Frame>, d: Delivery): seq<BlockEvent> {
    if InDomain(q, p.header) then EventsOf(q, p.header.generation, frames, d) else []
  }

  /** The events of the partitions visited so far, in order. */
  function AllEvents(q: Query, ps: seq<Snapshot>, truth: seq<Truth>, ds: seq<Delivery>): seq<BlockEvent>
    requires |ds| <= |ps| == |truth|
  {
    if ds == [] then []
    else
      var n := |ds| - 1;
      AllEvents(q, ps, truth, ds[..n]) + Contribution(q, ps[n], truth[n].frames, ds[n])
  }

  ghost predicate AllFaithful(q: Query, ps: seq<Snapshot>, truth: seq<Truth>, ds: seq<Delivery>) {
    && |ds| <= |ps| == |truth|
    && forall i :: 0 <= i < |ds| && InDomain(q, ps[i].header) ==> Faithful(q, ps[i], truth[i], ds[i])
  }

  /** Every overwrite notice is true: the partition has been replaced by the end of the query. */
  ghost predicate NoticesTrue(q: Query, ps: seq<Snapshot>, ds: seq<Delivery>, image: Image) {
    && |ds| <= |ps|
    && forall i :: 0 <= i < |ds| && InDomain(q, ps[i].header) && ds[i].ending == Overtaken ==>
         !InForce(image, ps[i].header)
  }

  lemma {:induction false} FaithfulSnoc(q: Query, ps: seq<Snapshot>, truth: seq<Truth>, ds: seq<Delivery>, d: Delivery)
    requires AllFaithful(q, ps, truth, ds) && |ds| < |ps|
    requires InDomain(q, ps[|ds|].header) ==> Faithful(q, ps[|ds|], truth[|ds|], d)
    ensures AllFaithful(q, ps, truth, ds + [d])
  {
  }

  /** A partition that was replaced stays replaced. */
  lemma {:induction false} NoticesSnoc(g: Geometry, issued: set<Issue>, at: nat -> Image, q: Query, ps: seq<Snapshot>,
                                       truth: seq<Truth>, ds: seq<Delivery>, d: Delivery, i: nat, j: nat)
    requires ValidGeometry(g) && WatchedAll(g, issued, at, ps, truth) && i <= j
    requires |ds| < |ps| && NoticesTrue(q, ps, ds, at(i))
    requires InDomain(q, ps[|ds|].header) && d.ending == Overtaken ==> !InForce(at(j), ps[|ds|].header)
    ensures NoticesTrue(q, ps, ds + [d], at(j))
  {
    forall k | 0 <= k < |ds| && InDomain(q, ps[k].header) && ds[k].ending == Overtaken
      ensures !InForce(at(j), ps[k].header)
    {
      WatchingMeans(g, issued, at, ps[k], truth[k]);
      if InForce(at(j), ps[k].header) {
        StillThere(g, issued, at, ps[k], truth[k], i, j);
      }
    }
  }

  lemma {:induction false} AllEventsSnoc(q: Query, ps: seq<Snapshot>, truth: seq<Truth>, ds: seq<Delivery>,
                                         d: Delivery)
    requires |ds| < |ps| == |truth|
    ensures AllEvents(q, ps, truth, ds + [d]) ==
            AllEvents(q, ps, truth, ds) + Contribution(q, ps[|ds|], truth[|ds|].frames, d)
  {
    assert (ds + [d])[..|ds|] == ds;
  }

  /** One partition of the query, unless it belongs to another domain. */
  method QueryOne(g: Geometry, ghost issued: set<Issue>, at: nat -> Image, mixture: nat -> Cell, start: nat,
                  ps: seq<Snapshot>, i: nat, q: Query, continueOnGap: bool, ghost truth: seq<Truth>)
    returns (events: seq<BlockEvent>, d: Delivery, now: nat)
    requires ValidGeometry(g) && WatchedAll(g, issued, at, ps, truth) && i < |ps|
    ensures start <= now && events == Contribution(q, ps[i], truth[i].frames, d)
    ensures InDomain(q, ps[i].header) ==> Faithful(q, ps[i], truth[i], d)
    ensures InDomain(q, ps[i].header) && d.ending == Overtaken ==> !InForce(at(now), ps[i].header)
    ensures InDomain(q, ps[i].header) && d.ending == Halted ==> !continueOnGap
    ensures InDomain(q, ps[i].header) && d.damaged && !continueOnGap ==> d.ending != Finished
  {
    if !InDomain(q, ps[i].header) {
      return [], Delivery(false, 0, Finished), start;
    }
    WatchingMeans(g, issued, at, ps[i], truth[i]);
    events, d, now := QueryPartition(g, issued, at, mixture, start, ps[i], q, continueOnGap, truth[i]);
  }

  /** The gap, if any, that ends a query whose caller does not want to continue at gaps. */
  function StopsAt(continueOnGap: bool, d: Delivery): Option<Error> {
    if continueOnGap || d.ending == Finished then None
    else Some(if d.ending == Overtaken then Overwritten else Corrupt)
  }

  /** No gap was reported for the partitions visited. */
  ghost predicate NoGap(q: Query, ps: seq<Snapshot>, ds: seq<Delivery>) {
    && |ds| <= |ps|
    && forall i :: 0 <= i < |ds| && InDomain(q, ps[i].header) ==> !ds[i].damaged && ds[i].ending == Finished
  }

  /** No partition was given up at a gap. */
  ghost predicate NoneHalted(q: Query, ps: seq<Snapshot>, ds: seq<Delivery>) {
    |ds| <= |ps| && forall i :: 0 <= i < |ds| && InDomain(q, ps[i].header) ==> ds[i].ending != Halted
  }

  /** No block was lost to a gap, though an index may have been reported damaged. */
  ghost predicate NoLoss(q: Query, ps: seq<Snapshot>, ds: seq<Delivery>) {
    |ds| <= |ps| && forall i :: 0 <= i < |ds| && InDomain(q, ps[i].header) ==> ds[i].ending == Finished
  }

  /** What holds of the partitions visited so far. */
  ghost predicate Visited(q: Query, ps: seq<Snapshot>, truth: seq<Truth>, ds: seq<Delivery>, image: Image) {
    forall k {:trigger Unfold(k)} :: Unfold(k) ==> AllFaithful(q, ps, truth, ds) && NoticesTrue(q, ps, ds, image)
  }

  lemma {:induction false} VisitedMeans(q: Query, ps: seq<Snapshot>, truth: seq<Truth>, ds: seq<Delivery>, image: Image)
    ensures Visited(q, ps, truth, ds, image) <==> AllFaithful(q, ps, truth, ds) && NoticesTrue(q, ps, ds, image)
  {
    assert Unfold(0);
  }

  lemma {:induction false} VisitedSnoc(g: Geometry, issued: set<Issue>, at: nat -> Image, q: Query, ps: seq<Snapshot>,
                                       truth: seq<Truth>, ds: seq<Delivery>, d: Delivery, i: nat, j: nat)
    requires ValidGeometry(g) && WatchedAll(g, issued, at, ps, truth) && i <= j
    requires |ds| < |ps| && Visited(q, ps, truth, ds, at(i))
    requires InDomain(q, ps[|ds|].header) ==> Faithful(q, ps[|ds|], truth[|ds|], d)
    requires InDomain(q, ps[|ds|].header) && d.ending == Overtaken ==> !InForce(at(j), ps[|ds|].header)
    ensures Visited(q, ps, truth, ds + [d], at(j))
    ensures AllEvents(q, ps, truth, ds + [d]) ==
            AllEvents(q, ps, truth, ds) + Contribution(q, ps[|ds|], truth[|ds|].frames, d)
  {
    VisitedMeans(q, ps, truth, ds, at(i));
    VisitedMeans(q, ps, truth, ds + [d], at(j));
    FaithfulSnoc(q, ps, truth, ds, d);
    NoticesSnoc(g, issued, at, q, ps, truth, ds, d, i, j);
    AllEventsSnoc(q, ps, truth, ds, d);
  }

  /** A query that goes on met no gap, or was asked to continue at gaps. */
  ghost predicate GoesOn(continueOnGap: bool, q: Query, ps: seq<Snapshot>, ds: seq<Delivery>) {
    forall k {:trigger Unfold(k)} :: Unfold(k) ==>
      if continueOnGap then NoneHalted(q, ps, ds) else NoGap(q, ps, ds)
  }

  lemma {:induction false} GoesOnMeans(continueOnGap: bool, q: Query, ps: seq<Snapshot>, ds: seq<Delivery>)
    ensures GoesOn(continueOnGap, q, ps, ds) <==> if continueOnGap then NoneHalted(q, ps, ds) else NoGap(q, ps, ds)
  {
    assert Unfold(0);
  }

  lemma {:induction false} GoesOnSnoc(continueOnGap: bool, q: Query, ps: seq<Snapshot>, ds: seq<Delivery>, d: Delivery)
    requires GoesOn(continueOnGap, q, ps, ds) && |ds| < |ps|
    requires InDomain(q, ps[|ds|].header) ==>
               if continueOnGap then d.ending != Halted else d.ending == Finished && !d.damaged
    ensures GoesOn(continueOnGap, q, ps, ds + [d])
  {
    GoesOnMeans(continueOnGap, q, ps, ds);
    GoesOnMeans(continueOnGap, q, ps, ds + [d]);
  }

  method VisitPartitions(g: Geometry, ghost issued: set<Issue>, at: nat -> Image, mixture: nat -> Cell,
                         ps: seq<Snapshot>, q: Query, continueOnGap: bool, ghost truth: seq<Truth>)
    returns (events: seq<BlockEvent>, ds: seq<Delivery>, r: Result<()>, now: nat)
    requires ValidGeometry(g) && WatchedAll(g, issued, at, ps, truth)
    ensures |ds| <= |ps| && Visited(q, ps, truth, ds, at(now)) && events == AllEvents(q, ps, truth, ds)
    ensures r.Ok? ==> |ds| == |ps| && GoesOn(continueOnGap, q, ps, ds)
    ensures r.Err? ==>
              && ds != [] && InDomain(q, ps[|ds| - 1].header)
              && StopsAt(continueOnGap, ds[|ds| - 1]) == Some(r.error)
    ensures continueOnGap ==> r.Ok?
  {
    events, ds, now := [], [], 0;
    VisitedMeans(q, ps, truth, ds, at(now));
    GoesOnMeans(continueOnGap, q, ps, ds);
    for i := 0 to |ps|
      invariant |ds| == i && Visited(q, ps, truth, ds, at(now))
      invariant events == AllEvents(q, ps, truth, ds)
      invariant GoesOn(continueOnGap, q, ps, ds)
    {
      ghost var was := now;
      var found, d;
      found, d, now := QueryOne(g, issued, at, mixture, now, ps, i, q, continueOnGap, truth);
      VisitedSnoc(g, issued, at, q, ps, truth, ds, d, was, now);
      if InDomain(q, ps[i].header) && StopsAt(continueOnGap, d).Some? {
        return events + found, ds + [d], Err(StopsAt(continueOnGap, d).value), now;
      }
      GoesOnSnoc(continueOnGap, q, ps, ds, d);
      events, ds := events + found, ds + [d];
    }
    return events, ds, Ok(()), now;
  }

  lemma {:induction false} NothingAnswered(q: Query, ps: seq<Snapshot>, truth: seq<Truth>, image: Image)
    requires |ps| == |truth|
    ensures AllFaithful(q, ps, truth, []) && NoticesTrue(q, ps, [], image) && AllEvents(q, ps, truth, []) == []
    ensures Ordered([]) && DamageTrue(ps, truth, []) && OnlyAsked(q, ps, truth, [])
  {
  }

  /** A query that is not refused. */
  method QueryValid(g: Geometry, ghost issued: set<Issue>, at: nat -> Image, mixture: nat -> Cell,
                    ps: seq<Snapshot>, q: Query, continueOnGap: bool, ghost truth: seq<Truth>)
    returns (events: seq<BlockEvent>, ds: seq<Delivery>, r: Result<()>, now: nat)
    requires ValidGeometry(g) && WatchedAll(g, issued, at, ps, truth) && !BadQuery(q)
    ensures AllFaithful(q, ps, truth, ds) && NoticesTrue(q, ps, ds, at(now))
    ensures events == AllEvents(q, ps, truth, ds) && Ordered(events)
    ensures DamageTrue(ps, truth, events) && OnlyAsked(q, ps, truth, events)
    ensures continueOnGap ==> r.Ok? && AllAsked(q, ps, truth, events, at(now))
    ensures r.Ok? ==> |ds| == |ps| && if continueOnGap then NoneHalted(q, ps, ds) else NoGap(q, ps, ds)
    ensures r.Err? ==>
              && ds != [] && InDomain(q, ps[|ds| - 1].header)
              && StopsAt(continueOnGap, ds[|ds| - 1]) == Some(r.error)
  {
    events, ds, r, now := VisitPartitions(g, issued, at, mixture, ps, q, continueOnGap, truth);
    EventsSound(g, issued, at, q, ps, truth, ds, at(now));
    EventsAsked(g, issued, at, q, ps, truth, ds, at(now), continueOnGap);
    VisitedMeans(q, ps, truth, ds, at(now));
    GoesOnMeans(continueOnGap, q, ps, ds);
  }

  /**
    A query under every interleaving with a rotating writer.  It delivers, partition by partition,
    exactly the snapshotted blocks the query selects, up to the point where that partition was
    replaced, and says so once; it reports a partition damaged exactly when its index is.  Asked to stop at
    gaps, it stops there.
   */
  method QueryBlocks(g: Geometry, ghost issued: set<Issue>, at: nat -> Image, mixture: nat -> Cell,
                     ps: seq<Snapshot>, q: Query, continueOnGap: bool, ghost truth: seq<Truth>)
    returns (events: seq<BlockEvent>, ds: seq<Delivery>, r: Result<()>, now: nat)
    requires ValidGeometry(g) && WatchedAll(g, issued, at, ps, truth)
    ensures AllFaithful(q, ps, truth, ds) && NoticesTrue(q, ps, ds, at(now))
    ensures events == AllEvents(q, ps, truth, ds) && Ordered(events)
    ensures DamageTrue(ps, truth, events) && OnlyAsked(q, ps, truth, events)
    ensures continueOnGap && !BadQuery(q) ==> AllAsked(q, ps, truth, events, at(now))
    ensures r == Err(InvalidArgument) <==> q.InRange? && (q.end <= q.begin || q.domain == 0)
    ensures BadQuery(q) ==> ds == []
    ensures r.Ok? ==> |ds| == |ps| && if continueOnGap then NoneHalted(q, ps, ds) else NoGap(q, ps, ds)
    ensures r.Err? && !BadQuery(q) ==>
              && !continueOnGap && ds != [] && InDomain(q, ps[|ds| - 1].header)
              && (ds[|ds| - 1].ending == Overtaken ==> r.error == Overwritten)
              && (ds[|ds| - 1].ending != Overtaken ==> ds[|ds| - 1].damaged && r.error == Corrupt)
    ensures continueOnGap && !BadQuery(q) ==> r.Ok?
  {
    if BadQuery(q) {
      NothingAnswered(q, ps, truth, at(0));
      return [], [], Err(InvalidArgument), 0;
    }
    events, ds, r, now := QueryValid(g, issued, at, mixture, ps, q, continueOnGap, truth);
  }

  // ------------------------------------------------------ what that excludes

  ghost predicate AllIntact(ps: seq<Snapshot>, truth: seq<Truth>) {
    |ps| == |truth| && forall i :: 0 <= i < |ps| ==> Intact(ps[i], truth[i])
  }

  /** The catalog lists this generation with an index that is not intact. */
  ghost predicate ListedDamaged(ps: seq<Snapshot>, truth: seq<Truth>, generation: nat) {
    exists k :: 0 <= k < |ps| && k < |truth| && ps[k].header.generation == generation && !Intact(ps[k], truth[k])
  }

  /** Every corrupt gap names a partition whose index is not intact. */
  ghost predicate DamageTrue(ps: seq<Snapshot>, truth: seq<Truth>, events: seq<BlockEvent>) {
    forall i :: 0 <= i < |events| && events[i].CorruptGap? ==> ListedDamaged(ps, truth, events[i].generation)
  }

  lemma {:induction false} DamageListed(q: Query, ps: seq<Snapshot>, truth: seq<Truth>, ds: seq<Delivery>, i: nat)
    requires AllFaithful(q, ps, truth, ds) && i < |AllEvents(q, ps, truth, ds)|
    requires AllEvents(q, ps, truth, ds)[i].CorruptGap?
    ensures ListedDamaged(ps, truth, AllEvents(q, ps, truth, ds)[i].generation)
    decreases |ds|
  {
    var n := |ds| - 1;
    var before := AllEvents(q, ps, truth, ds[..n]);
    if i < |before| {
      DamageListed(q, ps, truth, ds[..n], i);
    } else {
      EventAt(q, ps[n].header.generation, truth[n].frames, ds[n], i - |before|);
      assert Faithful(q, ps[n], truth[n], ds[n]);
    }
  }

  // ------------------------------------------------------- what a query means

  /** Every integer is an instant. */
  predicate Instant(t: int) {
    true
  }

  /** Some instant of the block lies in the half-open range. */
  ghost predicate Overlaps(f: Frame, begin: int, end: int) {
    exists t {:trigger Instant(t)} :: Instant(t) && f.minTime <= t <= f.maxTime && begin <= t < end
  }

  /** The block was published in this partition, which the query is about, at a time it asks for. */
  ghost predicate Comes(q: Query, p: Snapshot, t: Truth, f: Frame) {
    && f in t.frames && f.generation == p.header.generation
    && (q.InRange? ==> p.header.options.timeDomain == q.domain && Overlaps(f, q.begin, q.end))
  }

  ghost predicate ComesFrom(q: Query, ps: seq<Snapshot>, truth: seq<Truth>, f: Frame) {
    exists k :: 0 <= k < |ps| && k < |truth| && Comes(q, ps[k], truth[k], f)
  }

  /** Every block delivered is one the query asks for. */
  ghost predicate OnlyAsked(q: Query, ps: seq<Snapshot>, truth: seq<Truth>, events: seq<BlockEvent>) {
    forall i :: 0 <= i < |events| && events[i].Data? ==> ComesFrom(q, ps, truth, events[i].frame)
  }

  /** Of a partition still in force that the query is about, exactly the blocks it asks for were delivered. */
  ghost predicate AllOf(q: Query, p: Snapshot, t: Truth, events: seq<BlockEvent>, image: Image) {
    InForce(image, p.header) && (q.InRange? ==> p.header.options.timeDomain == q.domain) ==>
      forall f :: f in t.frames ==> (Data(f) in events <==> (q.InRange? ==> Overlaps(f, q.begin, q.end)))
  }

  ghost predicate AllAsked(q: Query, ps: seq<Snapshot>, truth: seq<Truth>, events: seq<BlockEvent>, image: Image) {
    |ps| == |truth| && forall k :: 0 <= k < |ps| ==> AllOf(q, ps[k], truth[k], events, image)
  }

  lemma {:induction false} SelectsExactly(q: Query, f: Frame)
    requires f.minTime <= f.maxTime && !BadQuery(q)
    ensures Selects(q, f.minTime, f.maxTime) <==> (q.InRange? ==> Overlaps(f, q.begin, q.end))
  {
    if q.InRange? && Selects(q, f.minTime, f.maxTime) {
      assert Instant(if f.minTime < q.begin then q.begin else f.minTime);
    }
  }

  lemma {:induction false} SelectedExactly(q: Query, frames: seq<Frame>, f: Frame)
    ensures f in Selected(q, frames) <==> f in frames && Selects(q, f.minTime, f.maxTime)
    decreases |frames|
  {
    if frames != [] {
      var n := |frames| - 1;
      SelectedExactly(q, frames[..n], f);
      assert frames == frames[..n] + [frames[n]];
    }
  }

  /** Data comes from the partitions visited. */
  lemma {:induction false} DataListed(q: Query, ps: seq<Snapshot>, truth: seq<Truth>, ds: seq<Delivery>, i: nat)
    returns (k: nat)
    requires |ds| <= |ps| == |truth| && i < |AllEvents(q, ps, truth, ds)| && AllEvents(q, ps, truth, ds)[i].Data?
    ensures k < |ps| && InDomain(q, ps[k].header)
    ensures AllEvents(q, ps, truth, ds)[i].frame in Selected(q, truth[k].frames)
    decreases |ds|
  {
    var n := |ds| - 1;
    var before := AllEvents(q, ps, truth, ds[..n]);
    if i < |before| {
      k := DataListed(q, ps, truth, ds[..n], i);
    } else {
      k := n;
      EventAt(q, ps[n].header.generation, truth[n].frames, ds[n], i - |before|);
    }
  }

  lemma {:induction false} FinishedDelivers(q: Query, generation: nat, frames: seq<Frame>, d: Delivery, f: Frame)
    requires d.count == |Selected(q, frames)| && f in Selected(q, frames)
    ensures Data(f) in EventsOf(q, generation, frames, d)
  {
    var j :| 0 <= j < |Selected(q, frames)| && Selected(q, frames)[j] == f;
    assert EventsOf(q, generation, frames, d)[if d.damaged then j + 1 else j] == Data(f);
  }

  lemma {:induction false} AllEventsHold(q: Query, ps: seq<Snapshot>, truth: seq<Truth>, ds: seq<Delivery>,
                                         e: BlockEvent)
    requires 0 < |ds| <= |ps| == |truth|
    ensures var n := |ds| - 1;
            e in AllEvents(q, ps, truth, ds[..n]) || e in Contribution(q, ps[n], truth[n].frames, ds[n]) ==>
              e in AllEvents(q, ps, truth, ds)
  {
  }

  /** A partition read to its end delivered everything selected in it. */
  lemma {:induction false} DataDelivered(q: Query, ps: seq<Snapshot>, truth: seq<Truth>, ds: seq<Delivery>, k: nat,
                                         f: Frame)
    requires AllFaithful(q, ps, truth, ds) && k < |ds| && InDomain(q, ps[k].header) && ds[k].ending == Finished
    requires f in Selected(q, truth[k].frames)
    ensures Data(f) in AllEvents(q, ps, truth, ds)
    decreases |ds|
  {
    var n := |ds| - 1;
    if k < n {
      DataDelivered(q, ps, truth, ds[..n], k, f);
    } else {
      FinishedDelivers(q, ps[n].header.generation, truth[n].frames, ds[n], f);
    }
    AllEventsHold(q, ps, truth, ds, Data(f));
  }

  lemma {:induction false} TimesOrdered(g: Geometry, issued: set<Issue>, at: nat -> Image, ps: seq<Snapshot>,
                                        truth: seq<Truth>, k: nat, f: Frame)
    requires ValidGeometry(g) && WatchedAll(g, issued, at, ps, truth) && k < |ps| && f in truth[k].frames
    ensures f.minTime <= f.maxTime && f.generation == ps[k].header.generation
  {
    WatchingMeans(g, issued, at, ps[k], truth[k]);
    var j :| 0 <= j < |truth[k].frames| && truth[k].frames[j] == f;
    assert IssueOk(g, Issue(f, truth[k].frames[..j]));
  }

  lemma {:induction false} DataAsked(g: Geometry, issued: set<Issue>, at: nat -> Image, q: Query, ps: seq<Snapshot>,
                                     truth: seq<Truth>, ds: seq<Delivery>)
    requires ValidGeometry(g) && WatchedAll(g, issued, at, ps, truth) && |ds| <= |ps| && !BadQuery(q)
    ensures OnlyAsked(q, ps, truth, AllEvents(q, ps, truth, ds))
  {
    var events := AllEvents(q, ps, truth, ds);
    forall i | 0 <= i < |events| && events[i].Data?
      ensures ComesFrom(q, ps, truth, events[i].frame)
    {
      var k := DataListed(q, ps, truth, ds, i);
      SelectedExactly(q, truth[k].frames, events[i].frame);
      TimesOrdered(g, issued, at, ps, truth, k, events[i].frame);
      SelectsExactly(q, events[i].frame);
      assert Comes(q, ps[k], truth[k], events[i].frame);
    }
  }

  /** Generations tell partitions apart, so a block comes from the one that holds it. */
  lemma {:induction false} AskedOf(g: Geometry, issued: set<Issue>, at: nat -> Image, q: Query, ps: seq<Snapshot>,
                                   truth: seq<Truth>, ds: seq<Delivery>, image: Image, k: nat)
    requires ValidGeometry(g) && WatchedAll(g, issued, at, ps, truth) && |ds| == |ps| && !BadQuery(q) && k < |ps|
    requires AllFaithful(q, ps, truth, ds) && NoticesTrue(q, ps, ds, image) && NoneHalted(q, ps, ds)
    requires OnlyAsked(q, ps, truth, AllEvents(q, ps, truth, ds))
    ensures AllOf(q, ps[k], truth[k], AllEvents(q, ps, truth, ds), image)
  {
    var events := AllEvents(q, ps, truth, ds);
    if InForce(image, ps[k].header) && (q.InRange? ==> ps[k].header.options.timeDomain == q.domain) {
      forall f | f in truth[k].frames
        ensures Data(f) in events <==> (q.InRange? ==> Overlaps(f, q.begin, q.end))
      {
        TimesOrdered(g, issued, at, ps, truth, k, f);
        SelectsExactly(q, f);
        SelectedExactly(q, truth[k].frames, f);
        if Selects(q, f.minTime, f.maxTime) {
          DataDelivered(q, ps, truth, ds, k, f);
        }
        if Data(f) in events {
          var i :| 0 <= i < |events| && events[i] == Data(f);
          assert ComesFrom(q, ps, truth, events[i].frame);
        }
      }
    }
  }

  lemma {:induction false} EventsAsked(g: Geometry, issued: set<Issue>, at: nat -> Image, q: Query, ps: seq<Snapshot>,
                                       truth: seq<Truth>, ds: seq<Delivery>, image: Image, continueOnGap: bool)
    requires ValidGeometry(g) && WatchedAll(g, issued, at, ps, truth) && |ds| <= |ps| && !BadQuery(q)
    requires Visited(q, ps, truth, ds, image)
    ensures OnlyAsked(q, ps, truth, AllEvents(q, ps, truth, ds))
    ensures |ds| == |ps| && continueOnGap && GoesOn(continueOnGap, q, ps, ds) ==>
              AllAsked(q, ps, truth, AllEvents(q, ps, truth, ds), image)
  {
    DataAsked(g, issued, at, q, ps, truth, ds);
    if |ds| == |ps| && continueOnGap && GoesOn(continueOnGap, q, ps, ds) {
      VisitedMeans(q, ps, truth, ds, image);
      GoesOnMeans(continueOnGap, q, ps, ds);
      forall k | 0 <= k < |ps|
        ensures AllOf(q, ps[k], truth[k], AllEvents(q, ps, truth, ds), image)
      {
        AskedOf(g, issued, at, q, ps, truth, ds, image, k);
      }
    }
  }

  /** The place of a data event in physical order. */
  predicate Precedes(a: Frame, b: Frame) {
    a.generation < b.generation || (a.generation == b.generation && a.sequence < b.sequence)
  }

  lemma {:induction false} SelectedOrdered(g: Geometry, issued: set<Issue>, q: Query, generation: nat,
                                           frames: seq<Frame>, i: nat)
    requires ValidGeometry(g) && Ledger(g, issued) && Chained(issued, generation, frames)
    requires i < |Selected(q, frames)|
    ensures Selected(q, frames)[i].generation == generation && Selected(q, frames)[i].sequence < |frames|
    ensures forall j :: 0 <= j < i ==> Precedes(Selected(q, frames)[j], Selected(q, frames)[i])
    decreases |frames|
  {
    var n := |frames| - 1;
    var init := frames[..n];
    ChainedPrefix(issued, generation, frames, n);
    assert IssueOk(g, Issue(frames[n], init));
    if i < |Selected(q, init)| {
      SelectedOrdered(g, issued, q, generation, init, i);
    } else {
      forall j | 0 <= j < i
        ensures Precedes(Selected(q, frames)[j], frames[n])
      {
        SelectedOrdered(g, issued, q, generation, init, j);
      }
    }
  }

  /** Data in strictly increasing (generation, sequence) order. */
  ghost predicate Ordered(events: seq<BlockEvent>) {
    forall i, j :: 0 <= i < j < |events| && events[i].Data? && events[j].Data? ==>
      Precedes(events[i].frame, events[j].frame)
  }

  /** Data of generations before `n` only. */
  ghost predicate Before(events: seq<BlockEvent>, n: nat) {
    forall i :: 0 <= i < |events| && events[i].Data? ==> events[i].frame.generation < n
  }

  lemma {:induction false} OrderedConcat(a: seq<BlockEvent>, b: seq<BlockEvent>, n: nat)
    requires Ordered(a) && Ordered(b) && Before(a, n)
    requires forall i :: 0 <= i < |b| && b[i].Data? ==> b[i].frame.generation == n
    ensures Ordered(a + b) && Before(a + b, n + 1)
  {
    var ab := a + b;
    forall i, j | 0 <= i < j < |ab| && ab[i].Data? && ab[j].Data?
      ensures Precedes(ab[i].frame, ab[j].frame)
    {
      assert i < |a| ==> ab[i] == a[i];
      assert i >= |a| ==> ab[i] == b[i - |a|];
      assert j < |a| ==> ab[j] == a[j];
      assert j >= |a| ==> ab[j] == b[j - |a|];
    }
  }

  /** The events of a partition, one by one: an optional corrupt gap, selected blocks, an optional notice. */
  lemma {:induction false} EventAt(q: Query, generation: nat, frames: seq<Frame>, d: Delivery, i: nat)
    requires i < |EventsOf(q, generation, frames, d)|
    ensures var es, head := EventsOf(q, generation, frames, d), if d.damaged then 1 else 0;
            && (i < head ==> es[i] == CorruptGap(generation))
            && (i >= head ==> es[i].Data? || (es[i] == OverwrittenGap(generation) && i == |es| - 1))
            && (es[i].Data? ==> i - head < |Selected(q, frames)| && es[i].frame == Selected(q, frames)[i - head])
  {
  }

  /**
    Within one partition: a corrupt gap only first, an overwrite notice only last, and in between blocks of
    that generation in order.
   */
  lemma {:induction false} ContributionOrdered(g: Geometry, issued: set<Issue>, q: Query, p: Snapshot,
                                               frames: seq<Frame>, d: Delivery, i: nat)
    requires ValidGeometry(g) && Describing(g, issued, p, frames) && i < |Contribution(q, p, frames, d)|
    ensures var es := Contribution(q, p, frames, d);
            && (es[i].CorruptGap? ==> i == 0)
            && (es[i].OverwrittenGap? ==> i == |es| - 1)
            && (es[i].Data? ==> es[i].frame.generation == p.header.generation)
            && (es[i].Data? ==> forall j :: 0 <= j < i && es[j].Data? ==> Precedes(es[j].frame, es[i].frame))
  {
    var es, head := Contribution(q, p, frames, d), if d.damaged then 1 else 0;
    EventAt(q, p.header.generation, frames, d, i);
    if es[i].Data? {
      SelectedOrdered(g, issued, q, p.header.generation, frames, i - head);
      forall j | 0 <= j < i && es[j].Data?
        ensures Precedes(es[j].frame, es[i].frame)
      {
        EventAt(q, p.header.generation, frames, d, j);
      }
    }
  }

  lemma {:induction false} PartitionOrdered(g: Geometry, issued: set<Issue>, q: Query, p: Snapshot,
                                            frames: seq<Frame>, d: Delivery)
    requires ValidGeometry(g) && Describing(g, issued, p, frames)
    ensures var es := Contribution(q, p, frames, d);
            && Ordered(es)
            && forall i :: 0 <= i < |es| && es[i].Data? ==> es[i].frame.generation == p.header.generation
  {
    var es := Contribution(q, p, frames, d);
    forall j | 0 <= j < |es| && es[j].Data?
      ensures es[j].frame.generation == p.header.generation
      ensures forall i :: 0 <= i < j && es[i].Data? ==> Precedes(es[i].frame, es[j].frame)
    {
      ContributionOrdered(g, issued, q, p, frames, d, j);
    }
  }

  /** The data of a query comes in strictly increasing (generation, sequence) order. */
  lemma {:induction false} DataInOrder(g: Geometry, issued: set<Issue>, at: nat -> Image, q: Query, ps: seq<Snapshot>,
                                       truth: seq<Truth>, ds: seq<Delivery>)
    requires ValidGeometry(g) && WatchedAll(g, issued, at, ps, truth) && |ds| <= |ps|
    ensures Ordered(AllEvents(q, ps, truth, ds))
    ensures ds != [] ==> Before(AllEvents(q, ps, truth, ds), ps[|ds| - 1].header.generation + 1)
    decreases |ds|
  {
    if ds != [] {
      var n := |ds| - 1;
      var init := AllEvents(q, ps, truth, ds[..n]);
      DataInOrder(g, issued, at, q, ps, truth, ds[..n]);
      assert n > 0 ==> ps[n - 1].header.generation < ps[n].header.generation;
      WatchingMeans(g, issued, at, ps[n], truth[n]);
      PartitionOrdered(g, issued, q, ps[n], truth[n].frames, ds[n]);
      OrderedConcat(init, Contribution(q, ps[n], truth[n].frames, ds[n]), ps[n].header.generation);
    }
  }

  lemma {:induction false} EventsSound(g: Geometry, issued: set<Issue>, at: nat -> Image, q: Query, ps: seq<Snapshot>,
                                       truth: seq<Truth>, ds: seq<Delivery>, image: Image)
    requires ValidGeometry(g) && WatchedAll(g, issued, at, ps, truth) && |ds| <= |ps|
    requires Visited(q, ps, truth, ds, image)
    ensures DamageTrue(ps, truth, AllEvents(q, ps, truth, ds))
    ensures Ordered(AllEvents(q, ps, truth, ds))
  {
    VisitedMeans(q, ps, truth, ds, image);
    var events := AllEvents(q, ps, truth, ds);
    forall i | 0 <= i < |events| && events[i].CorruptGap?
      ensures ListedDamaged(ps, truth, events[i].generation)
    {
      DamageListed(q, ps, truth, ds, i);
    }
    DataInOrder(g, issued, at, q, ps, truth, ds);
  }
}
