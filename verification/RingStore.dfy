/**
  The writable ring store: the object that packs records into frames, rotates through the
  partitions, and recovers from the media when it is opened.  Every media operation it makes is
  a step of the crash protocol, so everything proved about whole runs holds of it.
 */
module RingStore {
  import opened Bytes
  import opened Media
  import opened Recovery
  import opened Protocol
  import opened CrashSafety
  import opened Bindings
  import opened Storage

  const UINT64_MAX := 0xffff_ffff_ffff_ffff

  datatype Metrics = Metrics(accepted: nat, durable: nat, published: nat, checkpoints: nat, rotations: nat)

  predicate SameRecords(a: Metrics, b: Metrics) {
    a.accepted == b.accepted && a.published == b.published
  }

  /** The catalog entry of the active partition; the writers of its entries are not serialized. */
  datatype Partition = Partition(header: Header, sealed: bool, index: seq<Entry>, writers: seq<nat>, dataEnd: nat)

  predicate ValidOptions(o: PartitionOptions) {
    o.timeDomain != 0 && (o.formatId == 0 <==> o.formatVersion == 0)
  }

  predicate Complete(c: Contract) {
    c.formatId != 0 && c.formatVersion != 0 && c.timeDomain != 0
  }

  function MinTime(records: seq<Record>): (t: int)
    requires records != []
    ensures forall i :: 0 <= i < |records| ==> t <= records[i].time
    ensures exists i :: 0 <= i < |records| && records[i].time == t
  {
    var last := records[|records| - 1].time;
    if |records| == 1 then assert records[0].time == last; last
    else
      var init := records[..|records| - 1];
      var m := MinTime(init);
      assert forall i :: 0 <= i < |init| ==> init[i] == records[i];
      assert records[|init|].time == last;
      if m < last then m else last
  }

  function MaxTime(records: seq<Record>): (t: int)
    requires records != []
    ensures forall i :: 0 <= i < |records| ==> records[i].time <= t
    ensures exists i :: 0 <= i < |records| && records[i].time == t
  {
    var last := records[|records| - 1].time;
    if |records| == 1 then assert records[0].time == last; last
    else
      var init := records[..|records| - 1];
      var m := MaxTime(init);
      assert forall i :: 0 <= i < |init| ==> init[i] == records[i];
      assert records[|init|].time == last;
      if m > last then m else last
  }

  lemma {:induction false} RecordsOfSnoc(frames: seq<Frame>, f: Frame)
    ensures RecordsOf(frames) + f.records == RecordsOf(frames + [f]) + []
  {
    assert (frames + [f])[..|frames|] == frames;
  }

  /** What the active catalog entry says of the frames behind it. */
  ghost predicate Describes(p: Partition, frames: seq<Frame>) {
    forall k {:trigger Unfold(k)} :: Unfold(k) ==>
      p.index == EntriesOf(frames) && p.writers == WritersOf(frames) && p.dataEnd == DataEnd(frames)
  }

  lemma {:induction false} DescribesMeans(p: Partition, frames: seq<Frame>)
    ensures Describes(p, frames) <==>
              p.index == EntriesOf(frames) && p.writers == WritersOf(frames) && p.dataEnd == DataEnd(frames)
  {
    assert Unfold(0);
  }

  function Extended(p: Partition, f: Frame): Partition {
    p.(index := p.index + [EntryOf(f, p.dataEnd)], writers := p.writers + [f.writer], dataEnd := p.dataEnd + f.span)
  }

  lemma {:induction false} DescribesMore(p: Partition, frames: seq<Frame>, f: Frame)
    requires Describes(p, frames)
    ensures Describes(Extended(p, f), frames + [f])
  {
    DescribesMeans(p, frames);
    DescribesMeans(Extended(p, f), frames + [f]);
    EntriesSnoc(frames, f);
    TotalSpanSnoc(frames, f);
  }

  lemma {:induction false} RawSizeSnoc(records: seq<Record>, r: Record)
    ensures RawSize(records + [r]) == RawSize(records) + |r.bytes|
  {
    assert (records + [r])[..|records|] == records;
  }

  // ----------------------------------------------------------- frame sizes

  lemma {:induction false} AlignUpMonotone(a: nat, b: nat, q: nat)
    requires q > 0 && a <= b
    ensures AlignUp(a, q) <= AlignUp(b, q)
  {
    AlignUpAligned(a, q);
    AlignUpAligned(b, q);
    var x := AlignUp(a, q) / q - AlignUp(b, q) / q;
    assert q * x == AlignUp(a, q) - AlignUp(b, q);
    assert x >= 1 ==> q * x >= q;
  }

  function SpanOf(g: Geometry, stored: nat): nat
    requires g.quantum > 0
  {
    AlignUp(BLOCK_HEADER + stored, g.quantum)
  }

  lemma {:induction false} SpanAtMostWorst(g: Geometry, stored: nat)
    requires ValidGeometry(g) && stored <= g.maxPayload
    ensures SpanOf(g, stored) <= WorstSpan(g)
  {
    AlignUpMonotone(BLOCK_HEADER + stored, BLOCK_HEADER + g.maxPayload, g.quantum);
  }

  /**
    Every block a valid geometry lets a writer accept has a 32-bit span exactly when the worst span has:
    the geometry checks alone do not ensure it.
   */
  lemma {:induction false} SpansFitExactly(g: Geometry)
    requires ValidGeometry(g)
    ensures (forall stored: nat :: 1 <= stored <= g.maxPayload ==> SpanOf(g, stored) <= UINT32_MAX)
       <==> WorstSpan(g) <= UINT32_MAX
  {
    assert SpanOf(g, g.maxPayload) == WorstSpan(g);
    forall stored: nat | 1 <= stored <= g.maxPayload
      ensures SpanOf(g, stored) <= WorstSpan(g)
    {
      SpanAtMostWorst(g, stored);
    }
  }

  /** A geometry that passes every check and still lets a block grow past 32 bits. */
  lemma SpansNeedNotFit()
    ensures var g := Geometry(2, 0x2_0000_0000, 1, 1, UINT32_MAX); ValidGeometry(g) && WorstSpan(g) > UINT32_MAX
  {
  }

  lemma {:induction false} ModUnique(x: nat, q: nat, a: nat, r: nat)
    requires q > 0 && x == q * a + r && r < q
    ensures x % q == r
  {
    var y := x / q - a;
    assert q * y == r - x % q;
    assert y >= 1 ==> q * y >= q;
    assert y <= -1 ==> q * y + q <= 0;
  }

  lemma {:induction false} NextSlot(g: Geometry, generation: nat)
    requires ValidGeometry(g) && generation > 0
    ensures (SlotOf(g, generation) + 1) % g.partitions == SlotOf(g, generation + 1)
  {
    var q, a, s := g.partitions, (generation - 1) / g.partitions, SlotOf(g, generation);
    if s + 1 < q {
      ModUnique(s + 1, q, 0, s + 1);
      ModUnique(generation, q, a, s + 1);
    } else {
      ModUnique(s + 1, q, 1, 0);
      assert generation == q * (a + 1);
      ModUnique(generation, q, a + 1, 0);
    }
  }

  /** A builder that one block can hold, with its time range. */
  ghost predicate Packed(g: Geometry, builder: seq<Record>, min: int, max: int) {
    forall k {:trigger Unfold(k)} :: Unfold(k) ==>
      && RawSize(builder) <= g.maxPayload
      && (builder != [] ==> RawSize(builder) > 0 && min == MinTime(builder) && max == MaxTime(builder))
  }

  lemma {:induction false} PackedMeans(g: Geometry, builder: seq<Record>, min: int, max: int)
    requires Packed(g, builder, min, max)
    ensures RawSize(builder) <= g.maxPayload
    ensures builder != [] ==> RawSize(builder) > 0 && min == MinTime(builder) && max == MaxTime(builder)
  {
    assert Unfold(0);
  }

  lemma {:induction false} PackedMore(g: Geometry, builder: seq<Record>, min: int, max: int, r: Record)
    requires Packed(g, builder, min, max) && r.bytes != [] && |r.bytes| <= g.maxPayload - RawSize(builder)
    ensures var min' := if builder == [] || r.time < min then r.time else min;
            var max' := if builder == [] || r.time > max then r.time else max;
            Packed(g, builder + [r], min', max')
  {
    PackedMeans(g, builder, min, max);
    RawSizeSnoc(builder, r);
    assert (builder + [r])[..|builder|] == builder;
  }

  /** A frame made of a packed builder. */
  lemma {:induction false} PackedFrameOk(g: Geometry, f: Frame)
    requires ValidGeometry(g) && Packed(g, f.records, f.minTime, f.maxTime) && f.records != []
    requires f.generation > 0 && f.slot == SlotOf(g, f.generation) && f.writer != 0
    requires 1 <= f.stored <= RawSize(f.records) && f.span == AlignUp(BLOCK_HEADER + f.stored, g.quantum)
    ensures FrameOk(g, f)
  {
    PackedMeans(g, f.records, f.minTime, f.maxTime);
  }

  /** Every accepted record is in a published frame or in the builder, in order. */
  ghost predicate Divided(accepted: seq<Record>, published: seq<Frame>, builder: seq<Record>) {
    forall k {:trigger Unfold(k)} :: Unfold(k) ==> accepted == RecordsOf(published) + builder
  }

  lemma {:induction false} DividedMeans(accepted: seq<Record>, published: seq<Frame>, builder: seq<Record>)
    ensures Divided(accepted, published, builder) <==> accepted == RecordsOf(published) + builder
  {
    assert Unfold(0);
  }

  lemma {:induction false} DividedMore(accepted: seq<Record>, published: seq<Frame>, builder: seq<Record>, r: Record)
    requires Divided(accepted, published, builder)
    ensures Divided(accepted + [r], published, builder + [r])
  {
    DividedMeans(accepted, published, builder);
    DividedMeans(accepted + [r], published, builder + [r]);
    Assoc(RecordsOf(published), builder, [r]);
  }

  lemma {:induction false} DividedEmit(accepted: seq<Record>, published: seq<Frame>, builder: seq<Record>, f: Frame)
    requires Divided(accepted, published, builder) && f.records == builder
    ensures Divided(accepted, published + [f], [])
  {
    DividedMeans(accepted, published, builder);
    DividedMeans(accepted, published + [f], []);
    RecordsOfSnoc(published, f);
  }

  // -------------------------------------------------------------- tracking

  /** The world is where this run leads. */
  ghost predicate Tracks(g: Geometry, es: seq<Event>, w: World)
    requires ValidGeometry(g)
  {
    forall k {:trigger Unfold(k)} :: Unfold(k) ==> Legal(g, es) && w == Reach(g, es)
  }

  lemma {:induction false} TracksMeans(g: Geometry, es: seq<Event>, w: World)
    requires ValidGeometry(g)
    ensures Tracks(g, es, w) <==> Legal(g, es) && w == Reach(g, es)
  {
    assert Unfold(0);
  }

  lemma {:induction false} TracksStep(g: Geometry, es: seq<Event>, w: World, e: Event)
    requires ValidGeometry(g) && Tracks(g, es, w) && Enabled(g, w, e)
    ensures Tracks(g, es + [e], Next(g, w, e))
  {
    var more := es + [e];
    TracksMeans(g, es, w);
    TracksMeans(g, more, Next(g, w, e));
    assert more[..|es|] == es;
    forall i | 0 <= i < |more|
      ensures LegalAt(g, more, i)
    {
      if i < |es| {
        assert LegalAt(g, es, i);
        assert more[..i] == es[..i];
      }
    }
  }

  /** What a live writer may rely on. */
  lemma {:induction false} TracksWriter(g: Geometry, es: seq<Event>, w: World)
    requires ValidGeometry(g) && Tracks(g, es, w) && w.writer.Some?
    ensures w.writer.value.id != 0 && w.top <= w.begun
    ensures Fits(g, w.writer.value.frames)
    ensures w.writer.value.phase != Active ==> Promised(w.promised, w.top) == w.writer.value.frames
    ensures Promised(w.promised, w.top) <= w.writer.value.frames
    ensures w.writer.value.phase == HeaderWritten ==> w.begun == w.top + 1
    ensures w.writer.value.phase == Active ==> w.top > 0
  {
    TracksMeans(g, es, w);
    ReachInv(g, es);
  }

  /** The step carries the write `d`, leaving `after` in force. */
  ghost predicate Carries(g: Geometry, w: World, d: Write, e: Event, after: Image)
    requires ValidGeometry(g)
  {
    && Enabled(g, w, e)
    && Next(g, w, e).volatile == after && Next(g, w, e).durable == w.durable
    && Next(g, w, e).dirty == w.dirty + [d]
  }

  /** A frame this incarnation published is still in the list of its generation. */
  ghost predicate Kept(top: nat, frames: seq<Frame>, promised: map<nat, seq<Frame>>, f: Frame) {
    1 <= f.generation <= top && f in if f.generation == top then frames else Promised(promised, f.generation)
  }

  ghost predicate AllKept(top: nat, frames: seq<Frame>, promised: map<nat, seq<Frame>>, published: seq<Frame>) {
    forall k {:trigger Kept(top, frames, promised, published[k])} ::
      0 <= k < |published| ==> Kept(top, frames, promised, published[k])
  }

  ghost predicate KeptIn(w: World, published: seq<Frame>) {
    w.writer.Some? && AllKept(w.top, w.writer.value.frames, w.promised, published)
  }

  ghost predicate AllPromised(w: World, published: seq<Frame>) {
    forall k :: 0 <= k < |published| ==>
      1 <= published[k].generation <= w.top && published[k] in Promised(w.promised, published[k].generation)
  }

  lemma {:induction false} EmitKept(top: nat, frames: seq<Frame>, promised: map<nat, seq<Frame>>,
                                    published: seq<Frame>, f: Frame)
    requires AllKept(top, frames, promised, published) && f.generation == top > 0
    ensures AllKept(top, frames + [f], promised, published + [f])
  {
    forall k | 0 <= k < |published|
      ensures Kept(top, frames + [f], promised, published[k])
    {
      assert Kept(top, frames, promised, published[k]);
    }
    assert Kept(top, frames + [f], promised, f);
  }

  /** Moving the builder's records into a written frame loses and invents nothing. */
  lemma {:induction false} FrameLogged(w: World, w': World, p: Partition, f: Frame, published: seq<Frame>,
                                       earlier: seq<Frame>)
    requires w.emitted == earlier + published && w'.emitted == w.emitted + [f]
    requires KeptIn(w, published) && w'.writer.Some? && Describes(p, w.writer.value.frames)
    requires w'.top == w.top == f.generation > 0 && w'.promised == w.promised
    requires w'.writer.value.frames == w.writer.value.frames + [f]
    ensures KeptIn(w', published + [f]) && Describes(Extended(p, f), w'.writer.value.frames)
    ensures w'.emitted == earlier + (published + [f])
  {
    Assoc(earlier, published, [f]);
    EmitKept(w.top, w.writer.value.frames, w.promised, published, f);
    DescribesMore(p, w.writer.value.frames, f);
  }

  lemma {:induction false} FlushKeptFrame(g: Geometry, w: World, f: Frame)
    requires ValidGeometry(g) && w.writer.Some? && w.top <= w.begun
    requires Kept(w.top, w.writer.value.frames, w.promised, f)
    requires w.writer.value.phase != Active ==> Promised(w.promised, w.top) == w.writer.value.frames
    requires w.writer.value.phase == HeaderWritten ==> w.begun == w.top + 1
    ensures var w' := Next(g, w, Flush); w'.writer.Some? && Kept(w'.top, w'.writer.value.frames, w'.promised, f)
  {
  }

  /** A flush keeps everything. */
  lemma {:induction false} FlushKept(g: Geometry, es: seq<Event>, w: World, published: seq<Frame>)
    requires ValidGeometry(g) && Tracks(g, es, w) && KeptIn(w, published)
    ensures KeptIn(Next(g, w, Flush), published)
  {
    var w' := Next(g, w, Flush);
    TracksWriter(g, es, w);
    forall k | 0 <= k < |published|
      ensures Kept(w'.top, w'.writer.value.frames, w'.promised, published[k])
    {
      assert Kept(w.top, w.writer.value.frames, w.promised, published[k]);
      FlushKeptFrame(g, w, published[k]);
    }
  }

  lemma {:induction false} CleanPromised(w: World, published: seq<Frame>)
    requires w.top > 0 && KeptIn(w, published)
    requires Promised(w.promised, w.top) == w.writer.value.frames
    ensures AllPromised(w, published)
  {
    forall k | 0 <= k < |published|
      ensures 1 <= published[k].generation <= w.top && published[k] in Promised(w.promised, published[k].generation)
    {
      assert Kept(w.top, w.writer.value.frames, w.promised, published[k]);
    }
  }

  /**
    What a successful checkpoint means: a frame that is promised at some point of a run is returned by
    a lazy reopen after any continuation and any crash, unless its slot's next header was begun.
   */
  lemma {:induction false} PromisedFrameSurvives(g: Geometry, es: seq<Event>, i: nat, f: Frame, after: Image)
    requires ValidGeometry(g) && Legal(g, es) && i <= |es|
    requires CrashImage(Reach(g, es).durable, Reach(g, es).dirty, after)
    requires AllPromised(Reach(g, es[..i]), [f]) && Reach(g, es).begun < f.generation + g.partitions
    ensures f.generation > 0 && IsHeader(g, HeaderOn(g, after, f.generation), f.generation)
    ensures f in Retrieved(g, after, HeaderOn(g, after, f.generation).header)
  {
    assert [f][0] == f;
    Durability(g, es, i, f.generation, after);
  }

  lemma {:induction false} FrameOfRecord(frames: seq<Frame>, r: Record) returns (k: nat)
    requires r in RecordsOf(frames)
    ensures k < |frames| && r in frames[k].records
    decreases |frames|
  {
    var n := |frames| - 1;
    if r in frames[n].records {
      k := n;
    } else {
      k := FrameOfRecord(frames[..n], r);
    }
  }

  /**
    Durability of records: once everything published is promised, as a checkpoint that returned Ok leaves
    it, each record is in a frame that a lazy reopen returns after any continuation of the run and any
    crash, unless a header write for the next generation of that frame's slot was issued.
   */
  lemma {:induction false} RecordSurvives(g: Geometry, es: seq<Event>, i: nat, published: seq<Frame>, r: Record,
                                          after: Image)
    returns (f: Frame)
    requires ValidGeometry(g) && Legal(g, es) && i <= |es|
    requires CrashImage(Reach(g, es).durable, Reach(g, es).dirty, after)
    requires AllPromised(Reach(g, es[..i]), published) && r in RecordsOf(published)
    ensures f in published && r in f.records && f.generation > 0
    ensures Reach(g, es).begun < f.generation + g.partitions ==>
              && IsHeader(g, HeaderOn(g, after, f.generation), f.generation)
              && f in Retrieved(g, after, HeaderOn(g, after, f.generation).header)
  {
    var k := FrameOfRecord(published, r);
    f := published[k];
    if Reach(g, es).begun < f.generation + g.partitions {
      PromisedFrameSurvives(g, es, i, f, after);
    }
  }

  // -------------------------------------------------------------- the store

  /**
    The frame's times are those of its earliest and its latest record, and its payload is stored as the codec
    made it, `coded` bytes long, exactly when that is shorter than the records themselves.
   */
  ghost predicate Tight(f: Frame, coded: nat) {
    forall k {:trigger Unfold(k)} :: Unfold(k) ==>
      && (exists i :: 0 <= i < |f.records| && f.records[i].time == f.minTime)
      && (exists i :: 0 <= i < |f.records| && f.records[i].time == f.maxTime)
      && (forall i :: 0 <= i < |f.records| ==> f.minTime <= f.records[i].time <= f.maxTime)
      && f.stored == if 0 < coded < RawSize(f.records) then coded else RawSize(f.records)
  }

  lemma {:induction false} TightMeans(f: Frame, coded: nat)
    requires Tight(f, coded)
    ensures exists i :: 0 <= i < |f.records| && f.records[i].time == f.minTime
    ensures exists i :: 0 <= i < |f.records| && f.records[i].time == f.maxTime
    ensures forall i :: 0 <= i < |f.records| ==> f.minTime <= f.records[i].time <= f.maxTime
    ensures f.stored == if 0 < coded < RawSize(f.records) then coded else RawSize(f.records)
  {
    assert Unfold(0);
  }

  /** A frame made of the builder, if there was one, went to the partition with header `h`. */
  ghost predicate EmittedInto(h: Header, coded: nat, builder: seq<Record>, was: seq<Frame>, now: seq<Frame>) {
    if builder == [] then now == was
    else
      && |now| == |was| + 1 && now[..|was|] == was && Tight(now[|was|], coded)
      && now[|was|].records == builder && now[|was|].generation == h.generation && now[|was|].slot == h.slot
  }

  /** The active partition is still the one it was, or the next generation, begun with the given options. */
  predicate MovedOn(was: Header, now: Header, next: PartitionOptions) {
    now == was || (now.generation == was.generation + 1 && now.options == next)
  }

  /** How a usable store fails: on the media, or by running out of generations. */
  predicate StorageError(e: Error, active: Header) {
    e == IoError || (e == GenerationExhausted && active.generation == UINT64_MAX)
  }

  /** How an append to a usable store fails: like the store, or because the active partition breaks the contract. */
  predicate AppendError(e: Error, fault: Option<Error>, was: Header, now: Header, expected: Option<Contract>) {
    || (StorageError(e, was) && fault == Some(e))
    || (e == InvalidArgument && fault.None? && expected.Some? && !Meets(now.options, expected.value))
  }

  class Store {
    const g: Geometry
    const storage: MemoryStorage
    const id: nat
    const codec: seq<Record> -> nat    // the size the configured codec compresses a block to
    var active: Partition
    var next: PartitionOptions
    var builder: seq<Record>
    var builderMin: int
    var builderMax: int
    var dirty: bool
    var undurable: bool
    var closed: bool
    var fault: Option<Error>
    var metrics: Metrics
    ghost var world: World
    ghost var events: seq<Event>
    ghost var accepted: seq<Record>    // what this incarnation accepted, in order
    ghost var published: seq<Frame>    // what this incarnation emitted, in order
    ghost var ties: Ties               // what the accepted records demanded, and where they went
    ghost const before: seq<Frame>     // what earlier incarnations emitted
    ghost const origin: seq<Event>     // the run up to and including this open
    ghost const since: nat             // how many calls the backend had served before

    // ------------------------------------------------------------ invariant

    /** The media is where the run of this store leads. */
    ghost predicate Mirrors()
      reads `world, `events, storage
    {
      && ValidGeometry(g) && WorstSpan(g) <= UINT32_MAX
      && Tracks(g, events, world)
      && storage.volatile == world.volatile && storage.durable == world.durable && storage.dirty == world.dirty
    }

    /** The store reports an I/O error exactly when a call to its backend has failed since it was opened. */
    ghost predicate Blamed()
      reads `fault, storage
    {
      since <= storage.calls && (fault == Some(IoError) <==> FailedIn(storage.faults, since, storage.calls))
    }

    /** Only a fault makes the run uneven. */
    ghost predicate Agrees()
      reads `world, `events, `fault, storage
    {
      Mirrors() && Blamed() && (fault.None? && AllSmooth(g, origin) ==> AllSmooth(g, events))
    }

    /** This incarnation is live, holding the frames its active index describes under a header in force. */
    ghost predicate Holding(phase: Phase)
      reads `world, `events, `fault, `active, storage
    {
      && Agrees() && fault.None? && world.top > 0
      && world.writer.Some? && world.writer.value.id == id && world.writer.value.phase == phase
      && active.header.generation == world.top && active.header.slot == SlotOf(g, world.top)
      && Get(world.volatile, HeaderAt(active.header.slot)) == HeaderCell(active.header)
      && Describes(active, world.writer.value.frames)
    }

    /** Room for the largest block, checked before the first record of a block is accepted. */
    predicate Room()
      requires g.quantum > 0
      reads `active
    {
      && active.dataEnd <= g.indexBegin && WorstSpan(g) <= g.indexBegin - active.dataEnd
      && |active.index| + 1 <= g.indexCapacity
    }

    /** The durability counters. */
    predicate Counted()
      reads `metrics, `undurable, `dirty, `builder
    {
      && metrics.durable <= metrics.accepted
      && (undurable <==> metrics.durable < metrics.accepted)
      && (!dirty && builder == [] ==> metrics.durable == metrics.accepted)
    }

    ghost predicate Recorded()
      reads `metrics, `accepted, `published, `builder
    {
      metrics.accepted == |accepted| && metrics.published == |published| && Divided(accepted, published, builder)
    }

    /** Every accepted record is bound to a header that meets what it demanded. */
    ghost predicate Tied()
      requires ValidGeometry(g)
      reads `events, `active, `builder, `published, `ties
    {
      Bound(g, events, active.header.options, builder, published, ties)
    }

    /** What holds of a store whether it is live, faulted or closed. */
    ghost predicate Steady()
      requires ValidGeometry(g)
      reads `metrics, `undurable, `dirty, `builder, `accepted, `published, `events, `active, `ties
    {
      Counted() && Recorded() && Tied()
    }

    ghost predicate Logged()
      reads `published, `world, `dirty
    {
      && world.emitted == before + published
      && world.writer.Some? && KeptIn(world, published)
      && (!dirty ==> Promised(world.promised, world.top) == world.writer.value.frames)
      && (!dirty && world.writer.value.phase == Active ==> world.dirty == [])
    }

    ghost predicate BuilderOk()
      reads `builder, `builderMin, `builderMax
    {
      Packed(g, builder, builderMin, builderMax)
    }

    /** Sealed, flushed, and about to begin the next generation; a fresh volume starts here. */
    ghost predicate Between()
      reads `world, `events, `fault, `published, `dirty, storage
    {
      && Agrees() && fault.None? && Logged() && !dirty
      && world.writer.value.id == id && world.writer.value.phase == Sealed && world.dirty == []
    }

    ghost predicate Live()
      reads this, storage
    {
      && Holding(Active) && Logged() && BuilderOk()
      && (builder != [] ==> Room())
      && ValidOptions(next)
    }

    ghost predicate Valid()
      reads this, storage
    {
      && Agrees() && Steady()
      && (if closed || fault.Some? then world.writer.None? else Live())
      && (closed ==> world.emitted == before + published)
    }

    /** A store object over media that an open has just recovered. */
    constructor Recovered(storage: MemoryStorage, g: Geometry, id: nat, codec: seq<Record> -> nat,
                          active: Partition, next: PartitionOptions, ghost events: seq<Event>, ghost world: World)
      ensures this.storage == storage && this.g == g && this.id == id && this.codec == codec
      ensures this.active == active && this.next == next && this.world == world
      ensures this.events == this.origin == events && this.since == storage.calls
      ensures builder == [] && !dirty && !undurable && !closed && fault == None && metrics == Metrics(0, 0, 0, 0, 0)
      ensures accepted == [] && published == [] && ties == Ties([], [], []) && before == world.emitted
    {
      this.storage, this.g, this.id, this.codec := storage, g, id, codec;
      this.active, this.next, this.events, this.origin := active, next, events, events;
      this.world, this.before, this.since := world, world.emitted, storage.calls;
      builder, builderMin, builderMax := [], 0, 0;
      dirty, undurable, closed, fault := false, false, false, None;
      metrics, accepted, published, ties := Metrics(0, 0, 0, 0, 0), [], [], Ties([], [], []);
    }

    /** Later events and a new active header leave the bindings of an empty builder as they are. */
    ghost method Retie(was: seq<Event>, options: PartitionOptions)
      requires ValidGeometry(g) && Bound(g, was, options, builder, published, ties) && was <= events
      requires active.header.options == options || builder == []
      ensures Tied()
    {
      BoundLater(g, was, events, options, active.header.options, builder, published, ties);
    }

    // ---------------------------------------------------------------- media

    /** Adds a step to the run. */
    ghost method Record(e: Event)
      requires ValidGeometry(g) && Tracks(g, events, world) && Enabled(g, world, e)
      requires fault.None? && AllSmooth(g, origin) ==> AllSmooth(g, events)
      modifies `world, `events
      ensures Tracks(g, events, world) && world == Next(g, old(world), e) && events == old(events) + [e]
      ensures fault.None? && AllSmooth(g, origin) && Smooth(old(world), e) ==> AllSmooth(g, events)
    {
      TracksStep(g, events, world, e);
      TracksMeans(g, events, world);
      if fault.None? && AllSmooth(g, origin) && Smooth(world, e) {
        SmoothSnoc(g, events, e);
      }
      events, world := events + [e], Next(g, world, e);
    }

    /** Records the store's fault; from then on no writer issues anything. */
    method Fail(error: Error)
      requires Mirrors() && world.writer.Some? && since <= storage.calls
      requires error == IoError <==> FailedIn(storage.faults, since, storage.calls)
      requires fault.None? && AllSmooth(g, origin) ==> AllSmooth(g, events)
      modifies `fault, `world, `events
      ensures Agrees() && fault == Some(error)
      ensures world == old(world).(writer := None) && old(events) <= events
    {
      Record(Abandon);
      fault := Some(error);
    }

    method SyncMedia(advancesDurability: bool) returns (r: Result<()>)
      requires Agrees() && world.writer.Some? && fault.None? && (advancesDurability ==> builder == [])
      modifies storage, `fault, `world, `events, `dirty, `undurable, `metrics
      ensures Agrees() && old(events) <= events
      ensures r.Ok? ==> world == Next(g, old(world), Flush) && fault == old(fault)
      ensures r.Err? ==> r.error == IoError && fault == Some(r.error) && world.writer.None?
      ensures r.Ok? && advancesDurability ==>
                && !dirty && !undurable
                && metrics == old(metrics).(durable := old(metrics).accepted,
                                            checkpoints := old(metrics).checkpoints + 1)
      ensures r.Err? || !advancesDurability ==>
                dirty == old(dirty) && undurable == old(undurable) && metrics == old(metrics)
    {
      FailedNext(storage.faults, since, storage.calls);
      var ok := storage.Flush();
      if !ok {
        Fail(IoError);
        return Err(IoError);
      }
      Record(Flush);
      if advancesDurability {
        dirty := false;
        metrics := metrics.(checkpoints := metrics.checkpoints + 1, durable := metrics.accepted);
        undurable := false;
      }
      return Ok(());
    }

    /** One media write: a step of the protocol when it succeeds, a fault when it does not. */
    method WriteStructure(d: Write, ghost succeeded: Event, ghost failed: Image -> Event) returns (r: Result<()>)
      requires Agrees() && world.writer.Some? && fault.None? && Smooth(world, succeeded)
      requires Carries(g, world, d, succeeded, Written(world.volatile, d))
      requires forall after: Image :: CrashImage(world.volatile, [d], after) ==>
                 Carries(g, world, d, failed(after), after) && Next(g, world, failed(after)).writer.None?
      modifies storage, `fault, `world, `events
      ensures Agrees() && old(events) <= events
      ensures r.Ok? ==> world == Next(g, old(world), succeeded) && fault == old(fault)
      ensures r.Err? ==> r.error == IoError && fault == Some(r.error) && world.writer.None?
    {
      FailedNext(storage.faults, since, storage.calls);
      var ok := storage.WriteAt(d);
      ghost var e := if ok then succeeded else failed(storage.volatile);
      Record(e);
      if !ok {
        fault := Some(IoError);
        return Err(IoError);
      }
      return Ok(());
    }

    // -------------------------------------------------------------- publish

    /** The frame the builder turns into; compression is used only when it makes the block smaller. */
    function BuiltFrame(): (f: Frame)
      requires g.quantum > 0
      reads `builder, `active, `builderMin, `builderMax
    {
      var raw := RawSize(builder);
      var stored := if 0 < codec(builder) < raw then codec(builder) else raw;
      Frame(active.header.generation, active.header.slot, |active.index|, id, LastOf(active.writers),
            stored, SpanOf(g, stored), builder, builderMin, builderMax)
    }

    /** The check that guards the append of a frame to the active partition. */
    predicate CanTake(span: nat)
      reads `active
    {
      && active.dataEnd <= g.indexBegin && span <= g.indexBegin - active.dataEnd
      && |active.index| + 1 <= g.indexCapacity
    }

    /** The builder went, as one frame, into the partition that was active. */
    twostate predicate Emitted()
      reads `active, `builder, `published
    {
      EmittedInto(old(active).header, codec(old(builder)), old(builder), old(published), published)
    }

    /** Emitting the built frame is a step the protocol allows. */
    lemma BuiltFrameAllowed()
      requires Holding(Active) && BuilderOk() && builder != [] && CanTake(BuiltFrame().span)
      ensures IssueOk(g, Issue(BuiltFrame(), world.writer.value.frames))
    {
      TracksWriter(g, events, world);
      BuiltFrameStored();
      PackedFrameOk(g, BuiltFrame());
      DescribesMeans(active, world.writer.value.frames);
    }

    lemma BuiltFrameStored()
      requires g.quantum > 0 && BuilderOk() && builder != []
      ensures 1 <= BuiltFrame().stored <= RawSize(builder)
    {
      PackedMeans(g, builder, builderMin, builderMax);
    }

    lemma BuiltFrameTight()
      requires g.quantum > 0 && BuilderOk() && builder != []
      ensures Tight(BuiltFrame(), codec(builder))
    {
      PackedMeans(g, builder, builderMin, builderMax);
    }

    /** Appends a written frame to the active index. */
    method Catalogue(f: Frame, ghost at: nat)
      requires Recorded() && f.records == builder
      requires world.writer.Some? && KeptIn(world, published + [f])
      requires world.emitted == before + (published + [f])
      modifies `active, `metrics, `dirty, `builder, `published, `ties
      ensures active == Extended(old(active), f)
      ensures metrics == old(metrics).(published := old(metrics).published + 1)
      ensures dirty && builder == [] && published == old(published) + [f] && Recorded() && Logged()
      ensures ties == Emitting(old(ties), old(active).header, at)
    {
      DividedEmit(accepted, published, builder, f);
      active := active.(index := active.index + [EntryOf(f, active.dataEnd)], writers := active.writers + [f.writer],
                        dataEnd := active.dataEnd + f.span);
      metrics := metrics.(published := metrics.published + 1);
      ties := Emitting(ties, active.header, at);
      dirty, builder, published := true, [], published + [f];
    }

    /** Writes the built frame behind the active data. */
    method WriteFrame() returns (r: Result<()>, f: Frame)
      requires Holding(Active) && BuilderOk() && builder != [] && CanTake(BuiltFrame().span)
      modifies storage, `fault, `world, `events
      ensures Agrees() && old(events) <= events
      ensures f.records == builder && f.generation == old(world).top && f.slot == active.header.slot && f.writer == id
      ensures Tight(f, codec(builder))
      ensures r.Ok? ==>
                && world.writer == Some(old(world).writer.value.(frames := old(world).writer.value.frames + [f]))
                && world.top == old(world).top && world.promised == old(world).promised && fault == old(fault)
                && world.emitted == old(world).emitted + [f]
                && Get(world.volatile, HeaderAt(active.header.slot)) == HeaderCell(active.header)
      ensures r.Err? ==> r.error == IoError && fault == Some(r.error) && world.writer.None?
    {
      f := BuiltFrame();
      BuiltFrameAllowed();
      BuiltFrameTight();
      DescribesMeans(active, world.writer.value.frames);
      var d := Write(FrameAt(f.slot, active.dataEnd), FrameCell(f));
      WrittenAt(world.volatile, d, HeaderAt(active.header.slot));
      r := WriteStructure(d, Emit(f, Written(world.volatile, d), true), (after: Image) => Emit(f, after, false));
    }

    /** The same, with what it means for the log of this incarnation. */
    method WriteLogged() returns (r: Result<()>, f: Frame)
      requires Holding(Active) && Logged() && BuilderOk() && builder != [] && CanTake(BuiltFrame().span)
      modifies storage, `fault, `world, `events
      ensures Agrees() && old(events) <= events
      ensures f.records == builder && f.generation == active.header.generation && f.slot == active.header.slot
      ensures Tight(f, codec(builder))
      ensures r.Ok? ==>
                && fault.None? && world.top == old(world).top && world.writer.Some?
                && world.writer.value.id == id && world.writer.value.phase == Active
                && Get(world.volatile, HeaderAt(active.header.slot)) == HeaderCell(active.header)
                && Describes(Extended(active, f), world.writer.value.frames)
                && KeptIn(world, published + [f]) && world.emitted == before + (published + [f])
      ensures r.Err? ==> r.error == IoError && fault == Some(r.error) && world.writer.None?
    {
      ghost var was := world;
      r, f := WriteFrame();
      if r.Ok? {
        FrameLogged(was, world, active, f, published, before);
      }
    }

    /** Writes the built frame and moves it from the builder to the active index. */
    method EmitFrame() returns (r: Result<()>, f: Frame)
      requires Holding(Active) && Logged() && Counted() && Recorded()
      requires BuilderOk() && builder != [] && CanTake(BuiltFrame().span)
      modifies storage, `fault, `world, `events, `active, `metrics, `dirty, `builder, `published, `ties
      ensures Agrees() && old(events) <= events && Counted() && Recorded() && active.header == old(active).header
      ensures f.records == old(builder) && f.generation == active.header.generation && f.slot == active.header.slot
      ensures Tight(f, codec(old(builder)))
      ensures r.Ok? ==> Holding(Active) && Logged() && builder == [] && published == old(published) + [f]
      ensures r.Ok? ==> ties == Emitting(old(ties), old(active).header, |old(events)|)
      ensures metrics.accepted == old(metrics).accepted
      ensures r.Err? ==> r.error == IoError && fault == Some(r.error) && world.writer.None?
      ensures r.Err? ==> builder == old(builder) && published == old(published) && ties == old(ties)
    {
      ghost var at := |events|;
      r, f := WriteLogged();
      if r.Ok? {
        Catalogue(f, at);
      }
    }

    /** The same, with what it means for the records it moves. */
    method EmitTied() returns (r: Result<()>)
      requires Holding(Active) && Logged() && Steady() && BuilderOk() && builder != [] && CanTake(BuiltFrame().span)
      modifies storage, `fault, `world, `events, `active, `metrics, `dirty, `builder, `published, `ties
      ensures Agrees() && old(events) <= events && Steady() && active.header == old(active).header
      ensures r.Ok? ==> Holding(Active) && Logged() && builder == []
      ensures r.Ok? ==> Emitted()
      ensures metrics.accepted == old(metrics).accepted && ties.contracts == old(ties).contracts
      ensures r.Err? ==> r.error == IoError && fault == Some(r.error) && world.writer.None?
    {
      ghost var was, header, waiting, frames, tied := events, active.header, builder, published, ties;
      TracksMeans(g, events, world);
      ActiveHeaderFixed(g, events, active.header);
      var f;
      r, f := EmitFrame();
      if r.Ok? {
        BoundEmit(g, was, events, header, waiting, frames, tied, f);
      } else {
        Retie(was, header.options);
      }
    }

    /** Emits the RAM block, if any; room was reserved for it, so only the media can refuse. */
    method EmitBuilder() returns (r: Result<()>)
      requires Holding(Active) && Logged() && Steady() && BuilderOk() && (builder != [] ==> Room())
      modifies storage, `fault, `world, `events, `active, `metrics, `dirty, `builder, `published, `ties
      ensures Agrees() && old(events) <= events && Steady() && active.header == old(active).header
      ensures r.Ok? ==> Holding(Active) && Logged() && builder == []
      ensures r.Ok? ==> Emitted()
      ensures metrics.accepted == old(metrics).accepted && ties.contracts == old(ties).contracts
      ensures r.Err? ==> r.error == IoError && fault == Some(r.error) && world.writer.None?
    {
      if builder == [] {
        return Ok(());
      }
      PackedMeans(g, builder, builderMin, builderMax);
      SpanAtMostWorst(g, BuiltFrame().stored);
      r := EmitTied();
    }

    /** The same, for a usable store. */
    method EmitLive() returns (r: Result<()>)
      requires Valid() && Live() && !closed
      modifies storage, `fault, `world, `events, `active, `metrics, `dirty, `builder, `published, `ties
      ensures Valid() && old(events) <= events && active.header == old(active).header
      ensures ties.contracts == old(ties).contracts
      ensures r.Ok? ==> Live() && builder == []
      ensures r.Ok? ==> Emitted()
      ensures r.Err? ==> r.error == IoError && fault == Some(IoError)
    {
      r := EmitBuilder();
    }

    // --------------------------------------------------------------- rotate

    /** Makes the active data durable; a store with nothing dirty has nothing to do. */
    method FlushData() returns (r: Result<()>)
      requires Holding(Active) && Counted() && Logged() && builder == []
      modifies storage, `fault, `world, `events, `dirty, `undurable, `metrics
      ensures Agrees() && old(events) <= events && Counted() && SameRecords(metrics, old(metrics))
      ensures r.Ok? ==> Holding(Active) && Logged() && !dirty
      ensures r.Ok? ==> world.top == old(world).top && world.writer == old(world).writer
      ensures r.Err? ==> r.error == IoError && fault == Some(r.error) && world.writer.None?
    {
      if !dirty {
        return Ok(());
      }
      FlushKept(g, events, world, published);
      r := SyncMedia(true);
    }

    method WriteIndexRegion() returns (r: Result<()>)
      requires Holding(Active) && Logged() && !dirty
      modifies storage, `fault, `world, `events
      ensures Agrees() && old(events) <= events
      ensures r.Ok? ==> Holding(IndexWritten) && Logged()
      ensures r.Err? ==> r.error == IoError && fault == Some(r.error) && world.writer.None?
    {
      DescribesMeans(active, world.writer.value.frames);
      var d := Write(IndexAt(active.header.slot), IndexCell(active.index));
      WrittenAt(world.volatile, d, HeaderAt(active.header.slot));
      r := WriteStructure(d, WriteIndex(Written(world.volatile, d), true), (after: Image) => WriteIndex(after, false));
    }

    method WriteFooterRegion() returns (r: Result<()>)
      requires Logged() && !dirty && (Holding(IndexWritten) || (Holding(Active) && active.index == []))
      modifies storage, `fault, `world, `events
      ensures Agrees() && old(events) <= events
      ensures r.Ok? ==> Holding(FooterWritten) && Logged()
      ensures r.Err? ==> r.error == IoError && fault == Some(r.error) && world.writer.None?
    {
      DescribesMeans(active, world.writer.value.frames);
      var ft := Footer(active.header.generation, active.header.slot, |active.index|, active.dataEnd, active.index);
      var d := Write(FooterAt(active.header.slot), FooterCell(ft));
      WrittenAt(world.volatile, d, HeaderAt(active.header.slot));
      r := WriteStructure(d, WriteFooter(Written(world.volatile, d), true),
                          (after: Image) => WriteFooter(after, false));
    }

    /** The flush that makes index and footer durable, after the data they describe. */
    method CommitSeal() returns (r: Result<()>)
      requires Holding(FooterWritten) && Logged() && !dirty
      modifies storage, `fault, `world, `events, `dirty, `undurable, `metrics
      ensures Agrees() && old(events) <= events
      ensures r.Ok? ==> Between() && world.top == old(world).top
      ensures metrics == old(metrics) && dirty == old(dirty) && undurable == old(undurable)
      ensures r.Err? ==> r.error == IoError && fault == Some(r.error) && world.writer.None?
    {
      FlushKept(g, events, world, published);
      TracksWriter(g, events, world);
      r := SyncMedia(false);
    }

    method WriteSeal() returns (r: Result<()>)
      requires Holding(Active) && Logged() && !dirty
      modifies storage, `fault, `world, `events
      ensures Agrees() && old(events) <= events
      ensures r.Ok? ==> Holding(FooterWritten) && Logged()
      ensures r.Err? ==> r.error == IoError && fault == Some(r.error) && world.writer.None?
    {
      r := Ok(());
      if active.index != [] {
        r := WriteIndexRegion();
      }
      if r.Ok? {
        r := WriteFooterRegion();
      }
    }

    /** Data first, then index and footer, each made durable before the next header is written. */
    method SealActiveOnly() returns (r: Result<()>)
      requires Holding(Active) && Counted() && Logged() && builder == []
      modifies storage, `fault, `world, `events, `dirty, `undurable, `metrics
      ensures Agrees() && old(events) <= events && Counted() && SameRecords(metrics, old(metrics))
      ensures r.Ok? ==> Between() && world.top == old(world).top
      ensures r.Err? ==> r.error == IoError && fault == Some(r.error) && world.writer.None?
    {
      r := FlushData();
      if r.Ok? {
        r := WriteSeal();
        if r.Ok? {
          r := CommitSeal();
        }
      }
    }

    method WriteHeaderRegion(h: Header) returns (r: Result<()>)
      requires Between() && h.generation == world.top + 1 && h.slot == SlotOf(g, world.top + 1)
      modifies storage, `fault, `world, `events
      ensures Agrees() && old(events) <= events
      ensures r.Ok? ==> Logged() && fault.None? && world.top == old(world).top && world.begun == h.generation
      ensures r.Ok? ==> world.writer.value.id == id && world.writer.value.phase == HeaderWritten
      ensures r.Ok? ==> Get(world.volatile, HeaderAt(h.slot)) == HeaderCell(h)
      ensures r.Err? ==> r.error == IoError && fault == Some(r.error) && world.writer.None?
    {
      var d := Write(HeaderAt(h.slot), HeaderCell(h));
      WrittenAt(world.volatile, d, HeaderAt(h.slot));
      r := WriteStructure(d, WriteHeader(h, Written(world.volatile, d), true),
                          (after: Image) => WriteHeader(h, after, false));
    }

    /** The flush that makes the new header durable and turns its partition active. */
    method CommitHeader() returns (r: Result<()>)
      requires Agrees() && Logged() && !dirty && fault.None?
      requires world.writer.value.id == id && world.writer.value.phase == HeaderWritten
      modifies storage, `fault, `world, `events, `dirty, `undurable, `metrics
      ensures Agrees() && old(events) <= events
      ensures r.Ok? ==> Logged() && fault.None? && world.volatile == old(world).volatile
      ensures r.Ok? ==> world.top == old(world).begun && world.writer == Some(Writer(id, [], Active))
      ensures metrics == old(metrics) && dirty == old(dirty) && undurable == old(undurable)
      ensures r.Err? ==> r.error == IoError && fault == Some(r.error) && world.writer.None?
    {
      FlushKept(g, events, world, published);
      r := SyncMedia(false);
    }

    /** Begins the next generation: its header is durable before any of its data is accepted. */
    method CreatePartition(slot: nat, generation: nat, options: PartitionOptions) returns (r: Result<()>)
      requires Between() && generation == world.top + 1 && slot == SlotOf(g, generation)
      modifies storage, `fault, `world, `events, `dirty, `undurable, `metrics, `active
      ensures Agrees() && old(events) <= events
      ensures r.Ok? ==> Holding(Active) && Logged()
      ensures r.Ok? ==> active == Partition(Header(generation, slot, options), false, [], [], REGION)
      ensures metrics == old(metrics) && dirty == old(dirty) && undurable == old(undurable)
      ensures r.Err? ==> r.error == IoError && fault == Some(r.error) && world.writer.None? && active == old(active)
    {
      r := WriteHeaderRegion(Header(generation, slot, options));
      if r.Ok? {
        r := CommitHeader();
        if r.Ok? {
          active := Partition(Header(generation, slot, options), false, [], [], REGION);
          DescribesMeans(active, []);
        }
      }
    }

    method SealAndAdvance(options: PartitionOptions) returns (r: Result<()>)
      requires Holding(Active) && Counted() && Logged() && builder == []
      modifies storage, `fault, `world, `events, `dirty, `undurable, `metrics, `active
      ensures Agrees() && old(events) <= events && Counted() && SameRecords(metrics, old(metrics))
      ensures r.Ok? ==> Holding(Active) && Logged()
      ensures r.Ok? ==> active == Partition(Header(old(active).header.generation + 1,
                                                   SlotOf(g, old(active).header.generation + 1), options),
                                            false, [], [], REGION)
      ensures r.Err? ==> r.error == IoError && fault == Some(r.error) && world.writer.None? && active == old(active)
    {
      var generation, slot := active.header.generation + 1, (active.header.slot + 1) % g.partitions;
      NextSlot(g, active.header.generation);
      r := SealActiveOnly();
      if r.Ok? {
        r := CreatePartition(slot, generation, options);
      }
    }

    /** Seals the active partition and begins the next one, unless generations are exhausted. */
    method RotateInternal(options: PartitionOptions) returns (r: Result<()>)
      requires Holding(Active) && Counted() && Logged() && builder == []
      modifies storage, `fault, `world, `events, `dirty, `undurable, `metrics, `active
      ensures Agrees() && old(events) <= events && Counted() && SameRecords(metrics, old(metrics))
      ensures r.Ok? ==> Holding(Active) && Logged()
      ensures r.Ok? ==> active.index == [] && active.dataEnd == REGION && active.header.options == options
      ensures r.Ok? ==> active.header.generation == old(active).header.generation + 1
      ensures r.Err? ==> fault == Some(r.error) && world.writer.None? && active == old(active)
      ensures r.Err? ==> r.error == if old(active).header.generation == UINT64_MAX then GenerationExhausted else IoError
    {
      if active.header.generation == UINT64_MAX {
        Fail(GenerationExhausted);
        return Err(GenerationExhausted);
      }
      r := SealAndAdvance(options);
      if r.Ok? {
        metrics := metrics.(rotations := metrics.rotations + 1);
      }
    }

    /** The same between two blocks, when no record waits to be bound. */
    method RotateTied(options: PartitionOptions) returns (r: Result<()>)
      requires Valid() && Live() && !closed && builder == []
      modifies storage, `fault, `world, `events, `dirty, `undurable, `metrics, `active
      ensures Valid() && old(events) <= events
      ensures r.Ok? ==> Live()
      ensures r.Ok? ==> active.index == [] && active.dataEnd == REGION && active.header.options == options
      ensures r.Ok? ==> active.header.generation == old(active).header.generation + 1
      ensures r.Err? ==> fault == Some(r.error) && world.writer.None?
      ensures r.Err? ==> r.error == if old(active).header.generation == UINT64_MAX then GenerationExhausted else IoError
    {
      ghost var was, bound := events, active.header.options;
      r := RotateInternal(options);
      Retie(was, bound);
    }

    // --------------------------------------------------------------- append

    /** Before the first record of a block: the active partition has room for the largest block. */
    method EnsureEmptyBuilderCapacity() returns (r: Result<()>)
      requires Valid() && Live() && !closed
      modifies storage, `fault, `world, `events, `dirty, `undurable, `metrics, `active
      ensures Valid() && old(events) <= events
      ensures r.Ok? ==> Live() && Room()
      ensures builder != [] || old(Room()) ==> r.Ok? && active == old(active) && events == old(events)
      ensures r.Ok? ==> MovedOn(old(active).header, active.header, next)
      ensures r.Err? ==> fault == Some(r.error) && world.writer.None?
      ensures r.Err? ==> r.error == if old(active).header.generation == UINT64_MAX then GenerationExhausted else IoError
    {
      if builder != [] {
        return Ok(());
      }
      var dataFull := active.dataEnd > g.indexBegin || WorstSpan(g) > g.indexBegin - active.dataEnd;
      var indexFull := |active.index| + 1 > g.indexCapacity;
      if dataFull || indexFull {
        r := RotateTied(next);
      } else {
        r := Ok(());
      }
    }

    /** Copies the record behind the others and widens the block's time range. */
    method Pack(record: Record)
      requires BuilderOk() && record.bytes != [] && |record.bytes| <= g.maxPayload - RawSize(builder)
      modifies `builder, `builderMin, `builderMax
      ensures BuilderOk() && builder == old(builder) + [record]
    {
      PackedMore(g, builder, builderMin, builderMax, record);
      if builder == [] {
        builderMin, builderMax := record.time, record.time;
      } else {
        builderMin := if builderMin < record.time then builderMin else record.time;
        builderMax := if builderMax > record.time then builderMax else record.time;
      }
      builder := builder + [record];
    }

    /** Counts and logs an accepted record. */
    method Enter(record: Record)
      requires Counted() && Recorded() && BuilderOk()
      requires record.bytes != [] && |record.bytes| <= g.maxPayload - RawSize(builder)
      modifies `builder, `builderMin, `builderMax, `accepted, `metrics, `undurable
      ensures Counted() && Recorded() && BuilderOk()
      ensures builder == old(builder) + [record] && accepted == old(accepted) + [record]
    {
      DividedMore(accepted, published, builder, record);
      Pack(record);
      accepted := accepted + [record];
      metrics := metrics.(accepted := metrics.accepted + 1);
      undurable := true;
    }

    /** The same, together with what the record demanded. */
    method Accept(record: Record, ghost expected: Option<Contract>)
      requires ValidGeometry(g) && Steady() && BuilderOk()
      requires record.bytes != [] && |record.bytes| <= g.maxPayload - RawSize(builder)
      requires expected.Some? ==> Meets(active.header.options, expected.value)
      modifies `builder, `builderMin, `builderMax, `accepted, `metrics, `undurable, `ties
      ensures Steady() && BuilderOk() && builder == old(builder) + [record] && accepted == old(accepted) + [record]
      ensures ties == Accepting(old(ties), expected)
    {
      BoundAccept(g, events, active.header.options, builder, published, ties, record, expected);
      Enter(record);
      ties := Accepting(ties, expected);
    }

    /** The record joins others in the builder; otherwise it begins a block of its own. */
    predicate Joins(record: Record)
      reads `builder
    {
      builder != [] && |record.bytes| <= g.maxPayload - RawSize(builder)
    }

    /** Emits a builder that cannot take the record whole. */
    method EmitIfFull(size: nat) returns (r: Result<()>)
      requires Valid() && Live() && !closed && size <= g.maxPayload
      modifies storage, `fault, `world, `events, `dirty, `metrics, `active, `builder, `published, `ties
      ensures Valid() && old(events) <= events && ties.contracts == old(ties).contracts
      ensures r.Ok? ==> Live() && size <= g.maxPayload - RawSize(builder) && active.header == old(active).header
      ensures size <= g.maxPayload - old(RawSize(builder)) ==>
                && r.Ok? && events == old(events) && builder == old(builder) && active == old(active)
                && published == old(published)
      ensures r.Ok? && size > g.maxPayload - old(RawSize(builder)) ==>
                builder == [] && Emitted()
      ensures r.Err? ==> r.error == IoError && fault == Some(r.error) && world.writer.None?
    {
      if size <= g.maxPayload - RawSize(builder) {
        return Ok(());
      }
      r := EmitLive();
    }

    /** Makes the builder able to take the record without splitting it, in a partition with room. */
    method Prepare(record: Record) returns (r: Result<()>)
      requires Valid() && Live() && !closed && |record.bytes| <= g.maxPayload
      modifies storage, `fault, `world, `events, `dirty, `undurable, `metrics, `active, `builder, `published, `ties
      ensures Valid() && old(events) <= events && ties.contracts == old(ties).contracts
      ensures r.Ok? ==> Live() && Room() && |record.bytes| <= g.maxPayload - RawSize(builder)
      ensures old(Joins(record)) ==>
                && r.Ok? && events == old(events) && active == old(active) && builder == old(builder)
                && published == old(published)
      ensures r.Ok? && !old(Joins(record)) ==>
                && builder == [] && Emitted()
                && MovedOn(old(active).header, active.header, next)
      ensures r.Err? ==> StorageError(r.error, old(active).header) && fault == Some(r.error) && world.writer.None?
    {
      r := EmitIfFull(|record.bytes|);
      if r.Ok? {
        r := EnsureEmptyBuilderCapacity();
      }
    }

    method AcceptIfMet(record: Record, expected: Option<Contract>) returns (r: Result<()>)
      requires Valid() && Live() && !closed && Room()
      requires record.bytes != [] && |record.bytes| <= g.maxPayload - RawSize(builder)
      modifies `builder, `builderMin, `builderMax, `accepted, `metrics, `undurable, `ties
      ensures Valid() && Live()
      ensures r.Ok? ==> accepted == old(accepted) + [record] && builder == old(builder) + [record]
      ensures r.Ok? ==> ties.contracts == old(ties).contracts + [expected]
      ensures r.Ok? && expected.Some? ==> Meets(active.header.options, expected.value)
      ensures r.Err? ==> r.error == InvalidArgument && accepted == old(accepted) && ties == old(ties)
      ensures r.Err? ==> builder == old(builder) && expected.Some? && !Meets(active.header.options, expected.value)
    {
      if expected.Some? && !Meets(active.header.options, expected.value) {
        return Err(InvalidArgument);
      }
      Accept(record, expected);
      return Ok(());
    }

    method AppendLive(record: Record, expected: Option<Contract>) returns (r: Result<()>)
      requires Valid() && Live() && !closed && record.bytes != [] && |record.bytes| <= g.maxPayload
      modifies storage, `fault, `world, `events, `dirty, `undurable, `metrics, `active, `builder, `builderMin,
               `builderMax, `published, `accepted, `ties
      ensures Valid() && old(events) <= events
      ensures r.Ok? ==> accepted == old(accepted) + [record] && fault.None?
      ensures r.Ok? ==> ties.contracts == old(ties).contracts + [expected]
      ensures r.Ok? && expected.Some? ==> Meets(active.header.options, expected.value)
      ensures old(Joins(record)) ==>
                && events == old(events) && active == old(active) && published == old(published)
                && builder == if r.Ok? then old(builder) + [record] else old(builder)
      ensures r.Ok? && !old(Joins(record)) ==>
                && builder == [record] && Emitted()
                && MovedOn(old(active).header, active.header, next)
      ensures r.Err? ==> accepted == old(accepted) && ties.contracts == old(ties).contracts
      ensures r.Err? ==> AppendError(r.error, fault, old(active).header, active.header, expected)
    {
      r := Prepare(record);
      if r.Ok? {
        r := AcceptIfMet(record, expected);
      }
    }

    /** What a store without a fault reports from here on goes back to calls from here on. */
    lemma BlamesLater(was: nat)
      requires Blamed() && since <= was && !FailedIn(storage.faults, since, was)
      ensures fault == Some(IoError) <==> FailedIn(storage.faults, was, storage.calls)
    {
      FailedLater(storage.faults, since, was, storage.calls);
    }

    /** Why a store that cannot write refuses; `None` when it can. */
    function Refusal(): Option<Error>
      reads `closed, `fault
    {
      if closed then Some(Closed) else fault
    }

    /**
      Accepts one whole record and what it demands of its partition.  The record waits in the builder, bound
      to the active header; a store that is closed or faulted, and a record that cannot be taken, change nothing.
     */
    method Append(record: Record, expected: Option<Contract>) returns (r: Result<()>)
      requires Valid()
      modifies storage, `fault, `world, `events, `dirty, `undurable, `metrics, `active, `builder, `builderMin,
               `builderMax, `published, `accepted, `ties
      ensures Valid() && old(events) <= events
      ensures r.Ok? ==> accepted == old(accepted) + [record]
      ensures r.Ok? ==> ties.contracts == old(ties).contracts + [expected]
      ensures r.Ok? && expected.Some? ==> Meets(active.header.options, expected.value)
      ensures r.Ok? && old(Joins(record)) ==>
                && builder == old(builder) + [record] && active == old(active)
                && published == old(published) && events == old(events)
      ensures r.Ok? && !old(Joins(record)) ==>
                && builder == [record] && Emitted()
                && MovedOn(old(active).header, active.header, next)
      ensures r.Err? ==> accepted == old(accepted) && ties.contracts == old(ties).contracts
      ensures r.Err? && old(Refusal()).None? && 0 < |record.bytes| <= g.maxPayload ==>
                AppendError(r.error, fault, old(active).header, active.header, expected)
      ensures old(closed) ==> r == Err(Closed) && events == old(events)
      ensures !old(closed) && old(fault).Some? ==> r == Err(old(fault).value) && events == old(events)
      ensures old(Refusal()).None? && record.bytes == [] ==> r == Err(InvalidArgument) && events == old(events)
      ensures old(Refusal()).None? && |record.bytes| > g.maxPayload ==> r == Err(OutOfRange) && events == old(events)
      ensures old(Refusal()).None? ==>
                (r == Err(IoError) <==> FailedIn(storage.faults, old(storage.calls), storage.calls))
    {
      if Refusal().Some? {
        return Err(Refusal().value);
      }
      if record.bytes == [] {
        return Err(InvalidArgument);
      }
      if |record.bytes| > g.maxPayload {
        return Err(OutOfRange);
      }
      ghost var was := storage.calls;
      r := AppendLive(record, expected);
      BlamesLater(was);
    }

    /** An append bound to a contract, none of whose parts may be left open. */
    method AppendChecked(record: Record, expected: Contract) returns (r: Result<()>)
      requires Valid()
      modifies storage, `fault, `world, `events, `dirty, `undurable, `metrics, `active, `builder, `builderMin,
               `builderMax, `published, `accepted, `ties
      ensures Valid() && old(events) <= events
      ensures r.Ok? ==> accepted == old(accepted) + [record]
      ensures r.Ok? ==> ties.contracts == old(ties).contracts + [Some(expected)]
      ensures r.Ok? ==>
                && active.header.options.formatId == expected.formatId != 0
                && active.header.options.formatVersion == expected.formatVersion != 0
                && active.header.options.timeDomain == expected.timeDomain != 0
      ensures r.Ok? && old(Joins(record)) ==>
                && builder == old(builder) + [record] && active == old(active)
                && published == old(published) && events == old(events)
      ensures r.Ok? && !old(Joins(record)) ==>
                && builder == [record] && Emitted()
                && MovedOn(old(active).header, active.header, next)
      ensures r.Err? ==> accepted == old(accepted) && ties.contracts == old(ties).contracts
      ensures r.Err? && Complete(expected) && old(Refusal()).None? && 0 < |record.bytes| <= g.maxPayload ==>
                AppendError(r.error, fault, old(active).header, active.header, Some(expected))
      ensures old(closed) && Complete(expected) ==> r == Err(Closed) && events == old(events)
      ensures !old(closed) && old(fault).Some? && Complete(expected) ==>
                r == Err(old(fault).value) && events == old(events)
      ensures expected.formatId == 0 || expected.formatVersion == 0 || expected.timeDomain == 0 ==>
                r == Err(InvalidArgument) && events == old(events)
      ensures old(Refusal()).None? ==>
                (r == Err(IoError) <==> FailedIn(storage.faults, old(storage.calls), storage.calls))
    {
      if !Complete(expected) {
        return Err(InvalidArgument);
      }
      r := Append(record, Some(expected));
    }

    // ----------------------------------------------------------- durability

    /** Emits the builder into the partition that is active, and no other. */
    method Publish() returns (r: Result<()>)
      requires Valid()
      modifies storage, `fault, `world, `events, `active, `metrics, `dirty, `builder, `published, `ties
      ensures Valid() && old(events) <= events && active.header == old(active).header
      ensures ties.contracts == old(ties).contracts
      ensures r.Ok? ==> builder == [] && Emitted()
      ensures r.Err? && old(Refusal()).None? ==> r.error == IoError
      ensures old(closed) ==> r == Err(Closed) && events == old(events)
      ensures !old(closed) && old(fault).Some? ==> r == Err(old(fault).value) && events == old(events)
      ensures old(Refusal()).None? ==>
                (r == Err(IoError) <==> FailedIn(storage.faults, old(storage.calls), storage.calls))
    {
      if Refusal().Some? {
        return Err(Refusal().value);
      }
      ghost var was := storage.calls;
      r := EmitLive();
      BlamesLater(was);
    }

    /** Everything accepted so far is in frames, and every one of those frames is promised. */
    ghost predicate Durable()
      reads `world, `builder, `accepted, `published, `metrics
    {
      && builder == [] && accepted == RecordsOf(published) && AllPromised(world, published)
      && metrics.durable == metrics.accepted
    }

    method FlushPromised() returns (r: Result<()>)
      requires Valid() && Live() && !closed && builder == []
      modifies storage, `fault, `world, `events, `metrics, `dirty, `undurable
      ensures Valid() && old(events) <= events
      ensures r.Ok? ==> Live() && !dirty && Durable()
      ensures r.Err? ==> r.error == IoError && fault == Some(IoError)
    {
      ghost var was := events;
      r := FlushData();
      Retie(was, active.header.options);
      if r.Ok? {
        DividedMeans(accepted, published, builder);
        CleanPromised(world, published);
      }
    }

    /** Emits and flushes; the flush is skipped only when nothing needs it. */
    method CheckpointLive() returns (r: Result<()>)
      requires Valid() && Live() && !closed
      modifies storage, `fault, `world, `events, `active, `metrics, `dirty, `builder, `published, `undurable, `ties
      ensures Valid() && old(events) <= events && active.header == old(active).header
      ensures ties.contracts == old(ties).contracts
      ensures r.Ok? ==> Live() && !dirty && Durable()
      ensures r.Ok? ==> Emitted()
      ensures r.Err? ==> r.error == IoError && fault == Some(IoError)
    {
      r := EmitLive();
      if r.Ok? {
        r := FlushPromised();
      }
    }

    /** Ok means that everything accepted so far survives any crash from here on. */
    method Checkpoint() returns (r: Result<()>)
      requires Valid()
      modifies storage, `fault, `world, `events, `active, `metrics, `dirty, `builder, `published, `undurable, `ties
      ensures Valid() && old(events) <= events && active.header == old(active).header
      ensures ties.contracts == old(ties).contracts
      ensures r.Ok? ==> Live() && Durable()
      ensures r.Ok? ==> Emitted()
      ensures old(closed) ==> r == Err(Closed) && events == old(events)
      ensures !old(closed) && old(fault).Some? ==> r == Err(old(fault).value) && events == old(events)
      ensures r.Err? && old(Refusal()).None? ==> r.error == IoError && fault == Some(IoError)
      ensures old(Refusal()).None? ==>
                (r == Err(IoError) <==> FailedIn(storage.faults, old(storage.calls), storage.calls))
    {
      if Refusal().Some? {
        return Err(Refusal().value);
      }
      ghost var was := storage.calls;
      r := CheckpointLive();
      BlamesLater(was);
    }

    /** Ends this incarnation; nothing it made durable is touched. */
    method Retire()
      requires Valid() && Live() && !closed && !dirty && Durable()
      modifies `world, `events, `closed
      ensures Valid() && closed && Durable() && events == old(events) + [Abandon]
    {
      ghost var was := events;
      Record(Abandon);
      Retie(was, active.header.options);
      closed := true;
    }

    /** Checkpoints and ends this incarnation; closing twice is harmless, and a faulted store issues nothing. */
    method Close() returns (r: Result<()>)
      requires Valid()
      modifies storage, `fault, `world, `events, `active, `metrics, `dirty, `builder, `published, `undurable, `ties,
               `closed
      ensures Valid() && old(events) <= events && active.header == old(active).header
      ensures ties.contracts == old(ties).contracts
      ensures old(closed) ==> r == Ok(()) && events == old(events)
      ensures !old(closed) && old(fault).Some? ==> r == Err(old(fault).value) && events == old(events)
      ensures r.Ok? && !old(closed) ==> closed && Durable()
      ensures r.Ok? && !old(closed) ==> Emitted()
      ensures r.Err? ==> !closed
      ensures r.Err? && old(fault).None? ==> r.error == IoError && fault == Some(IoError)
      ensures old(Refusal()).None? ==>
                (r == Err(IoError) <==> FailedIn(storage.faults, old(storage.calls), storage.calls))
    {
      if closed {
        return Ok(());
      }
      if fault.Some? {
        return Err(fault.value);
      }
      ghost var was := storage.calls;
      r := CheckpointLive();
      BlamesLater(was);
      if r.Ok? {
        Retire();
      }
    }

    method AdvanceTo(options: PartitionOptions) returns (r: Result<()>)
      requires Valid() && Live() && !closed && builder == [] && ValidOptions(options)
      modifies storage, `fault, `world, `events, `active, `metrics, `dirty, `undurable, `next
      ensures Valid() && old(events) <= events
      ensures r.Ok? ==> fault.None? && active.header.options == options && next == options
      ensures r.Ok? ==> active.header.generation == old(active).header.generation + 1
      ensures r.Err? ==> StorageError(r.error, old(active).header) && fault == Some(r.error)
    {
      next := options;
      r := RotateTied(options);
    }

    method RotateLive(options: PartitionOptions) returns (r: Result<()>)
      requires Valid() && Live() && !closed && ValidOptions(options)
      modifies storage, `fault, `world, `events, `active, `metrics, `dirty, `builder, `published, `undurable, `ties,
               `next
      ensures Valid() && old(events) <= events && ties.contracts == old(ties).contracts
      ensures r.Ok? ==> fault.None? && builder == [] && active.header.options == options && next == options
      ensures r.Ok? ==> Emitted()
      ensures r.Ok? ==> active.header.generation == old(active).header.generation + 1
      ensures r.Err? ==> StorageError(r.error, old(active).header) && fault == Some(r.error)
    {
      r := EmitLive();
      if r.Ok? {
        r := AdvanceTo(options);
      }
    }

    /** Emits the builder into the current partition, ends it, and begins one with the given options. */
    method Rotate(options: PartitionOptions) returns (r: Result<()>)
      requires Valid()
      modifies storage, `fault, `world, `events, `active, `metrics, `dirty, `builder, `published, `undurable, `ties,
               `next
      ensures Valid() && old(events) <= events && ties.contracts == old(ties).contracts
      ensures r.Ok? ==> builder == [] && active.header.options == options && next == options
      ensures r.Ok? ==> Emitted()
      ensures r.Ok? ==> active.header.generation == old(active).header.generation + 1
      ensures old(closed) ==> r == Err(Closed) && events == old(events)
      ensures !old(closed) && old(fault).Some? ==> r == Err(old(fault).value) && events == old(events)
      ensures old(Refusal()).None? && !ValidOptions(options) ==> r == Err(InvalidArgument) && events == old(events)
      ensures r.Err? && old(Refusal()).None? && ValidOptions(options) ==>
                StorageError(r.error, old(active).header) && fault == Some(r.error)
      ensures old(Refusal()).None? ==>
                (r == Err(IoError) <==> FailedIn(storage.faults, old(storage.calls), storage.calls))
    {
      if Refusal().Some? {
        return Err(Refusal().value);
      }
      if !ValidOptions(options) {
        return Err(InvalidArgument);
      }
      ghost var was := storage.calls;
      r := RotateLive(options);
      BlamesLater(was);
    }

    method SetNextPartitionOptions(options: PartitionOptions) returns (r: Result<()>)
      requires Valid()
      modifies `next
      ensures Valid()
      ensures r.Ok? <==>
                && !closed && fault.None?
                && options.timeDomain != 0 && (options.formatId == 0 <==> options.formatVersion == 0)
      ensures next == if r.Ok? then options else old(next)
    {
      if Refusal().Some? {
        return Err(Refusal().value);
      }
      if !ValidOptions(options) {
        return Err(InvalidArgument);
      }
      next := options;
      return Ok(());
    }
  }

  // ------------------------------------------------------- what a store promises

  /** There is room exactly when the largest block, aligned, fits before the index and one more entry fits in it. */
  lemma {:induction false} RoomExactly(store: Store)
    requires store.g.quantum > 0
    ensures store.Room() <==>
              && store.active.dataEnd + AlignUp(128 + store.g.maxPayload, store.g.quantum) <= store.g.indexBegin
              && |store.active.index| < store.g.indexCapacity
  {
  }

  /**
    Where a published record is: in a frame emitted under a header that meets what the record demanded.
    That header stays the header of the frame's generation, over any continuation of the run and any
    crash, until a header write for the slot's next generation is issued.
   */
  lemma {:induction false} PublishedRecordLands(store: Store, i: nat, es: seq<Event>, after: Image)
    returns (f: Frame, h: Header)
    requires store.Valid() && store.events <= es && Legal(store.g, es)
    requires CrashImage(Reach(store.g, es).durable, Reach(store.g, es).dirty, after)
    requires i < |RecordsOf(store.published)|
    ensures i < |store.accepted| == |store.ties.contracts|
    ensures f in store.published && store.accepted[i] in f.records && h.generation == f.generation > 0
    ensures store.ties.contracts[i].Some? ==> Meets(h.options, store.ties.contracts[i].value)
    ensures Reach(store.g, es).begun < f.generation + store.g.partitions ==>
              HeaderOn(store.g, after, f.generation) == HeaderCell(h)
  {
    var g, published, t := store.g, store.published, store.ties;
    DividedMeans(store.accepted, published, store.builder);
    BoundMeans(g, store.events, store.active.header.options, store.builder, published, t);
    FlatLength(g, store.events, published, t.bindings);
    var k := FrameHolding(g, store.events, published, t.bindings, i);
    f, h := published[k], t.bindings[k].header;
    assert BindingOk(g, store.events, f, t.bindings[k]);
    assert es[..t.bindings[k].at] == store.events[..t.bindings[k].at];
    if Reach(g, es).begun < f.generation + g.partitions {
      HeaderSurvives(g, es, t.bindings[k].at, f.generation, h, after);
    }
  }

  /** A record that still waits in the builder is bound to the active header, which is in force. */
  lemma {:induction false} WaitingRecordBound(store: Store, i: nat)
    requires store.Valid() && |RecordsOf(store.published)| <= i < |store.accepted|
    ensures |store.accepted| == |store.ties.contracts|
    ensures store.accepted[i] in store.builder
    ensures store.ties.contracts[i].Some? ==> Meets(store.active.header.options, store.ties.contracts[i].value)
    ensures !store.closed && store.fault.None? ==>
              Get(store.storage.volatile, HeaderAt(store.active.header.slot)) == HeaderCell(store.active.header)
  {
    var g, published, t := store.g, store.published, store.ties;
    DividedMeans(store.accepted, published, store.builder);
    BoundMeans(g, store.events, store.active.header.options, store.builder, published, t);
    FlatLength(g, store.events, published, t.bindings);
    var n := |RecordsOf(published)|;
    assert store.accepted[i] == store.builder[i - n];
    assert t.contracts[i] == t.pending[i - n];
  }

  /**
    What a checkpoint or a close that returned Ok means: every record accepted before it is returned by a
    lazy reopen after any continuation of the run and any crash, under a header that meets what the record
    demanded, unless a header write for the next generation of its slot was issued.
   */
  lemma {:induction false} CheckpointedRecordSurvives(store: Store, i: nat, es: seq<Event>, after: Image)
    returns (f: Frame, h: Header)
    requires store.Valid() && store.Durable() && store.events <= es && Legal(store.g, es)
    requires CrashImage(Reach(store.g, es).durable, Reach(store.g, es).dirty, after)
    requires i < |store.accepted|
    ensures |store.accepted| == |store.ties.contracts|
    ensures f in store.published && store.accepted[i] in f.records && h.generation == f.generation > 0
    ensures store.ties.contracts[i].Some? ==> Meets(h.options, store.ties.contracts[i].value)
    ensures Reach(store.g, es).begun < f.generation + store.g.partitions ==>
              HeaderOn(store.g, after, f.generation) == HeaderCell(h) && f in Retrieved(store.g, after, h)
  {
    f, h := PublishedRecordLands(store, i, es, after);
    if Reach(store.g, es).begun < f.generation + store.g.partitions {
      TracksMeans(store.g, store.events, store.world);
      assert es[..|store.events|] == store.events;
      PromisedFrameSurvives(store.g, es, |store.events|, f, after);
    }
  }
}
