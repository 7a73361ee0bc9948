/** Opening a store: the cursor loops that rebuild its state from the media alone. */
module Opening {
  import opened Bytes
  import opened Media
  import opened Recovery
  import opened Protocol
  import opened CrashSafety
  import opened Bindings
  import opened Storage
  import opened RingStore

  lemma {:induction false} ScanStep(g: Geometry, image: Image, h: Header, limit: nat, found: seq<Frame>, f: Frame)
    requires g.quantum > 0 && NextFrame(g, image, h, limit, found) == Some(f)
    ensures Scan(g, image, h, limit, found) == Scan(g, image, h, limit, found + [f])
    ensures EntriesOf(found + [f]) == EntriesOf(found) + [EntryOf(f, DataEnd(found))]
    ensures DataEnd(found + [f]) == DataEnd(found) + f.span && WritersOf(found + [f]) == WritersOf(found) + [f.writer]
  {
    EntriesSnoc(found, f);
    TotalSpanSnoc(found, f);
  }

  /**
    Walks the data region from its start, frame by frame, and stops at the first one that does not
    continue the chain.
   */
  method ScanPartition(g: Geometry, image: Image, h: Header, limit: nat)
    returns (index: seq<Entry>, dataEnd: nat, writers: seq<nat>, corrupt: bool)
    requires ValidGeometry(g)
    ensures index == EntriesOf(Scan(g, image, h, limit, []))
    ensures dataEnd == DataEnd(Scan(g, image, h, limit, []))
    ensures writers == WritersOf(Scan(g, image, h, limit, []))
    ensures corrupt <==> dataEnd + BLOCK_HEADER <= limit
  {
    index, dataEnd, writers, corrupt := [], REGION, [], false;
    ghost var found: seq<Frame> := [];
    while dataEnd + BLOCK_HEADER <= limit
      invariant Scan(g, image, h, limit, []) == Scan(g, image, h, limit, found)
      invariant index == EntriesOf(found) && dataEnd == DataEnd(found) && writers == WritersOf(found)
      decreases if dataEnd <= limit then limit - dataEnd else 0
    {
      var cell := Get(image, FrameAt(h.slot, dataEnd));
      if !cell.FrameCell? {
        corrupt := true;
        return;
      }
      var f := cell.frame;
      if !Admits(g, h, limit, dataEnd, |index|, LastOf(writers), f) {
        corrupt := true;
        return;
      }
      ScanStep(g, image, h, limit, found, f);
      index := index + [EntryOf(f, dataEnd)];
      writers := writers + [f.writer];
      dataEnd := dataEnd + f.span;
      found := found + [f];
    }
  }

  /** Reads the index a footer vouches for and checks it entry by entry. */
  method LoadIndexRegion(g: Geometry, image: Image, ft: Footer) returns (r: Result<seq<Entry>>)
    requires g.quantum > 0
    ensures r == LoadIndex(g, image, ft)
  {
    if ft.blockCount == 0 {
      return Ok([]);
    }
    var cell := Get(image, IndexAt(ft.slot));
    if !cell.IndexCell? || cell.entries != ft.index || |cell.entries| != ft.blockCount {
      return Err(Corrupt);
    }
    var es, offset: nat := cell.entries, REGION;
    for i := 0 to |es|
      invariant IndexValid(g, es, 0, REGION, ft.dataEnd) <==> IndexValid(g, es, i, offset, ft.dataEnd)
    {
      if !EntryValid(g, es[i], i, offset) {
        return Err(Corrupt);
      }
      offset := offset + es[i].span;
    }
    return if offset != ft.dataEnd then Err(Corrupt) else Ok(es);
  }

  /** A damaged header in a slot that demonstrably belonged to this volume. */
  predicate Ambiguous(image: Image, recognizable: nat -> bool, s: nat) {
    && Get(image, HeaderAt(s)).Torn?
    && (recognizable(s) || Get(image, FooterAt(s)).FooterCell? || Get(image, FrameAt(s, REGION)).FrameCell?)
  }

  /**
    Some torn header leaves open which generation is the newest: it still shows the magic and the volume's
    identity, or a footer or a first block of this volume is found behind it.
   */
  predicate AmbiguousVolume(g: Geometry, image: Image, recognizable: nat -> bool) {
    exists s :: 0 <= s < g.partitions && Get(image, HeaderAt(s)) == Torn &&
      (recognizable(s) || Get(image, FooterAt(s)).FooterCell? || Get(image, FrameAt(s, 4096)).FrameCell?)
  }

  lemma {:induction false} AmbiguousExactly(g: Geometry, image: Image, recognizable: nat -> bool)
    ensures AmbiguousVolume(g, image, recognizable) <==>
              exists s :: 0 <= s < g.partitions && Ambiguous(image, recognizable, s)
  {
    if AmbiguousVolume(g, image, recognizable) {
      var s :| 0 <= s < g.partitions && Get(image, HeaderAt(s)) == Torn &&
        (recognizable(s) || Get(image, FooterAt(s)).FooterCell? || Get(image, FrameAt(s, 4096)).FrameCell?);
      assert Ambiguous(image, recognizable, s);
    }
    if s :| 0 <= s < g.partitions && Ambiguous(image, recognizable, s) {
      assert Get(image, HeaderAt(s)) == Torn;
    }
  }

  /** The header with the greatest generation, and whether some damaged header makes the order ambiguous. */
  method FindNewest(g: Geometry, image: Image, recognizable: nat -> bool)
    returns (newest: Option<Header>, ambiguous: bool)
    requires forall s: nat :: Get(image, HeaderAt(s)).HeaderCell? ==> Get(image, HeaderAt(s)).header.slot == s
    ensures newest.Some? ==>
              newest.value.slot < g.partitions && Get(image, HeaderAt(newest.value.slot)) == HeaderCell(newest.value)
    ensures forall s :: 0 <= s < g.partitions && Get(image, HeaderAt(s)).HeaderCell? ==>
              newest.Some? && Get(image, HeaderAt(s)).header.generation <= newest.value.generation
    ensures ambiguous <==> AmbiguousVolume(g, image, recognizable)
  {
    AmbiguousExactly(g, image, recognizable);
    newest, ambiguous := None, false;
    for slot := 0 to g.partitions
      invariant newest.Some? ==>
                  newest.value.slot < slot && Get(image, HeaderAt(newest.value.slot)) == HeaderCell(newest.value)
      invariant forall s :: 0 <= s < slot && Get(image, HeaderAt(s)).HeaderCell? ==>
                  newest.Some? && Get(image, HeaderAt(s)).header.generation <= newest.value.generation
      invariant ambiguous <==> exists s :: 0 <= s < slot && Ambiguous(image, recognizable, s)
    {
      var cell := Get(image, HeaderAt(slot));
      if cell.HeaderCell? && (newest.None? || newest.value.generation < cell.header.generation) {
        newest := Some(cell.header);
      }
      if Ambiguous(image, recognizable, slot) {
        ambiguous := true;
      }
    }
  }

  /** On media the protocol left behind, the greatest generation found is the newest one there is. */
  lemma {:induction false} NewestFound(g: Geometry, w: World, newest: Option<Header>)
    requires ValidGeometry(g) && w.top <= w.begun <= w.top + 1 && HeadersOk(g, w.top, w.begun, w.durable)
    requires newest.Some? ==> Get(w.durable, HeaderAt(newest.value.slot)) == HeaderCell(newest.value)
    requires forall s :: 0 <= s < g.partitions && Get(w.durable, HeaderAt(s)).HeaderCell? ==>
               newest.Some? && Get(w.durable, HeaderAt(s)).header.generation <= newest.value.generation
    ensures newest.None? <==> NewestOnMedia(g, w) == 0
    ensures newest.Some? ==> newest.value == RecoveredHeader(g, w) && newest.value.generation == NewestOnMedia(g, w)
    ensures newest.Some? ==> newest.value.slot == SlotOf(g, NewestOnMedia(g, w))
  {
    var t := NewestOnMedia(g, w);
    if t > 0 {
      assert IsHeader(g, Get(w.durable, HeaderAt(SlotOf(g, t))), t);
    }
    if newest.Some? {
      assert HeaderPlaceOk(g, w.top, w.begun, newest.value.slot, Get(w.durable, HeaderAt(newest.value.slot)));
    }
  }

  /** The media a store may be opened on: the end of some run, with nothing unflushed and no writer alive. */
  ghost predicate Openable(g: Geometry, storage: MemoryStorage, id: nat, es: seq<Event>)
    requires ValidGeometry(g)
    reads storage
  {
    var w := Reach(g, es);
    && Legal(g, es) && Enabled(g, w, Open(id))
    && storage.volatile == w.volatile && storage.durable == w.durable && storage.dirty == w.dirty
  }

  /** What opening recovers when it succeeds, and the event it adds to the run. */
  lemma {:induction false} OpenFacts(g: Geometry, es: seq<Event>, id: nat, newest: Option<Header>)
    requires ValidGeometry(g) && Legal(g, es) && Enabled(g, Reach(g, es), Open(id))
    requires newest.Some? ==> newest.value == RecoveredHeader(g, Reach(g, es)) && newest.value.generation > 0
    requires newest.None? ==> NewestOnMedia(g, Reach(g, es)) == 0
    requires newest.Some? ==> newest.value.generation == NewestOnMedia(g, Reach(g, es))
    ensures Tracks(g, es + [Open(id)], Next(g, Reach(g, es), Open(id)))
    ensures var w, w' := Reach(g, es), Next(g, Reach(g, es), Open(id));
            && w'.top == NewestOnMedia(g, w) && w'.dirty == [] && w'.volatile == w'.durable == w.durable
            && w'.writer == Some(RecoveredWriter(g, w, id))
            && Promised(w'.promised, w'.top) == w'.writer.value.frames
    ensures newest.None? ==> RecoveredWriter(g, Reach(g, es), id) == Writer(id, [], Sealed)
  {
    TracksMeans(g, es, Reach(g, es));
    TracksStep(g, es, Reach(g, es), Open(id));
  }

  /** A store that has accepted nothing yet. */
  lemma {:induction false} NothingAccepted(g: Geometry, es: seq<Event>, options: PartitionOptions)
    requires ValidGeometry(g)
    ensures Bound(g, es, options, [], [], Ties([], [], [])) && Divided([], [], []) && Packed(g, [], 0, 0)
  {
  }

  /** Continues the newest partition when it is unsealed. */
  method Resume(g: Geometry, storage: MemoryStorage, id: nat, codec: seq<Record> -> nat, next: PartitionOptions,
                h: Header, ghost es: seq<Event>) returns (store: Store)
    requires ValidGeometry(g) && WorstSpan(g) <= UINT32_MAX && ValidOptions(next) && Openable(g, storage, id, es)
    requires h == RecoveredHeader(g, Reach(g, es)) && h.generation == NewestOnMedia(g, Reach(g, es)) > 0
    requires h.slot == SlotOf(g, h.generation) && ReadFooter(g, storage.durable, h).None?
    requires Get(storage.durable, HeaderAt(h.slot)) == HeaderCell(h)
    ensures fresh(store) && store.Valid() && store.storage == storage && store.next == next
    ensures store.events == store.origin == es + [Open(id)] && store.since == storage.calls
    ensures var found := Scan(g, storage.durable, h, g.indexBegin, []);
            store.active == Partition(h, false, EntriesOf(found), WritersOf(found), DataEnd(found))
    ensures store.accepted == [] && !store.closed && store.fault.None?
  {
    OpenFacts(g, es, id, Some(h));
    var index, dataEnd, writers, corrupt := ScanPartition(g, storage.durable, h, g.indexBegin);
    NothingAccepted(g, es + [Open(id)], h.options);
    store := new Store.Recovered(storage, g, id, codec, Partition(h, false, index, writers, dataEnd), next,
                                 es + [Open(id)], Next(g, Reach(g, es), Open(id)));
    DescribesMeans(store.active, store.world.writer.value.frames);
  }

  /** The store object between two partitions, and where the next one goes. */
  method Recover(g: Geometry, storage: MemoryStorage, id: nat, codec: seq<Record> -> nat, next: PartitionOptions,
                 newest: Option<Header>, ghost es: seq<Event>) returns (store: Store, slot: nat, generation: nat)
    requires ValidGeometry(g) && WorstSpan(g) <= UINT32_MAX && Openable(g, storage, id, es)
    requires newest.None? ==> NewestOnMedia(g, Reach(g, es)) == 0
    requires newest.Some? ==>
               && newest.value == RecoveredHeader(g, Reach(g, es))
               && newest.value.generation == NewestOnMedia(g, Reach(g, es)) > 0
               && newest.value.slot == SlotOf(g, newest.value.generation)
               && ReadFooter(g, storage.durable, newest.value).Some?
    ensures fresh(store) && store.Between() && store.Steady() && store.BuilderOk()
    ensures store.storage == storage && store.g == g && store.next == next
    ensures store.events == store.origin == es + [Open(id)] && store.accepted == [] && store.builder == []
    ensures !store.closed && store.since == storage.calls
    ensures generation == store.world.top + 1 && slot == SlotOf(g, generation)
    ensures generation == NewestOnMedia(g, Reach(g, es)) + 1
  {
    OpenFacts(g, es, id, newest);
    generation := if newest.None? then 1 else newest.value.generation + 1;
    slot := if newest.None? then 0 else (newest.value.slot + 1) % g.partitions;
    if newest.Some? {
      NextSlot(g, newest.value.generation);
    }
    var placeholder := Partition(Header(0, 0, next), true, [], [], REGION);
    NothingAccepted(g, es + [Open(id)], next);
    store := new Store.Recovered(storage, g, id, codec, placeholder, next,
                                 es + [Open(id)], Next(g, Reach(g, es), Open(id)));
  }

  method Start(store: Store, slot: nat, generation: nat) returns (r: Result<()>)
    requires store.Between() && store.Steady() && store.BuilderOk() && store.builder == []
    requires !store.closed && ValidOptions(store.next)
    requires generation == store.world.top + 1 && slot == SlotOf(store.g, generation)
    modifies store.storage, store`fault, store`world, store`events, store`dirty, store`undurable, store`metrics,
             store`active
    ensures r.Ok? ==> store.Valid() && store.fault.None? && old(store.events) <= store.events
    ensures r.Ok? ==> store.active == Partition(Header(generation, slot, store.next), false, [], [], REGION)
    ensures r.Err? ==> r.error == IoError && store.Agrees() && store.fault == Some(IoError)
  {
    ghost var was, bound := store.events, store.active.header.options;
    r := store.CreatePartition(slot, generation, store.next);
    store.Retie(was, bound);
  }

  /** Begins the generation after a sealed one, or the very first. */
  method Begin(g: Geometry, storage: MemoryStorage, id: nat, codec: seq<Record> -> nat, next: PartitionOptions,
               newest: Option<Header>, ghost es: seq<Event>) returns (r: Result<Store>)
    requires ValidGeometry(g) && WorstSpan(g) <= UINT32_MAX && ValidOptions(next) && Openable(g, storage, id, es)
    requires newest.None? ==> NewestOnMedia(g, Reach(g, es)) == 0
    requires newest.Some? ==>
               && newest.value == RecoveredHeader(g, Reach(g, es))
               && newest.value.generation == NewestOnMedia(g, Reach(g, es)) > 0
               && newest.value.slot == SlotOf(g, newest.value.generation)
               && ReadFooter(g, storage.durable, newest.value).Some?
    modifies storage
    ensures r.Ok? ==>
              && fresh(r.value) && r.value.Valid() && r.value.storage == storage && r.value.next == next
              && r.value.origin == es + [Open(id)] && r.value.origin <= r.value.events
              && r.value.accepted == [] && !r.value.closed && r.value.fault.None?
    ensures r.Ok? ==>
              var n := NewestOnMedia(g, Reach(g, es)) + 1;
              r.value.active == Partition(Header(n, SlotOf(g, n), next), false, [], [], REGION)
    ensures r.Err? ==> r.error == IoError
    ensures r.Ok? ==> r.value.since == old(storage.calls)
    ensures r.Err? <==> FailedIn(storage.faults, old(storage.calls), storage.calls)
  {
    var store, slot, generation := Recover(g, storage, id, codec, next, newest, es);
    var created := Start(store, slot, generation);
    r := if created.Ok? then Ok(store) else Err(created.error);
  }

  /** The newest generation on the media was not sealed. */
  predicate Unfinished(g: Geometry, w: World)
    requires ValidGeometry(g)
  {
    NewestOnMedia(g, w) > 0 && ReadFooter(g, w.durable, RecoveredHeader(g, w)).None?
  }

  /**
    Opens a writable store.  It refuses options that are not valid, volumes whose order is ambiguous, and
    exhausted generations, each exactly then.  Otherwise it resumes the newest partition with everything a
    scan finds in it, or begins the one after it; beginning one may fail on the media.
   */
  method OpenWritable(g: Geometry, storage: MemoryStorage, id: nat, codec: seq<Record> -> nat, next: PartitionOptions,
                      recognizable: nat -> bool, ghost es: seq<Event>) returns (r: Result<Store>)
    requires ValidGeometry(g) && WorstSpan(g) <= UINT32_MAX && Openable(g, storage, id, es)
    modifies storage
    ensures r == Err(InvalidArgument) <==> !ValidOptions(next)
    ensures r == Err(Corrupt) <==> ValidOptions(next) && AmbiguousVolume(g, old(storage.durable), recognizable)
    ensures r == Err(GenerationExhausted) <==>
              && ValidOptions(next) && !AmbiguousVolume(g, old(storage.durable), recognizable)
              && !Unfinished(g, Reach(g, es)) && NewestOnMedia(g, Reach(g, es)) == UINT64_MAX
    ensures r.Err? ==> r.error in {InvalidArgument, Corrupt, GenerationExhausted, IoError}
    ensures r == Err(IoError) <==> FailedIn(storage.faults, old(storage.calls), storage.calls)
    ensures r == Err(IoError) ==> !Unfinished(g, Reach(g, es))
    ensures r.Ok? ==>
              && fresh(r.value) && r.value.Valid() && r.value.storage == storage && r.value.next == next
              && r.value.origin == es + [Open(id)] && r.value.origin <= r.value.events
              && r.value.accepted == [] && !r.value.closed && r.value.fault.None?
              && r.value.since == old(storage.calls)
    ensures r.Ok? && AllSmooth(g, es) ==> AllSmooth(g, r.value.origin)
    ensures r.Ok? && Unfinished(g, Reach(g, es)) ==>
              var h := RecoveredHeader(g, Reach(g, es));
              var found := Scan(g, Reach(g, es).durable, h, g.indexBegin, []);
              r.value.active == Partition(h, false, EntriesOf(found), WritersOf(found), DataEnd(found))
    ensures r.Ok? && !Unfinished(g, Reach(g, es)) ==>
              var n := NewestOnMedia(g, Reach(g, es)) + 1;
              r.value.active == Partition(Header(n, SlotOf(g, n), next), false, [], [], REGION)
  {
    if !ValidOptions(next) {
      return Err(InvalidArgument);
    }
    ghost var w := Reach(g, es);
    if AllSmooth(g, es) {
      SmoothSnoc(g, es, Open(id));
    }
    ReachInv(g, es);
    assert forall s: nat :: HeaderPlaceOk(g, w.top, w.begun, s, Get(w.durable, HeaderAt(s)));
    var newest, ambiguous := FindNewest(g, storage.durable, recognizable);
    if ambiguous {
      return Err(Corrupt);
    }
    NewestFound(g, w, newest);
    if newest.Some? && ReadFooter(g, storage.durable, newest.value).None? {
      var store := Resume(g, storage, id, codec, next, newest.value, es);
      return Ok(store);
    }
    if newest.Some? && newest.value.generation == UINT64_MAX {
      return Err(GenerationExhausted);
    }
    r := Begin(g, storage, id, codec, next, newest, es);
  }
}
