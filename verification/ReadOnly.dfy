/**
  Opening a volume for reading: the loop over the slots that builds the catalog, and what it amounts to on
  media that any run and any crash left behind.
 */
module ReadOnly {
  import opened Bytes
  import opened Media
  import opened Recovery
  import opened Protocol
  import opened ProtocolSteps
  import opened CrashSafety
  import opened Opening
  import opened ReaderRace

  // ------------------------------------------------------------------- the loop

  /** The slot holds a partition header that decodes and is its own. */
  predicate Readable(image: Image, slot: nat) {
    Get(image, HeaderAt(slot)).HeaderCell? && Get(image, HeaderAt(slot)).header.slot == slot
  }

  /** The generation a readable slot holds. */
  function GenerationAt(image: Image, slot: nat): nat
    requires Readable(image, slot)
  {
    Get(image, HeaderAt(slot)).header.generation
  }

  /** The catalog entry of a partition: its footer when it has one, otherwise the index a scan rebuilds. */
  function EntryRead(g: Geometry, image: Image, h: Header): Snapshot
    requires g.quantum > 0
  {
    match ReadFooter(g, image, h)
    case Some(ft) => Snapshot(h, true, ft, [], [])
    case None =>
      var found := Scan(g, image, h, g.indexBegin, []);
      Snapshot(h, false, Footer(0, 0, 0, 0, []), EntriesOf(found), WritersOf(found))
  }

  /** Headers that cannot all belong to one volume: generation zero, or one generation twice. */
  ghost predicate Contradictory(image: Image, slots: nat) {
    || (exists s: nat :: s < slots && Readable(image, s) && GenerationAt(image, s) == 0)
    || (exists s: nat, s': nat :: s < s' < slots && Readable(image, s) && Readable(image, s') &&
          GenerationAt(image, s) == GenerationAt(image, s'))
  }

  ghost predicate Ascending(ps: seq<Snapshot>) {
    forall i, j :: 0 <= i < j < |ps| ==> ps[i].header.generation < ps[j].header.generation
  }

  /** The entries of exactly the readable slots below `slots`, oldest generation first. */
  ghost predicate IsCatalog(g: Geometry, image: Image, slots: nat, ps: seq<Snapshot>)
    requires g.quantum > 0
  {
    && Ascending(ps)
    && (forall i :: 0 <= i < |ps| ==>
          && ps[i].header.slot < slots && Get(image, HeaderAt(ps[i].header.slot)) == HeaderCell(ps[i].header)
          && ps[i] == EntryRead(g, image, ps[i].header))
    && (forall s: nat {:trigger Readable(image, s)} :: s < slots && Readable(image, s) ==>
          exists i :: 0 <= i < |ps| && ps[i].header.slot == s)
  }

  /** Where an entry belongs: behind everything older. */
  method PlaceOf(ps: seq<Snapshot>, generation: nat) returns (k: nat)
    requires Ascending(ps)
    ensures k <= |ps|
    ensures forall i :: 0 <= i < k ==> ps[i].header.generation < generation
    ensures forall i :: k <= i < |ps| ==> ps[i].header.generation >= generation
  {
    k := |ps|;
    while k > 0 && ps[k - 1].header.generation >= generation
      invariant k <= |ps|
      invariant forall i :: k <= i < |ps| ==> ps[i].header.generation >= generation
    {
      k := k - 1;
    }
  }

  function Inserted(ps: seq<Snapshot>, p: Snapshot, k: nat): (more: seq<Snapshot>)
    requires k <= |ps|
    ensures |more| == |ps| + 1
    ensures forall i :: 0 <= i < |more| ==> more[i] == if i < k then ps[i] else if i == k then p else ps[i - 1]
  {
    ps[..k] + [p] + ps[k..]
  }

  lemma {:induction false} InsertedAscends(ps: seq<Snapshot>, p: Snapshot, k: nat)
    requires Ascending(ps) && k <= |ps|
    requires forall i :: 0 <= i < k ==> ps[i].header.generation < p.header.generation
    requires forall i :: k <= i < |ps| ==> ps[i].header.generation > p.header.generation
    ensures Ascending(Inserted(ps, p, k))
  {
  }

  lemma {:induction false} InsertedLists(slot: nat, ps: seq<Snapshot>, p: Snapshot, k: nat, s: nat)
    requires k <= |ps| && s <= slot && p.header.slot == slot
    requires s < slot ==> exists i :: 0 <= i < |ps| && ps[i].header.slot == s
    ensures exists i :: 0 <= i < |ps| + 1 && Inserted(ps, p, k)[i].header.slot == s
  {
    if s == slot {
      assert Inserted(ps, p, k)[k].header.slot == s;
    } else {
      var i :| 0 <= i < |ps| && ps[i].header.slot == s;
      assert Inserted(ps, p, k)[if i < k then i else i + 1].header.slot == s;
    }
  }

  /** One more readable slot. */
  lemma {:induction false} CatalogMore(g: Geometry, image: Image, slot: nat, ps: seq<Snapshot>, p: Snapshot, k: nat)
    requires g.quantum > 0 && IsCatalog(g, image, slot, ps) && Readable(image, slot) && k <= |ps|
    requires p == EntryRead(g, image, Get(image, HeaderAt(slot)).header)
    requires forall i :: 0 <= i < k ==> ps[i].header.generation < p.header.generation
    requires forall i :: k <= i < |ps| ==> ps[i].header.generation > p.header.generation
    ensures IsCatalog(g, image, slot + 1, Inserted(ps, p, k))
  {
    InsertedAscends(ps, p, k);
    forall s: nat | s < slot + 1 && Readable(image, s)
      ensures exists i :: 0 <= i < |ps| + 1 && Inserted(ps, p, k)[i].header.slot == s
    {
      InsertedLists(slot, ps, p, k, s);
    }
  }

  lemma {:induction false} CatalogSame(g: Geometry, image: Image, slot: nat, ps: seq<Snapshot>)
    requires g.quantum > 0 && IsCatalog(g, image, slot, ps) && !Readable(image, slot)
    ensures IsCatalog(g, image, slot + 1, ps)
  {
  }

  /** A generation that is already listed, or that no entry lists. */
  lemma {:induction false} ListedBefore(g: Geometry, image: Image, slot: nat, ps: seq<Snapshot>)
    requires g.quantum > 0 && IsCatalog(g, image, slot, ps) && !Contradictory(image, slot) && Readable(image, slot)
    ensures Contradictory(image, slot + 1) <==>
              || GenerationAt(image, slot) == 0
              || exists i :: 0 <= i < |ps| && ps[i].header.generation == GenerationAt(image, slot)
  {
    if i :| 0 <= i < |ps| && ps[i].header.generation == GenerationAt(image, slot) {
      var s := ps[i].header.slot;
      assert s < slot && Readable(image, s) && GenerationAt(image, s) == GenerationAt(image, slot);
    }
    if s: nat :| s < slot && Readable(image, s) && GenerationAt(image, s) == GenerationAt(image, slot) {
      var i :| 0 <= i < |ps| && ps[i].header.slot == s;
      assert ps[i].header.generation == GenerationAt(image, slot);
    }
  }

  /** Reads one partition: its footer, or a scan of its data. */
  method ReadEntry(g: Geometry, image: Image, h: Header) returns (p: Snapshot)
    requires ValidGeometry(g)
    ensures p == EntryRead(g, image, h)
  {
    var footer := ReadFooter(g, image, h);
    if footer.Some? {
      return Snapshot(h, true, footer.value, [], []);
    }
    var index, dataEnd, writers, corrupt := ScanPartition(g, image, h, g.indexBegin);
    return Snapshot(h, false, Footer(0, 0, 0, 0, []), index, writers);
  }

  /** Lists the partition of one more slot, unless its header contradicts those before. */
  method ReadSlot(g: Geometry, image: Image, slot: nat, ps: seq<Snapshot>) returns (r: Result<seq<Snapshot>>)
    requires ValidGeometry(g) && IsCatalog(g, image, slot, ps) && !Contradictory(image, slot)
    ensures r.Ok? ==> IsCatalog(g, image, slot + 1, r.value) && !Contradictory(image, slot + 1)
    ensures r.Err? ==> Contradictory(image, slot + 1)
  {
    if !Readable(image, slot) {
      CatalogSame(g, image, slot, ps);
      return Ok(ps);
    }
    var h := Get(image, HeaderAt(slot)).header;
    ListedBefore(g, image, slot, ps);
    if h.generation == 0 {
      return Err(Corrupt);
    }
    var k := PlaceOf(ps, h.generation);
    if k < |ps| && ps[k].header.generation == h.generation {
      return Err(Corrupt);
    }
    var p := ReadEntry(g, image, h);
    CatalogMore(g, image, slot, ps, p, k);
    return Ok(Inserted(ps, p, k));
  }

  /**
    Opens a volume for reading.  It fails exactly when the headers contradict each other; damaged headers
    that belonged to this volume are set aside, and everything readable is listed by generation.
   */
  method OpenLazily(g: Geometry, image: Image, recognizable: nat -> bool)
    returns (r: Result<seq<Snapshot>>, damaged: seq<nat>)
    requires ValidGeometry(g)
    ensures r == Err(Corrupt) <==> Contradictory(image, g.partitions)
    ensures r.Err? ==> r.error == Corrupt
    ensures r.Ok? ==> IsCatalog(g, image, g.partitions, r.value)
    ensures r.Ok? ==>
              forall s: nat :: s in damaged <==>
                && s < g.partitions && Get(image, HeaderAt(s)) == Torn
                && (recognizable(s) || Get(image, FooterAt(s)).FooterCell? || Get(image, FrameAt(s, 4096)).FrameCell?)
  {
    var ps: seq<Snapshot> := [];
    damaged := [];
    for slot := 0 to g.partitions
      invariant IsCatalog(g, image, slot, ps) && !Contradictory(image, slot)
      invariant forall s: nat :: s in damaged <==> s < slot && Ambiguous(image, recognizable, s)
    {
      if Ambiguous(image, recognizable, slot) {
        damaged := damaged + [slot];
      }
      var more := ReadSlot(g, image, slot, ps);
      if more.Err? {
        return Err(Corrupt), damaged;
      }
      ps := more.value;
    }
    return Ok(ps), damaged;
  }

  // ------------------------------------------------------- after any run and any crash

  predicate OnMedia(g: Geometry, image: Image, n: nat)
    requires ValidGeometry(g)
  {
    n > 0 && IsHeader(g, HeaderOn(g, image, n), n)
  }

  /** The oldest generation on the media; the header write for its slot's next one may not have arrived yet. */
  function First(g: Geometry, w: World, image: Image): (n: nat)
    requires ValidGeometry(g)
    ensures n > 0
  {
    var oldest := Oldest(g, w.begun);
    if oldest > 1 && OnMedia(g, image, oldest - 1) then oldest - 1 else oldest
  }

  /** The newest one; so may that of its own header. */
  function Last(g: Geometry, w: World, image: Image): nat
    requires ValidGeometry(g)
  {
    if w.begun > w.top && OnMedia(g, image, w.begun) then w.begun else w.top
  }

  lemma {:induction false} FirstBounds(g: Geometry, es: seq<Event>, after: Image)
    requires ValidGeometry(g) && Legal(g, es) && CrashImage(Reach(g, es).durable, Reach(g, es).dirty, after)
    ensures var w := Reach(g, es);
            && w.top <= w.begun <= w.top + 1 && w.top < First(g, w, after) + g.partitions
            && First(g, w, after) <= Oldest(g, w.begun)
  {
    var w := Reach(g, es);
    ReachInv(g, es);
    var n := Oldest(g, w.begun);
    if n > 1 && OnMedia(g, after, n - 1) {
      RingRetention(g, es, after, n - 1);
    }
  }

  lemma {:induction false} OnMediaBounds(g: Geometry, es: seq<Event>, after: Image, n: nat)
    requires ValidGeometry(g) && Legal(g, es) && CrashImage(Reach(g, es).durable, Reach(g, es).dirty, after)
    ensures var w := Reach(g, es);
            && (OnMedia(g, after, n) ==> w.top < n + g.partitions && n <= w.begun)
            && (1 <= n <= w.top && n + g.partitions > w.begun ==> OnMedia(g, after, n))
  {
    if n > 0 {
      RingRetention(g, es, after, n);
    }
  }

  lemma {:induction false} WithoutHole(g: Geometry, w: World, image: Image, n: nat)
    requires ValidGeometry(g) && w.top <= w.begun <= w.top + 1 && First(g, w, image) <= Oldest(g, w.begun)
    requires OnMedia(g, image, n) ==> w.top < n + g.partitions && n <= w.begun
    requires 1 <= n <= w.top && n + g.partitions > w.begun ==> OnMedia(g, image, n)
    ensures OnMedia(g, image, n) <==> First(g, w, image) <= n <= Last(g, w, image)
  {
    if 0 < n <= w.top && n + g.partitions <= w.begun {
      assert OnMedia(g, image, n) ==> n == Oldest(g, w.begun) - 1;
    }
  }

  /** The generations on the media are those from the first to the last, without a hole. */
  lemma {:induction false} OnMediaExactly(g: Geometry, es: seq<Event>, after: Image, n: nat)
    requires ValidGeometry(g) && Legal(g, es) && CrashImage(Reach(g, es).durable, Reach(g, es).dirty, after)
    ensures var w := Reach(g, es); OnMedia(g, after, n) <==> First(g, w, after) <= n <= Last(g, w, after)
  {
    FirstBounds(g, es, after);
    OnMediaBounds(g, es, after, n);
    WithoutHole(g, Reach(g, es), after, n);
  }

  lemma {:induction false} HeaderReadable(g: Geometry, es: seq<Event>, after: Image, s: nat)
    requires ValidGeometry(g) && Legal(g, es) && CrashImage(Reach(g, es).durable, Reach(g, es).dirty, after)
    requires Readable(after, s)
    ensures GenerationAt(after, s) > 0 && s == SlotOf(g, GenerationAt(after, s))
    ensures OnMedia(g, after, GenerationAt(after, s))
  {
    RingRetention(g, es, after, 1);
  }

  /** So a volume can always be opened for reading. */
  lemma {:induction false} NeverContradictory(g: Geometry, es: seq<Event>, after: Image)
    requires ValidGeometry(g) && Legal(g, es) && CrashImage(Reach(g, es).durable, Reach(g, es).dirty, after)
    ensures !Contradictory(after, g.partitions)
  {
    forall s: nat | Readable(after, s)
      ensures GenerationAt(after, s) > 0 && s == SlotOf(g, GenerationAt(after, s))
    {
      HeaderReadable(g, es, after, s);
    }
  }

  ghost predicate Lists(ps: seq<Snapshot>, n: nat) {
    exists i :: 0 <= i < |ps| && ps[i].header.generation == n
  }

  /** A strictly increasing list of all numbers of an interval is that interval. */
  lemma {:induction false} Interval(ps: seq<Snapshot>, a: nat, b: int)
    requires Ascending(ps) && a <= b + 1
    requires forall i :: 0 <= i < |ps| ==> a <= ps[i].header.generation <= b
    requires forall n: nat :: a <= n <= b ==> Lists(ps, n)
    ensures |ps| == b + 1 - a && forall i :: 0 <= i < |ps| ==> ps[i].header.generation == a + i
    decreases |ps|
  {
    assert |ps| > 0 ==> a <= ps[0].header.generation <= b;
    if a <= b {
      assert Lists(ps, b);
      var k := |ps| - 1;
      var init := ps[..k];
      assert forall i :: 0 <= i < k ==> init[i].header.generation < ps[k].header.generation <= b;
      forall n: nat | a <= n <= b - 1
        ensures Lists(init, n)
      {
        assert Lists(ps, n);
        var i :| 0 <= i < |ps| && ps[i].header.generation == n;
        assert init[i].header.generation == n;
      }
      Interval(init, a, b - 1);
    }
  }

  /** The catalog is exactly the retained generations, in order. */
  lemma {:induction false} CatalogIsRetained(g: Geometry, es: seq<Event>, after: Image, ps: seq<Snapshot>)
    requires ValidGeometry(g) && Legal(g, es) && CrashImage(Reach(g, es).durable, Reach(g, es).dirty, after)
    requires IsCatalog(g, after, g.partitions, ps)
    ensures var w := Reach(g, es);
            && |ps| == Last(g, w, after) + 1 - First(g, w, after)
            && forall i :: 0 <= i < |ps| ==>
                 && ps[i].header.generation == First(g, w, after) + i
                 && HeaderOn(g, after, ps[i].header.generation) == HeaderCell(ps[i].header)
  {
    var w := Reach(g, es);
    FirstBounds(g, es, after);
    forall i | 0 <= i < |ps|
      ensures First(g, w, after) <= ps[i].header.generation <= Last(g, w, after)
      ensures ps[i].header.slot == SlotOf(g, ps[i].header.generation)
    {
      HeaderReadable(g, es, after, ps[i].header.slot);
      OnMediaExactly(g, es, after, ps[i].header.generation);
    }
    forall n: nat | First(g, w, after) <= n <= Last(g, w, after)
      ensures Lists(ps, n)
    {
      OnMediaExactly(g, es, after, n);
      assert Readable(after, SlotOf(g, n));
    }
    Interval(ps, First(g, w, after), Last(g, w, after));
  }

  // ------------------------------------------------------------ queries after a crash

  /** What a reopened reader finds behind an entry. */
  function TruthRead(g: Geometry, image: Image, p: Snapshot): Truth
    requires g.quantum > 0
  {
    Truth(Retrieved(g, image, p.header), Get(image, IndexAt(p.header.slot)))
  }

  function TruthsRead(g: Geometry, image: Image, ps: seq<Snapshot>): (truth: seq<Truth>)
    requires g.quantum > 0
    ensures |truth| == |ps| && forall i :: 0 <= i < |ps| ==> truth[i] == TruthRead(g, image, ps[i])
  {
    seq(|ps|, i requires 0 <= i < |ps| => TruthRead(g, image, ps[i]))
  }

  /** A generation that is not the newest on the media carries its footer. */
  lemma {:induction false} OlderSealed(g: Geometry, es: seq<Event>, after: Image, h: Header)
    requires ValidGeometry(g) && Legal(g, es) && CrashImage(Reach(g, es).durable, Reach(g, es).dirty, after)
    requires h.generation > 0 && h.slot == SlotOf(g, h.generation)
    requires OnMedia(g, after, h.generation) && h.generation < Last(g, Reach(g, es), after)
    ensures ReadFooter(g, after, h).Some?
  {
    var w, n := Reach(g, es), h.generation;
    ReachInv(g, es);
    CrashRecoverable(g, w, after);
    OnMediaBounds(g, es, after, n);
    assert !Unsealed(g, n, after);
    assert FooterPlaceOk(g, w.top, w.promised, h.slot, Get(after, FooterAt(h.slot)));
    PromisedFacts(g, w, n);
    DataEndAligned(g, w.issued, n, Promised(w.promised, n));
  }

  /** An entry describes a list some writer really held, and the media holds it. */
  lemma {:induction false} EntryDescribes(g: Geometry, es: seq<Event>, after: Image, h: Header)
    requires ValidGeometry(g) && Legal(g, es) && CrashImage(Reach(g, es).durable, Reach(g, es).dirty, after)
    requires h.generation > 0 && HeaderOn(g, after, h.generation) == HeaderCell(h) && h.slot == SlotOf(g, h.generation)
    ensures var w, frames := Reach(g, es), Retrieved(g, after, h);
            && Describing(g, w.issued, EntryRead(g, after, h), frames) && Placed(after, h.slot, frames)
            && Promised(w.promised, h.generation) <= frames
  {
    var w, n, frames := Reach(g, es), h.generation, Retrieved(g, after, h);
    ReachInv(g, es);
    CrashRecoverable(g, w, after);
    PromisedFacts(g, w, n);
    if ReadFooter(g, after, h).Some? {
      SealOrdering(g, es, after, h.slot);
      assert FooterPlaceOk(g, w.top, w.promised, h.slot, Get(after, FooterAt(h.slot)));
      ScanPlaced(g, after, h, DataEnd(frames), []);
    } else {
      ScanPlaced(g, after, h, g.indexBegin, []);
      ScanIsTrueHistory(g, w.issued, after, h, g.indexBegin, []);
      PromiseFound(g, es, after, h);
    }
    ChainedFits(g, w.issued, n, frames);
  }

  lemma {:induction false} PromiseFound(g: Geometry, es: seq<Event>, after: Image, h: Header)
    requires ValidGeometry(g) && Legal(g, es) && CrashImage(Reach(g, es).durable, Reach(g, es).dirty, after)
    requires h.generation > 0 && HeaderOn(g, after, h.generation) == HeaderCell(h) && h.slot == SlotOf(g, h.generation)
    ensures Promised(Reach(g, es).promised, h.generation) <= Scan(g, after, h, g.indexBegin, [])
  {
    var w, n := Reach(g, es), h.generation;
    ReachInv(g, es);
    CrashRecoverable(g, w, after);
    PromisedFacts(g, w, n);
    OnMediaBounds(g, es, after, n);
    if n <= w.top {
      assert Placed(after, SlotOf(g, n), Promised(w.promised, n));
      ScanFindsPlaced(g, w.issued, after, h, g.indexBegin, Promised(w.promised, n));
    }
  }

  /**
    Whatever run and crash left the media behind, a reader that opens it holds a catalog it can query: the
    retained generations in order, all but the newest sealed, each with at least what was promised of it.
   */
  lemma {:induction false} ReopenedWatched(g: Geometry, es: seq<Event>, after: Image, ps: seq<Snapshot>)
    requires ValidGeometry(g) && Legal(g, es) && CrashImage(Reach(g, es).durable, Reach(g, es).dirty, after)
    requires IsCatalog(g, after, g.partitions, ps)
    ensures WatchedAll(g, Reach(g, es).issued, (_: nat) => after, ps, TruthsRead(g, after, ps))
    ensures forall i :: 0 <= i < |ps| ==>
              && (i < |ps| - 1 ==> ps[i].sealed)
              && Promised(Reach(g, es).promised, ps[i].header.generation) <= TruthsRead(g, after, ps)[i].frames
  {
    var w, truth, at: nat -> Image := Reach(g, es), TruthsRead(g, after, ps), (_: nat) => after;
    CatalogIsRetained(g, es, after, ps);
    forall i | 0 <= i < |ps|
      ensures Watching(g, w.issued, at, ps[i], truth[i])
      ensures i < |ps| - 1 ==> ps[i].sealed
      ensures Promised(w.promised, ps[i].header.generation) <= truth[i].frames
    {
      HeaderReadable(g, es, after, ps[i].header.slot);
      EntryDescribes(g, es, after, ps[i].header);
      assert ps[i] == EntryRead(g, after, ps[i].header);
      WatchingMeans(g, w.issued, at, ps[i], truth[i]);
      if i < |ps| - 1 {
        OlderSealed(g, es, after, ps[i].header);
      }
    }
  }

  /** On media that nobody writes no partition is overtaken, and damage is reported exactly. */
  lemma {:induction false} NothingOvertaken(g: Geometry, image: Image, q: Query, ps: seq<Snapshot>, truth: seq<Truth>,
                                            ds: seq<Delivery>)
    requires ValidGeometry(g) && IsCatalog(g, image, g.partitions, ps)
    requires NoticesTrue(q, ps, ds, image) && NoneHalted(q, ps, ds) && AllFaithful(q, ps, truth, ds)
    ensures NoLoss(q, ps, ds) && DamageExact(q, ps, truth, ds)
  {
    assert forall i :: 0 <= i < |ds| ==> InForce(image, ps[i].header);
  }

  /** Exactly the partitions whose index does not load are reported damaged. */
  ghost predicate DamageExact(q: Query, ps: seq<Snapshot>, truth: seq<Truth>, ds: seq<Delivery>) {
    && |ds| <= |ps| == |truth|
    && forall i :: 0 <= i < |ds| && InDomain(q, ps[i].header) ==> (ds[i].damaged <==> !Intact(ps[i], truth[i]))
  }

  /** Queries a catalog of media that nobody writes. */
  method QueryAtRest(g: Geometry, ghost issued: set<Issue>, image: Image, mixture: nat -> Cell, ps: seq<Snapshot>,
                     q: Query, ghost truth: seq<Truth>)
    returns (events: seq<BlockEvent>, ds: seq<Delivery>)
    requires ValidGeometry(g) && WatchedAll(g, issued, (_: nat) => image, ps, truth) && !BadQuery(q)
    requires IsCatalog(g, image, g.partitions, ps)
    ensures |ds| == |ps| && events == AllEvents(q, ps, truth, ds) && Ordered(events)
    ensures NoLoss(q, ps, ds) && DamageExact(q, ps, truth, ds)
  {
    var at: nat -> Image := (_: nat) => image;
    var status, now;
    events, ds, status, now := QueryBlocks(g, issued, at, mixture, ps, q, true, truth);
    NothingOvertaken(g, image, q, ps, truth, ds);
  }

  /**
    Opens and queries what a crash left behind.  It always succeeds, delivers every selected block of every
    retained generation, and reports exactly the partitions whose index does not load.
   */
  method QueryAfterCrash(g: Geometry, image: Image, recognizable: nat -> bool, mixture: nat -> Cell, q: Query,
                         ghost es: seq<Event>)
    returns (events: seq<BlockEvent>, ps: seq<Snapshot>, ds: seq<Delivery>)
    requires ValidGeometry(g) && Legal(g, es) && CrashImage(Reach(g, es).durable, Reach(g, es).dirty, image)
    requires !BadQuery(q)
    ensures IsCatalog(g, image, g.partitions, ps) && |ds| == |ps|
    ensures events == AllEvents(q, ps, TruthsRead(g, image, ps), ds) && Ordered(events)
    ensures NoLoss(q, ps, ds) && DamageExact(q, ps, TruthsRead(g, image, ps), ds)
  {
    NeverContradictory(g, es, image);
    var r, damaged := OpenLazily(g, image, recognizable);
    ps := r.value;
    ReopenedWatched(g, es, image, ps);
    events, ds := QueryAtRest(g, Reach(g, es).issued, image, mixture, ps, q, TruthsRead(g, image, ps));
  }
}
