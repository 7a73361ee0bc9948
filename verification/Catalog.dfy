/**
  The catalog a query copies, and the closed statement of the reader's side of the race: whatever run
  produced the catalog, whatever the writer goes on to do, and whenever the reads of a query fall, every
  partition of the catalog is watched in the sense queries rely on.
 */
module Catalog {
  import opened Bytes
  import opened Media
  import opened Recovery
  import opened Protocol
  import opened CrashSafety
  import opened Sealing
  import opened ReaderRace
  import opened RotationRely
  import opened RingStore

  /** The catalog entry of generation `n`: the active partition carries its index, a sealed one its footer. */
  function EntryFor(g: Geometry, w: World, n: nat): Snapshot
    requires ValidGeometry(g) && 1 <= n
  {
    var c := HeaderOn(g, w.volatile, n);
    var h := if c.HeaderCell? then c.header else Header(n, SlotOf(g, n), PartitionOptions(0, 0, 0));
    if n < w.top then Snapshot(h, true, FooterOf(g, n, Promised(w.promised, n)), [], [])
    else Snapshot(h, false, Footer(0, 0, 0, 0, []), EntriesOf(LogOf(w, n)), WritersOf(LogOf(w, n)))
  }

  /** The entries of the retained generations, oldest first. */
  function CatalogOf(g: Geometry, w: World): (ps: seq<Snapshot>)
    requires ValidGeometry(g)
    ensures |ps| == w.top + 1 - Oldest(g, w.top)
    ensures forall i :: 0 <= i < |ps| ==> ps[i] == EntryFor(g, w, Oldest(g, w.top) + i)
  {
    var first := Oldest(g, w.top);
    seq(w.top + 1 - first, i requires 0 <= i => EntryFor(g, w, first + i))
  }

  /** What the media holds for that entry. */
  function TruthFor(g: Geometry, w: World, n: nat): Truth
    requires ValidGeometry(g) && 1 <= n
  {
    Truth(LogOf(w, n), if n < w.top then Get(w.volatile, IndexAt(SlotOf(g, n))) else Blank)
  }

  function TruthOf(g: Geometry, w: World): (truth: seq<Truth>)
    requires ValidGeometry(g)
    ensures |truth| == w.top + 1 - Oldest(g, w.top)
    ensures forall i :: 0 <= i < |truth| ==> truth[i] == TruthFor(g, w, Oldest(g, w.top) + i)
  {
    var first := Oldest(g, w.top);
    seq(w.top + 1 - first, i requires 0 <= i => TruthFor(g, w, first + i))
  }

  lemma {:induction false} EntryHeader(g: Geometry, es: seq<Event>, n: nat)
    requires ValidGeometry(g) && Legal(g, es)
    requires 1 <= n <= Reach(g, es).top && Reach(g, es).begun < n + g.partitions
    ensures var p := EntryFor(g, Reach(g, es), n);
            && p.header.generation == n && p.header.slot == SlotOf(g, n)
            && HeaderOn(g, Reach(g, es).volatile, n) == HeaderCell(p.header)
  {
    var w := Reach(g, es);
    ReachInv(g, es);
    CrashHeaders(g, w, w.volatile);
    assert IsHeader(g, Get(w.volatile, HeaderAt(SlotOf(g, n))), n);
  }

  /** Every entry of a live writer's catalog is consistent with the media when it is copied. */
  lemma {:induction false} EntryConsistent(g: Geometry, es: seq<Event>, n: nat)
    requires ValidGeometry(g) && Legal(g, es)
    requires var w := Reach(g, es); w.writer.Some? && w.writer.value.phase == Active
    requires Oldest(g, Reach(g, es).top) <= n <= Reach(g, es).top
    ensures Consistent(g, Reach(g, es), EntryFor(g, Reach(g, es), n), TruthFor(g, Reach(g, es), n))
  {
    var w := Reach(g, es);
    ActiveIsNewest(g, es);
    EntryHeader(g, es, n);
    if n < w.top {
      SealedEntryConsistent(g, es, EntryFor(g, w, n), TruthFor(g, w, n));
    } else {
      ActiveEntryConsistent(g, es, EntryFor(g, w, n));
    }
  }

  lemma {:induction false} EntryWatched(g: Geometry, es: seq<Event>, more: seq<Event>, when: nat -> nat,
                                        at: nat -> Image, n: nat)
    requires ValidGeometry(g) && Legal(g, es + more) && AllQuiet(more)
    requires Reach(g, es).writer.Some? && Reach(g, es).writer.value.phase == Active
    requires Observes(g, es, more, when, at) && Oldest(g, Reach(g, es).top) <= n <= Reach(g, es).top
    ensures EntryFor(g, Reach(g, es), n).header.generation == n
    ensures Watched(g, Reach(g, es + more).issued, at, EntryFor(g, Reach(g, es), n), TruthFor(g, Reach(g, es), n))
  {
    assert (es + more)[..|es|] == es;
    LegalPrefix(g, es + more, |es|);
    ActiveIsNewest(g, es);
    EntryHeader(g, es, n);
    EntryConsistent(g, es, n);
    RaceIsWatched(g, es, more, when, at, EntryFor(g, Reach(g, es), n), TruthFor(g, Reach(g, es), n));
  }

  lemma {:induction false} AllEntriesWatched(g: Geometry, w: World, issued: set<Issue>, at: nat -> Image)
    requires ValidGeometry(g)
    requires forall n {:trigger EntryFor(g, w, n)} :: Oldest(g, w.top) <= n <= w.top ==>
               EntryFor(g, w, n).header.generation == n && Watching(g, issued, at, EntryFor(g, w, n), TruthFor(g, w, n))
    ensures WatchedAll(g, issued, at, CatalogOf(g, w), TruthOf(g, w))
  {
    var ps, truth := CatalogOf(g, w), TruthOf(g, w);
    forall i | 0 <= i < |ps|
      ensures ps[i].header.generation == Oldest(g, w.top) + i && Watching(g, issued, at, ps[i], truth[i])
    {
      assert ps[i] == EntryFor(g, w, Oldest(g, w.top) + i);
    }
  }

  /**
    The race is covered in full.  Take any run whose writer is active, any continuation of that writer
    without faults, and any moments at which the reads of a query fall: the catalog copied at the end of the
    run is watched throughout the query.
   */
  lemma {:induction false} CatalogIsWatched(g: Geometry, es: seq<Event>, more: seq<Event>, when: nat -> nat,
                                            at: nat -> Image)
    requires ValidGeometry(g) && Legal(g, es + more) && AllQuiet(more)
    requires Reach(g, es).writer.Some? && Reach(g, es).writer.value.phase == Active
    requires Observes(g, es, more, when, at)
    ensures WatchedAll(g, Reach(g, es + more).issued, at, CatalogOf(g, Reach(g, es)), TruthOf(g, Reach(g, es)))
  {
    var w, issued := Reach(g, es), Reach(g, es + more).issued;
    forall n | Oldest(g, w.top) <= n <= w.top
      ensures EntryFor(g, w, n).header.generation == n
      ensures Watching(g, issued, at, EntryFor(g, w, n), TruthFor(g, w, n))
    {
      EntryWatched(g, es, more, when, at, n);
    }
    AllEntriesWatched(g, w, issued, at);
  }

  // ----------------------------------------------------- the catalog and the media

  /** The footer of a sealed entry is the one a store reads back when it is opened. */
  lemma {:induction false} SealedEntryOnMedia(g: Geometry, es: seq<Event>, n: nat)
    requires ValidGeometry(g) && Legal(g, es)
    requires 1 <= n < Reach(g, es).top && Reach(g, es).begun < n + g.partitions
    ensures var p := EntryFor(g, Reach(g, es), n);
            p.sealed && ReadFooter(g, Reach(g, es).volatile, p.header) == Some(p.footer)
  {
    var w := Reach(g, es);
    ReachInv(g, es);
    EntryHeader(g, es, n);
    CrashRecoverable(g, w, w.volatile);
    assert !Unsealed(g, n, w.volatile);
    var s := SlotOf(g, n);
    assert FooterPlaceOk(g, w.top, w.promised, s, Get(w.volatile, FooterAt(s)));
    PromisedFacts(g, w, n);
    DataEndAligned(g, w.issued, n, Promised(w.promised, n));
  }

  /** Its index loads exactly when it is intact; otherwise a query rescans and reports the partition damaged. */
  lemma {:induction false} IndexLoadsExactly(g: Geometry, es: seq<Event>, n: nat)
    requires ValidGeometry(g) && Legal(g, es)
    requires 1 <= n < Reach(g, es).top && Reach(g, es).begun < n + g.partitions
    ensures var w := Reach(g, es);
            LoadIndex(g, w.volatile, EntryFor(g, w, n).footer).Ok? <==> Intact(EntryFor(g, w, n), TruthFor(g, w, n))
  {
    var w := Reach(g, es);
    ReachInv(g, es);
    PromisedFacts(g, w, n);
    IndexLoads(g, w.issued, w.volatile, n, Promised(w.promised, n));
  }

  /** After a run in which no crash interrupted a seal every index of the catalog is intact. */
  lemma {:induction false} UninterruptedIntact(g: Geometry, es: seq<Event>)
    requires ValidGeometry(g) && Legal(g, es) && Uninterrupted(g, es)
    requires Reach(g, es).writer.Some? && Reach(g, es).writer.value.phase == Active
    ensures AllIntact(CatalogOf(g, Reach(g, es)), TruthOf(g, Reach(g, es)))
  {
    var w := Reach(g, es);
    ActiveIsNewest(g, es);
    forall i | 0 <= i < |CatalogOf(g, w)|
      ensures Intact(CatalogOf(g, w)[i], TruthOf(g, w)[i])
    {
      if Oldest(g, w.top) + i < w.top {
        SealedIndexIntact(g, es, Oldest(g, w.top) + i);
      }
    }
  }

  /** In particular after a run without faults. */
  lemma {:induction false} SmoothIntact(g: Geometry, es: seq<Event>)
    requires ValidGeometry(g) && Legal(g, es) && AllSmooth(g, es)
    requires Reach(g, es).writer.Some? && Reach(g, es).writer.value.phase == Active
    ensures AllIntact(CatalogOf(g, Reach(g, es)), TruthOf(g, Reach(g, es)))
  {
    SmoothIsUninterrupted(g, es);
    UninterruptedIntact(g, es);
  }

  /** The active entry is the store's own: the header it appends under and the index it keeps in memory. */
  lemma {:induction false} ActiveEntryIsStores(store: Store)
    requires store.Valid() && !store.closed && store.fault.None?
    ensures var ps := CatalogOf(store.g, store.world);
            && ps != [] && ps[|ps| - 1].header == store.active.header
            && !ps[|ps| - 1].sealed && ps[|ps| - 1].index == store.active.index
            && ps[|ps| - 1].writers == store.active.writers
  {
    DescribesMeans(store.active, store.world.writer.value.frames);
    var ps, n := CatalogOf(store.g, store.world), store.world.top;
    assert |ps| == n + 1 - Oldest(store.g, n) && Oldest(store.g, n) + (|ps| - 1) == n;
    assert ps[|ps| - 1] == EntryFor(store.g, store.world, n);
  }
}
