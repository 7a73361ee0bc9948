/**
  What the ring keeps: over any run without faults, through any number of clean closes and reopens, the
  generations on the media hold exactly the newest part of everything ever emitted.
 */
module Retention {
  import opened Bytes
  import opened Media
  import opened Recovery
  import opened Protocol
  import opened CrashSafety
  import opened RingStore

  /** The lists of the generations up to `n`, one after the other. */
  function Logs(w: World, n: nat): seq<Frame> {
    if n == 0 then [] else Logs(w, n - 1) + LogOf(w, n)
  }

  lemma {:induction false} LogsAgree(w: World, w': World, n: nat)
    requires forall k :: 1 <= k <= n ==> LogOf(w, k) == LogOf(w', k)
    ensures Logs(w, n) == Logs(w', n)
    decreases n
  {
    if n > 0 {
      LogsAgree(w, w', n - 1);
    }
  }

  // ------------------------------------------------------------- invariant

  /** Nothing acceptable lies behind what is promised of the newest generation. */
  ghost predicate Settled(g: Geometry, top: nat, promised: map<nat, seq<Frame>>, image: Image)
    requires ValidGeometry(g)
  {
    top > 0 ==>
      && Unsealed(g, top, image)
      && forall h: Header :: h.generation == top && h.slot == SlotOf(g, top) ==>
           NextFrame(g, image, h, g.indexBegin, Promised(promised, top)).None?
  }

  ghost predicate Even(g: Geometry, w: World)
    requires ValidGeometry(g)
  {
    && w.emitted == Logs(w, w.top)
    && (w.dirty == [] ==> w.volatile == w.durable)
    && (w.writer.Some? && w.dirty == [] ==> Promised(w.promised, w.top) == w.writer.value.frames)
    && (w.writer.None? ==> w.begun == w.top && w.dirty == [] && Settled(g, w.top, w.promised, w.durable))
  }

  /** What the phases of a writer say about its list. */
  lemma {:induction false} PhaseFacts(g: Geometry, w: World)
    requires ValidGeometry(g) && w.begun <= w.top + 1 && WriterOk(g, w) && w.writer.Some?
    ensures w.writer.value.phase == Active ==> w.begun == w.top > 0 && Unsealed(g, w.top, w.volatile)
    ensures w.writer.value.phase == HeaderWritten ==>
              w.begun == w.top + 1 && Promised(w.promised, w.top) == w.writer.value.frames
    ensures w.writer.value.phase == FooterWritten ==> Promised(w.promised, w.top) == w.writer.value.frames
  {
  }

  lemma {:induction false} EvenEmit(g: Geometry, w: World, f: Frame, after: Image)
    requires ValidGeometry(g) && w.writer.Some? && w.top > 0 && w.emitted == Logs(w, w.top)
    ensures Even(g, Next(g, w, Emit(f, after, true)))
  {
    var w' := Next(g, w, Emit(f, after, true));
    LogsAgree(w, w', w.top - 1);
    Assoc(Logs(w, w.top - 1), w.writer.value.frames, [f]);
  }

  lemma {:induction false} EvenFlush(g: Geometry, w: World)
    requires ValidGeometry(g) && w.writer.Some? && w.emitted == Logs(w, w.top)
    requires w.writer.value.phase == HeaderWritten ==>
               w.begun == w.top + 1 && Promised(w.promised, w.top) == w.writer.value.frames
    requires w.writer.value.phase == FooterWritten ==> Promised(w.promised, w.top) == w.writer.value.frames
    ensures Even(g, Next(g, w, Flush))
  {
    var w' := Next(g, w, Flush);
    LogsAgree(w, w', w.top);
    if w.writer.value.phase == HeaderWritten {
      assert Logs(w', w'.top) == Logs(w', w.top) + [];
    }
  }

  lemma {:induction false} EvenWrite(g: Geometry, w: World, e: Event)
    requires ValidGeometry(g) && w.writer.Some? && w.emitted == Logs(w, w.top) && Smooth(w, e)
    requires (e.WriteIndex? && w.top > 0) || (e.WriteFooter? && w.top > 0) || e.WriteHeader?
    ensures Even(g, Next(g, w, e))
  {
    LogsAgree(w, Next(g, w, e), w.top);
  }

  lemma {:induction false} EvenAbandon(g: Geometry, w: World)
    requires ValidGeometry(g) && Exact(g, w) && Even(g, w) && Smooth(w, Abandon)
    requires w.begun == w.top > 0 && Unsealed(g, w.top, w.volatile)
    ensures Even(g, Next(g, w, Abandon))
  {
    LogsAgree(w, Next(g, w, Abandon), w.top);
  }

  /** A clean reopen recovers the list the closed store held. */
  lemma {:induction false} ReopenRecovers(g: Geometry, w: World, id: nat)
    requires ValidGeometry(g) && Inv(g, w) && w.begun == w.top > 0 && Settled(g, w.top, w.promised, w.durable)
    ensures NewestOnMedia(g, w) == w.top
    ensures RecoveredWriter(g, w, id) == Writer(id, Promised(w.promised, w.top), Active)
  {
    var h := RecoveredHeader(g, w);
    assert IsHeader(g, Get(w.durable, HeaderAt(SlotOf(g, w.top))), w.top);
    SettledScan(g, w, h);
  }

  lemma {:induction false} SettledScan(g: Geometry, w: World, h: Header)
    requires ValidGeometry(g) && HistoryOk(g, w) && PromisesPlaced(g, w.top, w.promised, w.durable) && w.top > 0
    requires Settled(g, w.top, w.promised, w.durable) && h.generation == w.top && h.slot == SlotOf(g, w.top)
    ensures Scan(g, w.durable, h, g.indexBegin, []) == Promised(w.promised, w.top)
    ensures ReadFooter(g, w.durable, h).None?
  {
    var frames := Promised(w.promised, w.top);
    PromisedFacts(g, w, w.top);
    ScanPassesPlaced(g, w.issued, w.durable, h, g.indexBegin, frames, 0);
    assert frames[..0] == [];
  }

  lemma {:induction false} EvenOpen(g: Geometry, w: World, id: nat)
    requires ValidGeometry(g) && w.writer.None? && w.volatile == w.durable && w.emitted == Logs(w, w.top)
    requires NewestOnMedia(g, w) == w.top
    requires RecoveredWriter(g, w, id).frames == Promised(w.promised, w.top) || w.top == 0
    ensures Even(g, Next(g, w, Open(id)))
  {
    LogsAgree(w, Next(g, w, Open(id)), w.top);
  }

  lemma {:induction false} EvenReopen(g: Geometry, w: World, id: nat)
    requires ValidGeometry(g) && Inv(g, w) && Enabled(g, w, Open(id)) && Even(g, w)
    ensures Even(g, Next(g, w, Open(id)))
  {
    if w.top > 0 {
      ReopenRecovers(g, w, id);
    }
    EvenOpen(g, w, id);
  }

  lemma {:induction false} EvenStep(g: Geometry, w: World, e: Event)
    requires ValidGeometry(g) && Inv(g, w) && Exact(g, w) && Enabled(g, w, e) && Smooth(w, e) && Even(g, w)
    ensures Even(g, Next(g, w, e))
  {
    if w.writer.Some? {
      PhaseFacts(g, w);
    }
    match e
    case Emit(f, after, ok) => EvenEmit(g, w, f, after);
    case Flush => EvenFlush(g, w);
    case Abandon => EvenAbandon(g, w);
    case Open(id) => EvenReopen(g, w, id);
    case _ => EvenWrite(g, w, e);
  }

  lemma {:induction false} EvenAt(g: Geometry, es: seq<Event>, e: Event)
    requires ValidGeometry(g) && Legal(g, es) && Even(g, Reach(g, es))
    requires Enabled(g, Reach(g, es), e) && Smooth(Reach(g, es), e)
    ensures Even(g, Next(g, Reach(g, es), e))
  {
    ReachInv(g, es);
    ReachExact(g, es);
    EvenStep(g, Reach(g, es), e);
  }

  /** After every run without faults, what was emitted is what the generations list. */
  lemma {:induction false} ReachEven(g: Geometry, es: seq<Event>)
    requires ValidGeometry(g) && Legal(g, es) && AllSmooth(g, es)
    ensures Even(g, Reach(g, es))
    decreases |es|
  {
    if es != [] {
      var n := |es| - 1;
      LegalPrefix(g, es, n);
      SmoothPrefix(g, es, n);
      ReachEven(g, es[..n]);
      assert LegalAt(g, es, n) && SmoothAt(g, es, n);
      EvenAt(g, es[..n], es[n]);
    }
  }

  // ------------------------------------------------------------ the retained suffix

  /** What queries return of generation `n`. */
  function Found(g: Geometry, image: Image, n: nat): seq<Frame>
    requires ValidGeometry(g) && n > 0
  {
    match HeaderOn(g, image, n) case HeaderCell(h) => Retrieved(g, image, h) case _ => []
  }

  /** What they return of the generations `first` to `last`, in order. */
  function Gathered(g: Geometry, image: Image, first: nat, last: nat): seq<Frame>
    requires ValidGeometry(g) && first > 0
    decreases last
  {
    if last < first then [] else Gathered(g, image, first, last - 1) + Found(g, image, last)
  }

  lemma {:induction false} FoundIsLog(g: Geometry, es: seq<Event>, n: nat)
    requires ValidGeometry(g) && Legal(g, es)
    requires var w := Reach(g, es); w.writer.Some? && w.writer.value.phase == Active && Oldest(g, w.top) <= n <= w.top
    ensures n > 0 && Found(g, Reach(g, es).volatile, n) == LogOf(Reach(g, es), n)
  {
    var w := Reach(g, es);
    ReachInv(g, es);
    CrashRecoverable(g, w, w.volatile);
    RetrievedExtendsPromise(g, w, w.volatile, n);
    if n == w.top {
      CatalogExact(g, es, HeaderOn(g, w.volatile, n).header);
    }
  }

  /** The same between incarnations, when the last one was closed and not cut off. */
  lemma {:induction false} FoundAtRest(g: Geometry, es: seq<Event>, n: nat)
    requires ValidGeometry(g) && Legal(g, es) && Even(g, Reach(g, es))
    requires Reach(g, es).writer.None? && Oldest(g, Reach(g, es).top) <= n <= Reach(g, es).top
    ensures n > 0 && Found(g, Reach(g, es).volatile, n) == LogOf(Reach(g, es), n)
  {
    var w := Reach(g, es);
    ReachInv(g, es);
    CrashRecoverable(g, w, w.volatile);
    RetrievedExtendsPromise(g, w, w.volatile, n);
    if n == w.top {
      SettledScan(g, w, HeaderOn(g, w.volatile, n).header);
    }
  }

  /** The store is active or was closed; it is not in the middle of a rotation. */
  predicate Calm(w: World) {
    w.writer.Some? ==> w.writer.value.phase == Active
  }

  lemma {:induction false} RecordsConcat(a: seq<Frame>, b: seq<Frame>)
    ensures RecordsOf(a + b) == RecordsOf(a) + RecordsOf(b)
    decreases |b|
  {
    if b == [] {
      assert a + b == a;
    } else {
      var n := |b| - 1;
      assert (a + b)[..|a| + n] == a + b[..n];
      RecordsConcat(a, b[..n]);
      Assoc(RecordsOf(a), RecordsOf(b[..n]), b[n].records);
    }
  }

  /** Queries return of generation `k` what the writer lists of it. */
  ghost predicate Returned(g: Geometry, w: World, k: nat)
    requires ValidGeometry(g) && k > 0
  {
    Found(g, w.volatile, k) == LogOf(w, k)
  }

  /** Where what was emitted is what the generations list, and queries return those lists. */
  ghost predicate Retains(g: Geometry, w: World)
    requires ValidGeometry(g)
  {
    && w.emitted == Logs(w, w.top)
    && forall k {:trigger Returned(g, w, k)} :: Oldest(g, w.top) <= k <= w.top ==> Returned(g, w, k)
  }

  lemma {:induction false} GatheredIsLogs(g: Geometry, w: World, oldest: nat, n: nat)
    requires ValidGeometry(g) && 1 <= oldest <= n + 1
    requires forall k {:trigger Returned(g, w, k)} :: oldest <= k <= n ==> Returned(g, w, k)
    ensures Logs(w, n) == Logs(w, oldest - 1) + Gathered(g, w.volatile, oldest, n)
    decreases n
  {
    if n >= oldest {
      GatheredIsLogs(g, w, oldest, n - 1);
      assert Returned(g, w, n);
      Assoc(Logs(w, oldest - 1), Gathered(g, w.volatile, oldest, n - 1), LogOf(w, n));
    }
  }

  lemma {:induction false} ReachRetains(g: Geometry, es: seq<Event>, w: World)
    requires ValidGeometry(g) && Legal(g, es) && AllSmooth(g, es) && w == Reach(g, es)
    requires Calm(w)
    ensures Retains(g, w)
  {
    ReachEven(g, es);
    forall k | Oldest(g, w.top) <= k <= w.top
      ensures Returned(g, w, k)
    {
      if w.writer.Some? {
        FoundIsLog(g, es, k);
      } else {
        FoundAtRest(g, es, k);
      }
    }
  }

  lemma {:induction false} RetainedSuffix(g: Geometry, w: World, oldest: nat, kept: seq<Frame>)
    requires ValidGeometry(g) && Retains(g, w)
    requires oldest == Oldest(g, w.top) && kept == Gathered(g, w.volatile, oldest, w.top)
    ensures w.emitted == Logs(w, oldest - 1) + kept
    ensures RecordsOf(w.emitted) == RecordsOf(Logs(w, oldest - 1)) + RecordsOf(kept)
  {
    GatheredIsLogs(g, w, oldest, w.top);
    RecordsConcat(Logs(w, oldest - 1), kept);
  }

  /**
    Over every run without faults, the records that a scan of all retained generations returns are exactly
    a suffix of the records emitted since the volume was formatted, cut where a generation begins.
   */
  lemma {:induction false} RetainedIsSuffix(g: Geometry, es: seq<Event>, w: World, oldest: nat, kept: seq<Frame>)
    requires ValidGeometry(g) && Legal(g, es) && AllSmooth(g, es) && w == Reach(g, es)
    requires Calm(w)
    requires oldest == Oldest(g, w.top) && kept == Gathered(g, w.volatile, oldest, w.top)
    ensures w.emitted == Logs(w, oldest - 1) + kept
    ensures RecordsOf(w.emitted) == RecordsOf(Logs(w, oldest - 1)) + RecordsOf(kept)
  {
    ReachRetains(g, es, w);
    RetainedSuffix(g, w, oldest, kept);
  }

  lemma {:induction false} Regrouped(before: seq<Record>, published: seq<Record>, builder: seq<Record>,
                                     dropped: seq<Record>, kept: seq<Record>, accepted: seq<Record>)
    requires before + published == dropped + kept && accepted == published + builder
    ensures before + accepted == dropped + kept + builder
  {
    Assoc(before, published, builder);
  }

  lemma {:induction false} AcceptedSuffix(g: Geometry, w: World, before: seq<Frame>, published: seq<Frame>,
                                          builder: seq<Record>, accepted: seq<Record>, oldest: nat, kept: seq<Frame>)
    requires ValidGeometry(g) && Retains(g, w)
    requires oldest == Oldest(g, w.top) && kept == Gathered(g, w.volatile, oldest, w.top)
    requires w.emitted == before + published && accepted == RecordsOf(published) + builder
    ensures RecordsOf(before) + accepted == RecordsOf(Logs(w, oldest - 1)) + RecordsOf(kept) + builder
  {
    RetainedSuffix(g, w, oldest, kept);
    RecordsConcat(before, published);
    Regrouped(RecordsOf(before), RecordsOf(published), builder, RecordsOf(Logs(w, oldest - 1)), RecordsOf(kept),
              accepted);
  }

  /**
    The same for the store object, usable or closed, in any incarnation of a volume that has seen no fault:
    of everything that earlier incarnations emitted and this one accepted, its builder holds the end, the
    retained generations hold what comes before, and only a beginning is gone.
   */
  lemma {:induction false} StoreRetainsSuffix(store: Store, oldest: nat, kept: seq<Frame>)
    requires store.Valid() && store.fault.None? && AllSmooth(store.g, store.origin)
    requires oldest == Oldest(store.g, store.world.top)
    requires kept == Gathered(store.g, store.storage.volatile, oldest, store.world.top)
    ensures RecordsOf(store.before) + store.accepted ==
            RecordsOf(Logs(store.world, oldest - 1)) + RecordsOf(kept) + store.builder
  {
    TracksMeans(store.g, store.events, store.world);
    DividedMeans(store.accepted, store.published, store.builder);
    ReachRetains(store.g, store.events, store.world);
    AcceptedSuffix(store.g, store.world, store.before, store.published, store.builder, store.accepted, oldest, kept);
  }
}
