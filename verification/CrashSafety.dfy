/**
  What the ring store promises over whole runs: any sequence of opens, emitted frames,
  rotations, flushes, failed writes and crashes, starting from a freshly formatted volume.
 */
module CrashSafety {
  import opened Bytes
  import opened Media
  import opened Recovery
  import opened Protocol
  import opened ProtocolSteps

  /** The world after a run. */
  function Reach(g: Geometry, es: seq<Event>): World
    requires ValidGeometry(g)
  {
    if es == [] then Fresh() else Next(g, Reach(g, es[..|es| - 1]), es[|es| - 1])
  }

  ghost predicate LegalAt(g: Geometry, es: seq<Event>, i: nat)
    requires ValidGeometry(g) && i < |es|
  {
    Enabled(g, Reach(g, es[..i]), es[i])
  }

  ghost predicate Legal(g: Geometry, es: seq<Event>)
    requires ValidGeometry(g)
  {
    forall i {:trigger LegalAt(g, es, i)} :: 0 <= i < |es| ==> LegalAt(g, es, i)
  }

  lemma {:induction false} LegalPrefix(g: Geometry, es: seq<Event>, i: nat)
    requires ValidGeometry(g) && Legal(g, es) && i <= |es|
    ensures Legal(g, es[..i])
  {
    var head := es[..i];
    forall j | 0 <= j < i
      ensures LegalAt(g, head, j)
    {
      assert LegalAt(g, es, j);
      assert head[..j] == es[..j];
    }
  }

  lemma {:induction false} ReachSnoc(g: Geometry, es: seq<Event>, e: Event)
    requires ValidGeometry(g)
    ensures Reach(g, es + [e]) == Next(g, Reach(g, es), e)
  {
    assert (es + [e])[..|es|] == es;
  }

  lemma {:induction false} ReachInv(g: Geometry, es: seq<Event>)
    requires ValidGeometry(g) && Legal(g, es)
    ensures Inv(g, Reach(g, es))
    decreases |es|
  {
    if es == [] {
      FreshOk(g);
    } else {
      var n := |es| - 1;
      LegalPrefix(g, es, n);
      ReachInv(g, es[..n]);
      assert LegalAt(g, es, n);
      StepKeeps(g, Reach(g, es[..n]), es[n]);
    }
  }

  /** Any one event of a run, with what leads up to it. */
  lemma {:induction false} RunAt(g: Geometry, es: seq<Event>, n: nat)
    requires ValidGeometry(g) && Legal(g, es) && n < |es|
    ensures Legal(g, es[..n]) && Enabled(g, Reach(g, es[..n]), es[n])
    ensures Reach(g, es[..n + 1]) == Next(g, Reach(g, es[..n]), es[n])
  {
    LegalPrefix(g, es, n);
    assert LegalAt(g, es, n);
    ReachSnoc(g, es[..n], es[n]);
    assert es[..n + 1] == es[..n] + [es[n]];
  }

  lemma {:induction false} ActiveIsNewest(g: Geometry, es: seq<Event>)
    requires ValidGeometry(g) && Legal(g, es)
    requires Reach(g, es).writer.Some? && Reach(g, es).writer.value.phase == Active
    ensures Reach(g, es).begun == Reach(g, es).top > 0
  {
    ReachInv(g, es);
  }

  lemma {:induction false} ReachExtends(g: Geometry, es: seq<Event>, i: nat)
    requires ValidGeometry(g) && Legal(g, es) && i <= |es|
    ensures Extends(Reach(g, es[..i]), Reach(g, es))
    decreases |es|
  {
    if i == |es| {
      assert es[..i] == es;
    } else {
      var n := |es| - 1;
      LegalPrefix(g, es, n);
      assert es[..n][..i] == es[..i];
      ReachExtends(g, es[..n], i);
      ReachInv(g, es[..n]);
      assert LegalAt(g, es, n);
      StepExtends(g, Reach(g, es[..n]), es[n]);
      ExtendsTransitive(Reach(g, es[..i]), Reach(g, es[..n]), Reach(g, es));
    }
  }

  lemma {:induction false} ExtendsTransitive(a: World, b: World, c: World)
    requires Extends(a, b) && Extends(b, c)
    ensures Extends(a, c)
  {
  }

  // -------------------------------------------------------- runs without faults

  /** Every write succeeds, power never fails, and a store is closed only when it has nothing unflushed. */
  predicate Smooth(w: World, e: Event) {
    match e
    case Emit(_, _, ok) => ok
    case WriteIndex(_, ok) => ok
    case WriteFooter(_, ok) => ok
    case WriteHeader(_, _, ok) => ok
    case Flush => true
    case Abandon => w.writer.Some? && w.writer.value.phase == Active && w.dirty == []
    case Crash(_) => false
    case Open(_) => true
  }

  ghost predicate SmoothAt(g: Geometry, es: seq<Event>, i: nat)
    requires ValidGeometry(g) && i < |es|
  {
    Smooth(Reach(g, es[..i]), es[i])
  }

  ghost predicate AllSmooth(g: Geometry, es: seq<Event>)
    requires ValidGeometry(g)
  {
    forall i {:trigger SmoothAt(g, es, i)} :: 0 <= i < |es| ==> SmoothAt(g, es, i)
  }

  lemma {:induction false} SmoothSnoc(g: Geometry, es: seq<Event>, e: Event)
    requires ValidGeometry(g) && AllSmooth(g, es) && Smooth(Reach(g, es), e)
    ensures AllSmooth(g, es + [e])
  {
    var more := es + [e];
    assert more[..|es|] == es;
    forall i | 0 <= i < |more|
      ensures SmoothAt(g, more, i)
    {
      if i < |es| {
        assert SmoothAt(g, es, i);
        assert more[..i] == es[..i];
      }
    }
  }

  lemma {:induction false} SmoothPrefix(g: Geometry, es: seq<Event>, i: nat)
    requires ValidGeometry(g) && AllSmooth(g, es) && i <= |es|
    ensures AllSmooth(g, es[..i])
  {
    var head := es[..i];
    forall j | 0 <= j < i
      ensures SmoothAt(g, head, j)
    {
      assert SmoothAt(g, es, j);
      assert head[..j] == es[..j];
    }
  }

  // -------------------------------------------------------------------- regions

  /** The write lies in the region its structure owns within the slot of its own generation. */
  predicate InRegion(g: Geometry, top: nat, d: Write)
    requires ValidGeometry(g)
  {
    match d.place
    case HeaderAt(slot) =>
      && d.cell.HeaderCell? && d.cell.header.generation > 0
      && slot == d.cell.header.slot == SlotOf(g, d.cell.header.generation)
    case FrameAt(slot, offset) =>
      && d.cell.FrameCell? && d.cell.frame.generation > 0 && slot == SlotOf(g, d.cell.frame.generation)
      && REGION <= offset && BLOCK_HEADER + d.cell.frame.stored <= d.cell.frame.span
      && offset + d.cell.frame.span <= g.indexBegin
    case IndexAt(slot) => top > 0 && slot == SlotOf(g, top) && d.cell.IndexCell? && |d.cell.entries| <= g.indexCapacity
    case FooterAt(slot) =>
      d.cell.FooterCell? && d.cell.footer.generation > 0 && slot == SlotOf(g, d.cell.footer.generation)
  }

  /** Every unflushed write of every run stays in its own slot and its own region. */
  lemma {:induction false} WritesStayInRegion(g: Geometry, es: seq<Event>, i: nat)
    requires ValidGeometry(g) && Legal(g, es) && i < |Reach(g, es).dirty|
    ensures InRegion(g, Reach(g, es).top, Reach(g, es).dirty[i])
  {
    var w := Reach(g, es);
    ReachInv(g, es);
    var d := w.dirty[i];
    assert WriteOk(g, w.top, w.begun, w.promised, w.issued, d);
    if d.place.FrameAt? {
      FrameInRegion(g, w.issued, d);
    }
  }

  lemma {:induction false} FrameInRegion(g: Geometry, issued: set<Issue>, d: Write)
    requires ValidGeometry(g) && Ledger(g, issued) && d.place.FrameAt? && d.cell.FrameCell?
    requires IssuedAt(issued, d.place, d.cell.frame)
    ensures d.cell.frame.generation > 0 && d.place.slot == SlotOf(g, d.cell.frame.generation)
    ensures REGION <= d.place.offset && BLOCK_HEADER + d.cell.frame.stored <= d.cell.frame.span
    ensures d.place.offset + d.cell.frame.span <= g.indexBegin
  {
    var i :| i in issued && i.frame == d.cell.frame && d.place == FrameAt(i.frame.slot, DataEnd(i.prefix));
    assert IssueOk(g, i);
  }

  // ------------------------------------------------------------- true history

  /** In this run the frame was emitted at event `j`, by a writer holding exactly `prefix`. */
  ghost predicate EmittedAt(g: Geometry, es: seq<Event>, j: nat, f: Frame, prefix: seq<Frame>)
    requires ValidGeometry(g)
  {
    && j < |es| && es[j].Emit? && es[j].frame == f
    && Reach(g, es[..j]).writer.Some?
    && Reach(g, es[..j]).writer.value.frames == prefix
    && Reach(g, es[..j]).writer.value.id == f.writer
  }

  lemma {:induction false} OnlyEmitIssues(g: Geometry, w: World, e: Event, i: Issue)
    requires ValidGeometry(g) && Enabled(g, w, e) && i in Next(g, w, e).issued && i !in w.issued
    ensures e.Emit? && e.frame == i.frame && w.writer.Some?
    ensures w.writer.value.frames == i.prefix && w.writer.value.id == i.frame.writer
  {
  }

  lemma {:induction false} IssuedMeansEmitted(g: Geometry, es: seq<Event>, i: Issue) returns (j: nat)
    requires ValidGeometry(g) && Legal(g, es) && i in Reach(g, es).issued
    ensures EmittedAt(g, es, j, i.frame, i.prefix)
    decreases |es|
  {
    var n := |es| - 1;
    var before := Reach(g, es[..n]);
    if i in before.issued {
      LegalPrefix(g, es, n);
      j := IssuedMeansEmitted(g, es[..n], i);
      assert es[..n][..j] == es[..j];
    } else {
      j := n;
      assert LegalAt(g, es, n);
      OnlyEmitIssues(g, before, es[n], i);
    }
  }

  /**
    True history: take any run, any crash at its end, any header and any bound.  Each frame the
    scan accepts was emitted in that run by a writer whose in-memory list was exactly the frames
    accepted before it.
   */
  lemma {:induction false} TrueHistory(g: Geometry, es: seq<Event>, after: Image, h: Header, limit: nat, k: nat)
    returns (j: nat)
    requires ValidGeometry(g) && Legal(g, es)
    requires CrashImage(Reach(g, es).durable, Reach(g, es).dirty, after)
    requires k < |Scan(g, after, h, limit, [])|
    ensures var found := Scan(g, after, h, limit, []); EmittedAt(g, es, j, found[k], found[..k])
  {
    var w := Reach(g, es);
    ReachInv(g, es);
    CrashRecoverable(g, w, after);
    ScanIsTrueHistory(g, w.issued, after, h, limit, []);
    var found := Scan(g, after, h, limit, []);
    j := IssuedMeansEmitted(g, es, Issue(found[k], found[..k]));
  }

  // --------------------------------------------------- incarnations in order

  function Rank(ids: seq<nat>, id: nat): (r: nat)
    ensures r <= |ids| && (id in ids ==> r < |ids| && ids[r] == id)
  {
    if ids == [] then 0 else if ids[0] == id then 0 else 1 + Rank(ids[1..], id)
  }

  lemma {:induction false} RankStable(ids: seq<nat>, id: nat, more: nat)
    requires id in ids
    ensures Rank(ids + [more], id) == Rank(ids, id)
    decreases |ids|
  {
    if ids[0] != id {
      RankStable(ids[1..], id, more);
      assert (ids + [more])[1..] == ids[1..] + [more];
    }
  }

  lemma {:induction false} RankLast(ids: seq<nat>, id: nat)
    requires id !in ids
    ensures Rank(ids + [id], id) == |ids|
    decreases |ids|
  {
    if ids != [] {
      RankLast(ids[1..], id);
      assert (ids + [id])[1..] == ids[1..] + [id];
    }
  }

  /** The current writer is the newest incarnation, and no frame was issued on top of a newer incarnation's. */
  ghost predicate InOrder(w: World) {
    && (w.writer.Some? ==> w.writer.value.id in w.ids && Rank(w.ids, w.writer.value.id) == |w.ids| - 1)
    && (forall i, k {:trigger i.prefix[k], i in w.issued} :: i in w.issued && 0 <= k < |i.prefix| ==>
          i.prefix[k].writer in w.ids && i.frame.writer in w.ids
          && Rank(w.ids, i.prefix[k].writer) <= Rank(w.ids, i.frame.writer))
  }

  lemma {:induction false} InOrderEmit(g: Geometry, w: World, e: Event)
    requires ValidGeometry(g) && HistoryOk(g, w) && WriterOk(g, w) && Enabled(g, w, e) && InOrder(w) && e.Emit?
    ensures InOrder(Next(g, w, e))
  {
    var a := w.writer.value;
    var more := w.issued + {Issue(e.frame, a.frames)};
    forall i, k {:trigger i.prefix[k], i in more} | i in more && 0 <= k < |i.prefix|
      ensures i.prefix[k].writer in w.ids && i.frame.writer in w.ids
      ensures Rank(w.ids, i.prefix[k].writer) <= Rank(w.ids, i.frame.writer)
    {
      if i !in w.issued {
        assert Issue(a.frames[k], a.frames[..k]) in w.issued;
      }
    }
  }

  lemma {:induction false} InOrderOpen(g: Geometry, w: World, id: nat)
    requires ValidGeometry(g) && id !in w.ids && InOrder(w)
    ensures InOrder(Opened(g, w, id))
  {
    var ids := w.ids + [id];
    RankLast(w.ids, id);
    forall i, k {:trigger i.prefix[k], i in w.issued} | i in w.issued && 0 <= k < |i.prefix|
      ensures i.prefix[k].writer in ids && i.frame.writer in ids
      ensures Rank(ids, i.prefix[k].writer) <= Rank(ids, i.frame.writer)
    {
      RankStable(w.ids, i.prefix[k].writer, id);
      RankStable(w.ids, i.frame.writer, id);
    }
  }

  /** Only emitting and opening add to the history. */
  lemma {:induction false} QuietStep(g: Geometry, w: World, e: Event)
    requires ValidGeometry(g) && Enabled(g, w, e) && !e.Emit? && !e.Open?
    ensures Next(g, w, e).issued == w.issued && Next(g, w, e).ids == w.ids
    ensures Next(g, w, e).writer.Some? ==> w.writer.Some? && Next(g, w, e).writer.value.id == w.writer.value.id
  {
  }

  lemma {:induction false} InOrderStep(g: Geometry, w: World, e: Event)
    requires ValidGeometry(g) && Inv(g, w) && Enabled(g, w, e) && InOrder(w)
    ensures InOrder(Next(g, w, e))
  {
    match e
    case Emit(_, _, _) => InOrderEmit(g, w, e);
    case Open(id) => InOrderOpen(g, w, id);
    case _ => QuietStep(g, w, e);
  }

  lemma {:induction false} ReachInOrder(g: Geometry, es: seq<Event>)
    requires ValidGeometry(g) && Legal(g, es)
    ensures InOrder(Reach(g, es))
    decreases |es|
  {
    if es != [] {
      var n := |es| - 1;
      LegalPrefix(g, es, n);
      ReachInOrder(g, es[..n]);
      ReachInv(g, es[..n]);
      assert LegalAt(g, es, n);
      InOrderStep(g, Reach(g, es[..n]), es[n]);
    }
  }

  /** No frame of an older incarnation ever follows one of a newer incarnation in what a scan accepts. */
  lemma {:induction false} IncarnationsInOrder(g: Geometry, es: seq<Event>, after: Image, h: Header, limit: nat,
                                               i: nat, j: nat)
    requires ValidGeometry(g) && Legal(g, es)
    requires CrashImage(Reach(g, es).durable, Reach(g, es).dirty, after)
    requires i < j < |Scan(g, after, h, limit, [])|
    ensures var found, ids := Scan(g, after, h, limit, []), Reach(g, es).ids;
            Rank(ids, found[i].writer) <= Rank(ids, found[j].writer)
  {
    var w := Reach(g, es);
    ReachInv(g, es);
    ReachInOrder(g, es);
    CrashRecoverable(g, w, after);
    ScanIsTrueHistory(g, w.issued, after, h, limit, []);
    var found := Scan(g, after, h, limit, []);
    assert Issue(found[j], found[..j]) in w.issued;
    assert found[..j][i] == found[i];
  }

  /** The frames of a generation as the live writer knows them. */
  function LogOf(w: World, generation: nat): seq<Frame> {
    if generation == w.top && w.writer.Some? then w.writer.value.frames else Promised(w.promised, generation)
  }

  /** The oldest generation still on the media when `top` is the newest. */
  function Oldest(g: Geometry, top: nat): (n: nat)
    ensures 1 <= n <= top + 1
  {
    if top < g.partitions then 1 else top - g.partitions + 1
  }

  // --------------------------------------------------------------- durability

  function HeaderOn(g: Geometry, image: Image, generation: nat): Cell
    requires ValidGeometry(g) && generation > 0
  {
    Get(image, HeaderAt(SlotOf(g, generation)))
  }

  /** What recovery returns of a retained generation: all of it once sealed, at least the promise before. */
  lemma {:induction false} RetrievedExtendsPromise(g: Geometry, w: World, image: Image, n: nat)
    requires ValidGeometry(g) && HistoryOk(g, w) && Recoverable(g, w, image) && w.top <= w.begun <= w.top + 1
    requires 1 <= n <= w.top && n + g.partitions > w.begun
    ensures IsHeader(g, HeaderOn(g, image, n), n)
    ensures Promised(w.promised, n) <= Retrieved(g, image, HeaderOn(g, image, n).header)
    ensures n < w.begun ==> Retrieved(g, image, HeaderOn(g, image, n).header) == Promised(w.promised, n)
  {
    var h := HeaderOn(g, image, n).header;
    PromisedFacts(g, w, n);
    if Unsealed(g, n, image) {
      assert ReadFooter(g, image, h).None?;
      ScanFindsPlaced(g, w.issued, image, h, g.indexBegin, Promised(w.promised, n));
    } else {
      assert FooterPlaceOk(g, w.top, w.promised, h.slot, Get(image, FooterAt(h.slot)));
      SealedRetrieved(g, w.issued, image, h, Promised(w.promised, n));
    }
  }

  /**
    Durability: what was promised of a generation at some point of a run is found by a reopen after
    any later steps and any crash, as long as no header write for its slot's next generation was issued.
   */
  lemma {:induction false} Durability(g: Geometry, es: seq<Event>, i: nat, n: nat, after: Image)
    requires ValidGeometry(g) && Legal(g, es) && i <= |es|
    requires CrashImage(Reach(g, es).durable, Reach(g, es).dirty, after)
    requires 1 <= n <= Reach(g, es[..i]).top && Reach(g, es).begun < n + g.partitions
    ensures IsHeader(g, HeaderOn(g, after, n), n)
    ensures Promised(Reach(g, es[..i]).promised, n) <= Retrieved(g, after, HeaderOn(g, after, n).header)
  {
    var w := Reach(g, es);
    ReachInv(g, es);
    ReachExtends(g, es, i);
    CrashRecoverable(g, w, after);
    RetrievedExtendsPromise(g, w, after, n);
    assert Promised(Reach(g, es[..i]).promised, n) <= Promised(w.promised, n);
  }

  /**
    Seal ordering: if a crash at any point leaves a footer that the current header accepts, then every
    frame it counts was already durable, the scan bounded by its data end returns exactly those frames,
    and its index either is intact or is reported corrupt, in which case that scan takes over.
   */
  lemma {:induction false} SealOrdering(g: Geometry, es: seq<Event>, after: Image, s: nat)
    requires ValidGeometry(g) && Legal(g, es)
    requires CrashImage(Reach(g, es).durable, Reach(g, es).dirty, after)
    requires Get(after, HeaderAt(s)).HeaderCell?
    requires ReadFooter(g, after, Get(after, HeaderAt(s)).header).Some?
    ensures var h := Get(after, HeaderAt(s)).header;
            var ft := ReadFooter(g, after, h).value;
            var frames := Promised(Reach(g, es).promised, h.generation);
            && Placed(Reach(g, es).durable, s, frames) && ft.blockCount == |frames|
            && Scan(g, after, h, ft.dataEnd, []) == frames
            && LoadIndex(g, after, ft) in {Ok(EntriesOf(frames)), Err(Corrupt)}
            && Retrieved(g, after, h) == frames
  {
    var w := Reach(g, es);
    ReachInv(g, es);
    CrashRecoverable(g, w, after);
    var h := Get(after, HeaderAt(s)).header;
    assert HeaderPlaceOk(g, w.top, w.begun, s, Get(after, HeaderAt(s)));
    assert FooterPlaceOk(g, w.top, w.promised, h.slot, Get(after, FooterAt(h.slot)));
    PromisedFacts(g, w, h.generation);
    SealedRetrieved(g, w.issued, after, h, Promised(w.promised, h.generation));
  }

  /**
    Ring retention: after any run and any crash the generations on the media are contiguous, each in
    its own slot, and every one that has a successor is returned exactly as it was sealed.
   */
  lemma {:induction false} RingRetention(g: Geometry, es: seq<Event>, after: Image, n: nat)
    requires ValidGeometry(g) && Legal(g, es) && n > 0
    requires CrashImage(Reach(g, es).durable, Reach(g, es).dirty, after)
    ensures var w := Reach(g, es);
            && (n <= w.top && n + g.partitions > w.begun ==> IsHeader(g, HeaderOn(g, after, n), n))
            && (n < w.begun && n <= w.top && n + g.partitions > w.begun ==>
                  Retrieved(g, after, HeaderOn(g, after, n).header) == Promised(w.promised, n))
    ensures forall s: nat :: Get(after, HeaderAt(s)).HeaderCell? ==>
              var h := Get(after, HeaderAt(s)).header;
              && Reach(g, es).top < h.generation + g.partitions <= Reach(g, es).begun + g.partitions
              && h.generation > 0 && s == SlotOf(g, h.generation)
  {
    var w := Reach(g, es);
    ReachInv(g, es);
    CrashRecoverable(g, w, after);
    if n <= w.top && n + g.partitions > w.begun {
      RetrievedExtendsPromise(g, w, after, n);
    }
    forall s: nat | Get(after, HeaderAt(s)).HeaderCell?
      ensures var h := Get(after, HeaderAt(s)).header;
              && w.top < h.generation + g.partitions <= w.begun + g.partitions
              && h.generation > 0 && s == SlotOf(g, h.generation)
    {
      assert HeaderPlaceOk(g, w.top, w.begun, s, Get(after, HeaderAt(s)));
    }
  }

  // ------------------------------------------------- the catalog is exact

  /** On the media in force, nothing acceptable lies behind the active list. */
  ghost predicate Exact(g: Geometry, w: World)
    requires ValidGeometry(g)
  {
    w.writer.Some? && w.writer.value.phase == Active && w.top > 0 ==>
      forall h: Header :: h.generation == w.top && h.slot == SlotOf(g, w.top) ==>
        NextFrame(g, w.volatile, h, g.indexBegin, w.writer.value.frames).None?
  }

  lemma {:induction false} OnTopOf(g: Geometry, issued: set<Issue>, f: Frame, frames: seq<Frame>, next: Frame)
    requires ValidGeometry(g) && Ledger(g, issued)
    ensures Issue(next, frames + [f]) in issued ==> Issue(f, frames) in issued
  {
    var i := Issue(next, frames + [f]);
    if i in issued {
      assert Chained(issued, i.frame.generation, i.prefix);
      assert i.prefix[..|frames|] == frames && i.prefix[|frames|] == f;
    }
  }

  /** Nothing was ever issued on top of a frame that is only being issued now. */
  lemma {:induction false} NothingOnTop(g: Geometry, issued: set<Issue>, f: Frame, frames: seq<Frame>, next: Frame)
    requires ValidGeometry(g) && Ledger(g, issued) && IssuedBefore(issued, f.writer, f.generation, frames)
    requires f.sequence == |frames|
    ensures Issue(next, frames + [f]) !in issued + {Issue(f, frames)}
  {
    OnTopOf(g, issued, f, frames, next);
    assert |frames + [f]| != |frames|;
  }

  lemma {:induction false} ExactEmit(g: Geometry, w: World, f: Frame, after: Image)
    requires ValidGeometry(g) && Inv(g, w) && Enabled(g, w, Emit(f, after, true))
    ensures Exact(g, Next(g, w, Emit(f, after, true)))
  {
    var w' := Next(g, w, Emit(f, after, true));
    var frames := w.writer.value.frames;
    StepKeeps(g, w, Emit(f, after, true));
    CrashRecoverable(g, w', w'.volatile);
    forall h: Header | h.generation == w.top && h.slot == SlotOf(g, w.top)
      ensures NextFrame(g, after, h, g.indexBegin, frames + [f]).None?
    {
      var next := NextFrame(g, after, h, g.indexBegin, frames + [f]);
      if next.Some? {
        AcceptedWasIssuedHere(g, w'.issued, after, h, g.indexBegin, frames + [f]);
        NothingOnTop(g, w.issued, f, frames, next.value);
      }
    }
  }

  lemma {:induction false} ScanMaximal(g: Geometry, image: Image, h: Header, limit: nat, sofar: seq<Frame>)
    requires g.quantum > 0
    ensures NextFrame(g, image, h, limit, Scan(g, image, h, limit, sofar)).None?
    decreases if DataEnd(sofar) <= limit then limit - DataEnd(sofar) else 0
  {
    match NextFrame(g, image, h, limit, sofar)
    case None =>
    case Some(f) =>
      TotalSpanSnoc(sofar, f);
      ScanMaximal(g, image, h, limit, sofar + [f]);
  }

  lemma {:induction false} SameScan(g: Geometry, image: Image, h: Header, h': Header, limit: nat, sofar: seq<Frame>)
    requires g.quantum > 0 && h.generation == h'.generation && h.slot == h'.slot
    ensures NextFrame(g, image, h, limit, sofar) == NextFrame(g, image, h', limit, sofar)
  {
  }

  lemma {:induction false} ExactOpen(g: Geometry, w: World, id: nat)
    requires ValidGeometry(g) && Inv(g, w) && Enabled(g, w, Open(id))
    ensures Exact(g, Opened(g, w, id))
  {
    var h := RecoveredHeader(g, w);
    ScanMaximal(g, w.durable, h, g.indexBegin, []);
    var frames := RecoveredWriter(g, w, id).frames;
    forall h': Header | h'.generation == h.generation && h'.slot == h.slot
      ensures NextFrame(g, w.durable, h', g.indexBegin, frames) == NextFrame(g, w.durable, h, g.indexBegin, frames)
    {
      SameScan(g, w.durable, h, h', g.indexBegin, frames);
    }
  }

  lemma {:induction false} ExactNewGeneration(g: Geometry, w: World)
    requires ValidGeometry(g) && Inv(g, w) && w.writer.Some? && w.writer.value.phase == HeaderWritten
    ensures Exact(g, Flushed(w, w.writer.value))
  {
    CrashRecoverable(g, w, w.volatile);
    forall h: Header | h.generation == w.begun && h.slot == SlotOf(g, w.begun)
      ensures NextFrame(g, w.volatile, h, g.indexBegin, []).None?
    {
      ScanIsTrueHistory(g, w.issued, w.volatile, h, g.indexBegin, []);
      ChainIsKnown(w, w.begun, Scan(g, w.volatile, h, g.indexBegin, []));
    }
  }

  lemma {:induction false} ExactStep(g: Geometry, w: World, e: Event)
    requires ValidGeometry(g) && Inv(g, w) && Enabled(g, w, e) && Exact(g, w)
    ensures Exact(g, Next(g, w, e))
  {
    match e
    case Emit(f, after, ok) => if ok { ExactEmit(g, w, f, after); }
    case Open(id) => ExactOpen(g, w, id);
    case Flush => if w.writer.value.phase == HeaderWritten { ExactNewGeneration(g, w); }
    case _ =>
  }

  lemma {:induction false} ReachExact(g: Geometry, es: seq<Event>)
    requires ValidGeometry(g) && Legal(g, es)
    ensures Exact(g, Reach(g, es))
    decreases |es|
  {
    if es != [] {
      var n := |es| - 1;
      LegalPrefix(g, es, n);
      ReachExact(g, es[..n]);
      ReachInv(g, es[..n]);
      assert LegalAt(g, es, n);
      ExactStep(g, Reach(g, es[..n]), es[n]);
    }
  }

  /**
    A scan of the media in force returns exactly what the active writer holds in memory: no stale
    frame of an earlier incarnation ever reappears behind it.
   */
  lemma {:induction false} CatalogExact(g: Geometry, es: seq<Event>, h: Header)
    requires ValidGeometry(g) && Legal(g, es)
    requires var w := Reach(g, es); w.writer.Some? && w.writer.value.phase == Active
    requires h.generation == Reach(g, es).top > 0 && h.slot == SlotOf(g, Reach(g, es).top)
    ensures Scan(g, Reach(g, es).volatile, h, g.indexBegin, []) == Reach(g, es).writer.value.frames
  {
    var w := Reach(g, es);
    ReachInv(g, es);
    ReachExact(g, es);
    ScanPassesPlaced(g, w.issued, w.volatile, h, g.indexBegin, w.writer.value.frames, 0);
    assert w.writer.value.frames[..0] == [];
  }
}
