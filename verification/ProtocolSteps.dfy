/** Every step of the crash protocol keeps the invariant, and no step takes back a promise. */
module ProtocolSteps {
  import opened Media
  import opened Recovery
  import opened Protocol

  // ------------------------------------------------------------------- writes

  lemma {:induction false} ArrivesIsCrash(image: Image, d: Write, after: Image, ok: bool)
    requires Arrives(image, d, after, ok)
    ensures CrashImage(image, [d], after)
  {
    if ok {
      forall p
        ensures CrashCell(Get(image, p), [d], p, Get(after, p))
      {
        WrittenAt(image, d, p);
        assert [d][0] == d;
      }
    }
  }

  lemma {:induction false} AttemptMedia(w: World, d: Write, after: Image, ok: bool)
    requires CrashImage(w.durable, w.dirty, w.volatile) && Arrives(w.volatile, d, after, ok)
    ensures CrashImage(w.durable, w.dirty + [d], after)
  {
    ArrivesIsCrash(w.volatile, d, after, ok);
    CrashExtends(w.durable, w.dirty, w.volatile, d, after);
  }

  /** A list of frames survives a write that starts at or behind its end. */
  lemma {:induction false} PlacedSurvives(g: Geometry, issued: set<Issue>, generation: nat, frames: seq<Frame>,
                                          image: Image, slot: nat, d: Write)
    requires ValidGeometry(g) && Ledger(g, issued) && Chained(issued, generation, frames)
    requires Placed(image, slot, frames)
    requires d.place.FrameAt? && d.place.slot == slot ==> d.place.offset >= DataEnd(frames)
    ensures Placed(Written(image, d), slot, frames)
  {
    forall k | 0 <= k < |frames|
      ensures Get(Written(image, d), FrameAt(slot, DataEnd(frames[..k]))) == FrameCell(frames[k])
    {
      WrittenAt(image, d, FrameAt(slot, DataEnd(frames[..k])));
      FrameEnds(g, issued, generation, frames, k);
    }
  }

  lemma {:induction false} ChainedGrows(issued: set<Issue>, more: set<Issue>, generation: nat, frames: seq<Frame>)
    requires Chained(issued, generation, frames) && issued <= more
    ensures Chained(more, generation, frames)
  {
  }

  lemma {:induction false} IssuedAtGrows(issued: set<Issue>, more: set<Issue>, p: Place, f: Frame)
    requires IssuedAt(issued, p, f) && issued <= more
    ensures IssuedAt(more, p, f)
  {
    var i :| i in issued && i.frame == f && p == FrameAt(f.slot, DataEnd(i.prefix));
    assert i in more;
  }

  /** Issuing one more frame at a fresh position keeps the ledger. */
  lemma {:induction false} LedgerGrows(g: Geometry, issued: set<Issue>, i: Issue, top: nat)
    requires ValidGeometry(g) && Ledger(g, issued) && IssueOk(g, i)
    requires i.frame.generation == top && Chained(issued, top, i.prefix)
    requires IssuedBefore(issued, i.frame.writer, top, i.prefix)
    ensures Ledger(g, issued + {i})
  {
    var more := issued + {i};
    forall j | j in more
      ensures Chained(more, j.frame.generation, j.prefix)
    {
      if j in issued {
        assert Chained(issued, j.frame.generation, j.prefix);
      }
      ChainedGrows(issued, more, j.frame.generation, j.prefix);
    }
    PositionsGrow(g, issued, i, top);
  }

  lemma {:induction false} PositionsGrow(g: Geometry, issued: set<Issue>, i: Issue, top: nat)
    requires ValidGeometry(g) && Ledger(g, issued) && IssueOk(g, i) && i.frame.generation == top
    requires IssuedBefore(issued, i.frame.writer, top, i.prefix)
    ensures OneFramePerPosition(issued + {i})
  {
    forall j | j in issued
      ensures !SamePosition(i.frame, j.frame) && !SamePosition(j.frame, i.frame)
    {
    }
  }

  lemma {:induction false} PromisesGrow(g: Geometry, top: nat, promised: map<nat, seq<Frame>>, issued: set<Issue>,
                                        more: set<Issue>)
    requires ValidGeometry(g) && PromisesChained(g, top, promised, issued) && issued <= more
    ensures PromisesChained(g, top, promised, more)
  {
    forall n: nat
      ensures Chained(more, n, Promised(promised, n))
    {
      ChainedGrows(issued, more, n, Promised(promised, n));
    }
  }

  lemma {:induction false} EmitHistory(g: Geometry, w: World, f: Frame, after: Image, ok: bool)
    requires ValidGeometry(g) && HistoryOk(g, w) && WriterOk(g, w) && Enabled(g, w, Emit(f, after, ok))
    ensures HistoryOk(g, Next(g, w, Emit(f, after, ok)))
  {
    var i := Issue(f, w.writer.value.frames);
    LedgerGrows(g, w.issued, i, w.top);
    PromisesGrow(g, w.top, w.promised, w.issued, w.issued + {i});
  }

  lemma {:induction false} EmitMedia(g: Geometry, w: World, f: Frame, after: Image, ok: bool)
    requires ValidGeometry(g) && Inv(g, w) && Enabled(g, w, Emit(f, after, ok))
    ensures var w' := Next(g, w, Emit(f, after, ok));
            Recoverable(g, w', w'.durable) && DirtyOk(g, w') && CrashImage(w'.durable, w'.dirty, w'.volatile)
  {
    var w' := Next(g, w, Emit(f, after, ok));
    var a := w.writer.value;
    var i := Issue(f, a.frames);
    var d := FrameWrite(w, f);
    AttemptMedia(w, d, after, ok);
    forall p | Get(w.durable, p).FrameCell?
      ensures IssuedAt(w'.issued, p, Get(w.durable, p).frame)
    {
      IssuedAtGrows(w.issued, w'.issued, p, Get(w.durable, p).frame);
    }
    forall j | 0 <= j < |w'.dirty|
      ensures WriteOk(g, w'.top, w'.begun, w'.promised, w'.issued, w'.dirty[j])
    {
      if j < |w.dirty| {
        assert WriteOk(g, w.top, w.begun, w.promised, w.issued, w.dirty[j]);
        if w.dirty[j].place.FrameAt? {
          IssuedAtGrows(w.issued, w'.issued, w.dirty[j].place, w.dirty[j].cell.frame);
        }
      } else {
        assert i in w'.issued;
        TotalSpanMonotone(a.frames, |Promised(w.promised, w.top)|);
        assert a.frames[..|Promised(w.promised, w.top)|] == Promised(w.promised, w.top);
      }
    }
  }

  lemma {:induction false} PlacedSnoc(g: Geometry, issued: set<Issue>, generation: nat, frames: seq<Frame>, f: Frame,
                                      image: Image, slot: nat)
    requires ValidGeometry(g) && Ledger(g, issued) && Chained(issued, generation, frames)
    requires Placed(image, slot, frames)
    ensures Placed(Written(image, Write(FrameAt(slot, DataEnd(frames)), FrameCell(f))), slot, frames + [f])
  {
    var d := Write(FrameAt(slot, DataEnd(frames)), FrameCell(f));
    PlacedSurvives(g, issued, generation, frames, image, slot, d);
    WrittenAt(image, d, d.place);
    var more := frames + [f];
    assert more[..|frames|] == frames;
    assert forall k :: 0 <= k < |frames| ==> more[..k] == frames[..k];
  }

  lemma {:induction false} EmitPosition(issued: set<Issue>, id: nat, top: nat, frames: seq<Frame>, f: Frame)
    requires IssuedBefore(issued, id, top, frames) && f.generation == top && f.sequence == |frames|
    ensures IssuedBefore(issued + {Issue(f, frames)}, id, top, frames + [f])
  {
  }

  lemma {:induction false} EmitFrames(g: Geometry, w: World, f: Frame, after: Image)
    requires ValidGeometry(g) && Ledger(g, w.issued) && WriterOk(g, w) && Enabled(g, w, Emit(f, after, true))
    ensures var a, i := w.writer.value, Issue(f, w.writer.value.frames);
            && Chained(w.issued + {i}, w.top, a.frames + [f]) && Fits(g, a.frames + [f])
            && Placed(after, SlotOf(g, w.top), a.frames + [f])
  {
    var a := w.writer.value;
    var i := Issue(f, a.frames);
    ChainedGrows(w.issued, w.issued + {i}, w.top, a.frames);
    ChainedSnoc(w.issued + {i}, w.top, a.frames, f);
    TotalSpanSnoc(a.frames, f);
    PlacedSnoc(g, w.issued, w.top, a.frames, f, w.volatile, SlotOf(g, w.top));
  }

  lemma {:induction false} EmitWriter(g: Geometry, w: World, f: Frame, after: Image)
    requires ValidGeometry(g) && Ledger(g, w.issued) && WriterOk(g, w) && Enabled(g, w, Emit(f, after, true))
    ensures WriterOk(g, Next(g, w, Emit(f, after, true)))
  {
    EmitFrames(g, w, f, after);
    EmitPosition(w.issued, w.writer.value.id, w.top, w.writer.value.frames, f);
    WrittenAt(w.volatile, FrameWrite(w, f), FooterAt(SlotOf(g, w.top)));
  }

  lemma {:induction false} EmitKeeps(g: Geometry, w: World, f: Frame, after: Image, ok: bool)
    requires ValidGeometry(g) && Inv(g, w) && Enabled(g, w, Emit(f, after, ok))
    ensures Inv(g, Next(g, w, Emit(f, after, ok)))
  {
    EmitHistory(g, w, f, after, ok);
    EmitMedia(g, w, f, after, ok);
    if ok {
      EmitWriter(g, w, f, after);
    }
  }

  /** The index and footer writes disturb nothing the invariant speaks of. */
  lemma {:induction false} MetadataKeeps(g: Geometry, w: World, d: Write, after: Image, phase: Phase, ok: bool)
    requires ValidGeometry(g) && Inv(g, w) && w.writer.Some? && w.begun == w.top > 0
    requires Arrives(w.volatile, d, after, ok) && !d.place.FrameAt?
    requires WriteOk(g, w.top, w.begun, w.promised, w.issued, d)
    requires ok ==> PhaseOk(g, Attempt(w, d, after, InPhase(w, phase, ok)), w.writer.value.(phase := phase))
    ensures Inv(g, Attempt(w, d, after, InPhase(w, phase, ok)))
  {
    AttemptMedia(w, d, after, ok);
    if ok {
      PlacedSurvives(g, w.issued, w.top, w.writer.value.frames, w.volatile, SlotOf(g, w.top), d);
    }
  }

  lemma {:induction false} WriteIndexKeeps(g: Geometry, w: World, after: Image, ok: bool)
    requires ValidGeometry(g) && Inv(g, w) && Enabled(g, w, WriteIndex(after, ok))
    ensures Inv(g, Next(g, w, WriteIndex(after, ok)))
  {
    var d := IndexWrite(g, w);
    WrittenAt(w.volatile, d, FooterAt(SlotOf(g, w.top)));
    MetadataKeeps(g, w, d, after, IndexWritten, ok);
  }

  lemma {:induction false} WriteFooterKeeps(g: Geometry, w: World, after: Image, ok: bool)
    requires ValidGeometry(g) && Inv(g, w) && Enabled(g, w, WriteFooter(after, ok))
    ensures Inv(g, Next(g, w, WriteFooter(after, ok)))
  {
    var d := FooterWrite(g, w);
    WrittenAt(w.volatile, d, FooterAt(SlotOf(g, w.top)));
    MetadataKeeps(g, w, d, after, FooterWritten, ok);
  }

  lemma {:induction false} BeginHeaders(g: Geometry, top: nat, begun: nat, image: Image)
    requires ValidGeometry(g) && top <= begun <= top + 1 && HeadersOk(g, top, begun, image)
    ensures HeadersOk(g, top, top + 1, image)
  {
    forall s: nat
      ensures HeaderPlaceOk(g, top, top + 1, s, Get(image, HeaderAt(s)))
    {
      assert HeaderPlaceOk(g, top, begun, s, Get(image, HeaderAt(s)));
    }
  }

  lemma {:induction false} BeginRecoverable(g: Geometry, w: World, image: Image)
    requires ValidGeometry(g) && w.top <= w.begun <= w.top + 1 && Recoverable(g, w, image)
    requires w.top > 0 ==> !Unsealed(g, w.top, image)
    ensures Recoverable(g, w.(begun := w.top + 1), image)
  {
    BeginHeaders(g, w.top, w.begun, image);
  }

  lemma {:induction false} CleanFooter(g: Geometry, durable: Image, volatile: Image, generation: nat)
    requires ValidGeometry(g) && generation > 0 && CrashImage(durable, [], volatile)
    ensures Unsealed(g, generation, durable) <==> Unsealed(g, generation, volatile)
  {
    var p := FooterAt(SlotOf(g, generation));
    assert CrashCell(Get(durable, p), [], p, Get(volatile, p));
  }

  lemma {:induction false} WriteHeaderMedia(g: Geometry, w: World, h: Header, after: Image, ok: bool)
    requires ValidGeometry(g) && Inv(g, w) && Enabled(g, w, WriteHeader(h, after, ok))
    ensures var w' := Next(g, w, WriteHeader(h, after, ok));
            Recoverable(g, w', w'.durable) && CrashImage(w'.durable, w'.dirty, w'.volatile)
  {
    AttemptMedia(w, HeaderWrite(h), after, ok);
    if w.top > 0 {
      CleanFooter(g, w.durable, w.volatile, w.top);
    }
    BeginRecoverable(g, w, w.durable);
  }

  lemma {:induction false} WriteHeaderDirty(g: Geometry, w: World, h: Header, after: Image, ok: bool)
    requires ValidGeometry(g) && Enabled(g, w, WriteHeader(h, after, ok))
    ensures DirtyOk(g, Next(g, w, WriteHeader(h, after, ok)))
  {
    assert w.dirty + [HeaderWrite(h)] == [HeaderWrite(h)];
  }

  lemma {:induction false} WriteHeaderKeeps(g: Geometry, w: World, h: Header, after: Image, ok: bool)
    requires ValidGeometry(g) && Inv(g, w) && Enabled(g, w, WriteHeader(h, after, ok))
    ensures Inv(g, Next(g, w, WriteHeader(h, after, ok)))
  {
    WriteHeaderMedia(g, w, h, after, ok);
    WriteHeaderDirty(g, w, h, after, ok);
    var d := HeaderWrite(h);
    if ok {
      WrittenAt(w.volatile, d, d.place);
      if w.top > 0 {
        PlacedSurvives(g, w.issued, w.top, w.writer.value.frames, w.volatile, SlotOf(g, w.top), d);
      }
    }
  }

  // -------------------------------------------------------------------- flush

  /** Promising more of the active generation, once it is placed and not yet sealed. */
  lemma {:induction false} PromiseMore(g: Geometry, w: World, image: Image, frames: seq<Frame>)
    requires ValidGeometry(g) && Recoverable(g, w, image) && w.top > 0
    requires Placed(image, SlotOf(g, w.top), frames)
    requires Unsealed(g, w.top, image) || frames == Promised(w.promised, w.top)
    ensures Recoverable(g, w.(promised := w.promised[w.top := frames]), image)
  {
    var promised := w.promised[w.top := frames];
    forall s: nat
      ensures FooterPlaceOk(g, w.top, promised, s, Get(image, FooterAt(s)))
    {
      assert FooterPlaceOk(g, w.top, w.promised, s, Get(image, FooterAt(s)));
    }
    forall n: nat | 1 <= n <= w.top && n + g.partitions > w.top
      ensures Placed(image, SlotOf(g, n), Promised(promised, n))
    {
      assert n != w.top ==> Promised(promised, n) == Promised(w.promised, n);
    }
  }

  lemma {:induction false} PromiseMoreHistory(g: Geometry, w: World, frames: seq<Frame>)
    requires ValidGeometry(g) && HistoryOk(g, w)
    requires Chained(w.issued, w.top, frames) && Fits(g, frames)
    requires w.top == 0 ==> frames == []
    ensures HistoryOk(g, w.(promised := w.promised[w.top := frames]))
  {
    var promised := w.promised[w.top := frames];
    forall n: nat
      ensures Chained(w.issued, n, Promised(promised, n)) && Fits(g, Promised(promised, n))
      ensures n == 0 || n > w.top ==> Promised(promised, n) == []
    {
      PromisedFacts(g, w, n);
    }
  }

  lemma {:induction false} SlotsRepeat(g: Geometry, n: nat)
    requires ValidGeometry(g) && n > 0
    ensures SlotOf(g, n) == SlotOf(g, n + g.partitions)
  {
    var q := g.partitions;
    var x := (n - 1 + q) / q - (n - 1) / q - 1;
    assert q * x == SlotOf(g, n) - SlotOf(g, n + q);
    assert x >= 1 ==> q * x >= q;
    assert x <= -1 ==> q * x + q <= 0;
  }

  lemma {:induction false} AdvanceHeaders(g: Geometry, top: nat, image: Image)
    requires ValidGeometry(g) && HeadersOk(g, top, top + 1, image)
    requires IsHeader(g, Get(image, HeaderAt(SlotOf(g, top + 1))), top + 1)
    ensures HeadersOk(g, top + 1, top + 1, image)
  {
    forall s: nat
      ensures HeaderPlaceOk(g, top + 1, top + 1, s, Get(image, HeaderAt(s)))
    {
      var c := Get(image, HeaderAt(s));
      assert HeaderPlaceOk(g, top, top + 1, s, c);
      if c.HeaderCell? && c.header.generation + g.partitions == top + 1 {
        SlotsRepeat(g, c.header.generation);
      }
    }
  }

  /** A new generation takes over once its header is on the media. */
  lemma {:induction false} Advance(g: Geometry, w: World, image: Image)
    requires ValidGeometry(g) && Recoverable(g, w, image) && w.begun == w.top + 1
    requires IsHeader(g, Get(image, HeaderAt(SlotOf(g, w.begun))), w.begun)
    ensures Recoverable(g, w.(top := w.begun, promised := w.promised[w.begun := []]), image)
    ensures Unsealed(g, w.begun, image)
  {
    var promised := w.promised[w.begun := []];
    AdvanceHeaders(g, w.top, image);
    forall s: nat
      ensures FooterPlaceOk(g, w.begun, promised, s, Get(image, FooterAt(s)))
    {
      assert FooterPlaceOk(g, w.top, w.promised, s, Get(image, FooterAt(s)));
    }
    forall n: nat | 1 <= n <= w.begun && n + g.partitions > w.begun
      ensures Placed(image, SlotOf(g, n), Promised(promised, n))
    {
      assert n != w.begun ==> Promised(promised, n) == Promised(w.promised, n);
    }
    assert FooterPlaceOk(g, w.top, w.promised, SlotOf(g, w.begun), Get(image, FooterAt(SlotOf(g, w.begun))));
  }

  lemma {:induction false} AdvanceHistory(g: Geometry, w: World)
    requires ValidGeometry(g) && HistoryOk(g, w) && w.begun == w.top + 1
    ensures HistoryOk(g, w.(top := w.begun, promised := w.promised[w.begun := []]))
  {
    var promised := w.promised[w.begun := []];
    forall n: nat
      ensures Chained(w.issued, n, Promised(promised, n)) && Fits(g, Promised(promised, n))
      ensures n == 0 || n > w.begun ==> Promised(promised, n) == []
    {
      PromisedFacts(g, w, n);
      PromisedFacts(g, w, w.begun);
    }
  }

  lemma {:induction false} CleanImage(image: Image)
    ensures CrashImage(image, [], image)
  {
  }

  lemma {:induction false} FlushActiveKeeps(g: Geometry, w: World)
    requires ValidGeometry(g) && Inv(g, w) && w.writer.Some?
    requires w.writer.value.phase != HeaderWritten && w.writer.value.phase != FooterWritten
    ensures Inv(g, Flushed(w, w.writer.value))
  {
    var frames := w.writer.value.frames;
    CrashRecoverable(g, w, w.volatile);
    CleanImage(w.volatile);
    PromiseMoreHistory(g, w, frames);
    if w.top > 0 {
      PromiseMore(g, w, w.volatile, frames);
    } else {
      assert Recoverable(g, w.(promised := w.promised[0 := frames]), w.volatile) by {
        assert forall s: nat :: FooterPlaceOk(g, w.top, w.promised, s, Get(w.volatile, FooterAt(s)));
      }
    }
  }

  lemma {:induction false} FlushFooterKeeps(g: Geometry, w: World)
    requires ValidGeometry(g) && Inv(g, w) && w.writer.Some? && w.writer.value.phase == FooterWritten
    ensures Inv(g, Flushed(w, w.writer.value))
  {
    CrashRecoverable(g, w, w.volatile);
    CleanImage(w.volatile);
  }

  lemma {:induction false} FlushHeaderKeeps(g: Geometry, w: World)
    requires ValidGeometry(g) && Inv(g, w) && w.writer.Some? && w.writer.value.phase == HeaderWritten
    ensures Inv(g, Flushed(w, w.writer.value))
  {
    CrashRecoverable(g, w, w.volatile);
    CleanImage(w.volatile);
    Advance(g, w, w.volatile);
    AdvanceHistory(g, w);
  }

  lemma {:induction false} FlushKeeps(g: Geometry, w: World)
    requires ValidGeometry(g) && Inv(g, w) && Enabled(g, w, Flush)
    ensures Inv(g, Next(g, w, Flush))
  {
    match w.writer.value.phase
    case HeaderWritten => FlushHeaderKeeps(g, w);
    case FooterWritten => FlushFooterKeeps(g, w);
    case _ => FlushActiveKeeps(g, w);
  }

  lemma {:induction false} CrashKeeps(g: Geometry, w: World, after: Image)
    requires ValidGeometry(g) && Inv(g, w) && CrashImage(w.durable, w.dirty, after)
    ensures Inv(g, Next(g, w, Crash(after)))
  {
    CrashRecoverable(g, w, after);
    CleanImage(after);
  }

  // --------------------------------------------------------------------- open

  lemma {:induction false} ScanPlaced(g: Geometry, image: Image, h: Header, limit: nat, sofar: seq<Frame>)
    requires g.quantum > 0 && Placed(image, h.slot, sofar)
    ensures Placed(image, h.slot, Scan(g, image, h, limit, sofar))
    decreases if DataEnd(sofar) <= limit then limit - DataEnd(sofar) else 0
  {
    match NextFrame(g, image, h, limit, sofar)
    case None =>
    case Some(f) =>
      var more := sofar + [f];
      assert more[..|sofar|] == sofar;
      assert forall k :: 0 <= k < |sofar| ==> more[..k] == sofar[..k];
      TotalSpanSnoc(sofar, f);
      ScanPlaced(g, image, h, limit, more);
  }

  lemma {:induction false} ChainedFits(g: Geometry, issued: set<Issue>, generation: nat, frames: seq<Frame>)
    requires ValidGeometry(g) && Ledger(g, issued) && Chained(issued, generation, frames)
    ensures Fits(g, frames)
  {
    if frames != [] {
      var n := |frames| - 1;
      assert IssueOk(g, Issue(frames[n], frames[..n]));
    }
  }

  /** What a scan of the newest generation returns is a true history that extends the promise. */
  lemma {:induction false} NewestScan(g: Geometry, w: World, image: Image, h: Header)
    requires ValidGeometry(g) && HistoryOk(g, w) && Recoverable(g, w, image)
    requires w.top > 0 && h.generation == w.top && h.slot == SlotOf(g, w.top)
    ensures var frames := Scan(g, image, h, g.indexBegin, []);
            && Promised(w.promised, w.top) <= frames
            && Chained(w.issued, w.top, frames) && Fits(g, frames) && Placed(image, h.slot, frames)
  {
    var frames := Scan(g, image, h, g.indexBegin, []);
    PromisedFacts(g, w, w.top);
    ScanFindsPlaced(g, w.issued, image, h, g.indexBegin, Promised(w.promised, w.top));
    ScanIsTrueHistory(g, w.issued, image, h, g.indexBegin, []);
    ChainedFits(g, w.issued, w.top, frames);
    ScanPlaced(g, image, h, g.indexBegin, []);
  }

  /** The footer of the newest generation, when present, is read back and bounds a scan of exactly the promise. */
  lemma {:induction false} NewestSealed(g: Geometry, w: World, image: Image, h: Header)
    requires ValidGeometry(g) && HistoryOk(g, w) && Recoverable(g, w, image)
    requires w.top > 0 && h.generation == w.top && h.slot == SlotOf(g, w.top)
    ensures Unsealed(g, w.top, image) <==> ReadFooter(g, image, h).None?
    ensures !Unsealed(g, w.top, image) ==>
              && Scan(g, image, h, ReadFooter(g, image, h).value.dataEnd, []) == Promised(w.promised, w.top)
              && Retrieved(g, image, h) == Promised(w.promised, w.top)
  {
    if !Unsealed(g, w.top, image) {
      assert FooterPlaceOk(g, w.top, w.promised, h.slot, Get(image, FooterAt(h.slot)));
      PromisedFacts(g, w, w.top);
      SealedRetrieved(g, w.issued, image, h, Promised(w.promised, w.top));
    }
  }

  /** Opening when the newest header on the media is the one recorded in `top`. */
  lemma {:induction false} OpenAtTop(g: Geometry, w: World, id: nat)
    requires ValidGeometry(g) && Inv(g, w) && Enabled(g, w, Open(id)) && NewestOnMedia(g, w) == w.top > 0
    ensures Inv(g, Opened(g, w, id))
    ensures Promised(w.promised, w.top) <= RecoveredWriter(g, w, id).frames
  {
    var h := RecoveredHeader(g, w);
    assert IsHeader(g, Get(w.durable, HeaderAt(SlotOf(g, w.top))), w.top);
    var a := RecoveredWriter(g, w, id);
    NewestScan(g, w, w.durable, h);
    NewestSealed(g, w, w.durable, h);
    PromisedFacts(g, w, w.top);
    PromiseMore(g, w, w.durable, a.frames);
    PromiseMoreHistory(g, w, a.frames);
  }

  lemma {:induction false} ChainIsKnown(w: World, generation: nat, frames: seq<Frame>)
    requires KnownIssues(w.issued, w.top, w.ids) && Chained(w.issued, generation, frames)
    ensures frames != [] ==> generation <= w.top
  {
    if frames != [] {
      assert Issue(frames[0], frames[..0]) in w.issued;
    }
  }

  /** Opening when a header write that was never flushed survived a crash. */
  lemma {:induction false} OpenAtBegun(g: Geometry, w: World, id: nat)
    requires ValidGeometry(g) && Inv(g, w) && Enabled(g, w, Open(id)) && NewestOnMedia(g, w) > w.top
    ensures Inv(g, Opened(g, w, id))
    ensures RecoveredWriter(g, w, id).frames == []
  {
    var h := RecoveredHeader(g, w);
    assert FooterPlaceOk(g, w.top, w.promised, h.slot, Get(w.durable, FooterAt(h.slot)));
    ScanIsTrueHistory(g, w.issued, w.durable, h, g.indexBegin, []);
    ChainIsKnown(w, w.begun, Scan(g, w.durable, h, g.indexBegin, []));
    Advance(g, w, w.durable);
    AdvanceHistory(g, w);
  }

  lemma {:induction false} OpenFresh(g: Geometry, w: World, id: nat)
    requires ValidGeometry(g) && Inv(g, w) && Enabled(g, w, Open(id)) && NewestOnMedia(g, w) == 0
    ensures Inv(g, Opened(g, w, id))
  {
    PromisedFacts(g, w, 0);
    PromiseMoreHistory(g, w, []);
    assert forall s: nat :: FooterPlaceOk(g, w.top, w.promised, s, Get(w.durable, FooterAt(s)));
  }

  lemma {:induction false} OpenKeeps(g: Geometry, w: World, id: nat)
    requires ValidGeometry(g) && Inv(g, w) && Enabled(g, w, Open(id))
    ensures Inv(g, Next(g, w, Open(id)))
  {
    var t := NewestOnMedia(g, w);
    if t > w.top {
      OpenAtBegun(g, w, id);
    } else if t > 0 {
      OpenAtTop(g, w, id);
    } else {
      OpenFresh(g, w, id);
    }
  }

  // ------------------------------------------------------------------ all steps

  lemma {:induction false} StepKeeps(g: Geometry, w: World, e: Event)
    requires ValidGeometry(g) && Inv(g, w) && Enabled(g, w, e)
    ensures Inv(g, Next(g, w, e))
  {
    match e
    case Emit(f, after, ok) => EmitKeeps(g, w, f, after, ok);
    case WriteIndex(after, ok) => WriteIndexKeeps(g, w, after, ok);
    case WriteFooter(after, ok) => WriteFooterKeeps(g, w, after, ok);
    case WriteHeader(h, after, ok) => WriteHeaderKeeps(g, w, h, after, ok);
    case Flush => FlushKeeps(g, w);
    case Abandon =>
    case Crash(after) => CrashKeeps(g, w, after);
    case Open(id) => OpenKeeps(g, w, id);
  }

  lemma {:induction false} FreshOk(g: Geometry)
    requires ValidGeometry(g)
    ensures Inv(g, Fresh())
  {
    CleanImage(map[]);
  }

  /** Generations only advance and promises only grow. */
  ghost predicate Extends(w: World, w': World) {
    && w.top <= w'.top && w.begun <= w'.begun
    && w.issued <= w'.issued && w.ids <= w'.ids
    && forall n: nat :: Promised(w.promised, n) <= Promised(w'.promised, n)
  }

  lemma {:induction false} PromiseGrows(promised: map<nat, seq<Frame>>, generation: nat, frames: seq<Frame>)
    requires Promised(promised, generation) <= frames
    ensures forall n: nat :: Promised(promised, n) <= Promised(promised[generation := frames], n)
  {
  }

  lemma {:induction false} OpenExtends(g: Geometry, w: World, id: nat)
    requires ValidGeometry(g) && Inv(g, w) && Enabled(g, w, Open(id))
    ensures Extends(w, Opened(g, w, id))
  {
    var t, frames := NewestOnMedia(g, w), RecoveredWriter(g, w, id).frames;
    PromisedFacts(g, w, t);
    if w.top == t > 0 {
      OpenAtTop(g, w, id);
    }
    PromiseGrows(w.promised, t, frames);
  }

  lemma {:induction false} FlushExtends(g: Geometry, w: World)
    requires ValidGeometry(g) && HistoryOk(g, w) && WriterOk(g, w) && w.writer.Some? && w.top <= w.begun
    ensures Extends(w, Flushed(w, w.writer.value))
  {
    var a := w.writer.value;
    PromisedFacts(g, w, w.begun);
    match a.phase
    case HeaderWritten => PromiseGrows(w.promised, w.begun, []);
    case FooterWritten =>
    case _ => PromiseGrows(w.promised, w.top, a.frames);
  }

  lemma {:induction false} StepExtends(g: Geometry, w: World, e: Event)
    requires ValidGeometry(g) && Inv(g, w) && Enabled(g, w, e)
    ensures Extends(w, Next(g, w, e))
  {
    match e
    case Open(id) => OpenExtends(g, w, id);
    case Flush => FlushExtends(g, w);
    case _ => assert Next(g, w, e).promised == w.promised;
  }
}
