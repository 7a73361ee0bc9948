/**
  The index of a sealed partition.  Unless a crash interrupted a seal between its writes and its flush,
  every partition that carries a footer also carries the index the footer vouches for; an empty
  partition is sealed without one.
 */
module Sealing {
  import opened Media
  import opened Recovery
  import opened Protocol
  import opened ProtocolSteps
  import opened CrashSafety

  /** Some part of a seal was written and not yet flushed. */
  ghost predicate SealPending(w: World) {
    exists i :: 0 <= i < |w.dirty| && (w.dirty[i].place.IndexAt? || w.dirty[i].place.FooterAt?)
  }

  ghost predicate UninterruptedAt(g: Geometry, es: seq<Event>, i: nat)
    requires ValidGeometry(g) && i < |es|
  {
    es[i].Crash? ==> !SealPending(Reach(g, es[..i]))
  }

  /** No crash of the run fell between the writes of a seal and their flush. */
  ghost predicate Uninterrupted(g: Geometry, es: seq<Event>)
    requires ValidGeometry(g)
  {
    forall i {:trigger UninterruptedAt(g, es, i)} :: 0 <= i < |es| ==> UninterruptedAt(g, es, i)
  }

  lemma {:induction false} SmoothIsUninterrupted(g: Geometry, es: seq<Event>)
    requires ValidGeometry(g) && AllSmooth(g, es)
    ensures Uninterrupted(g, es)
  {
    forall i | 0 <= i < |es|
      ensures UninterruptedAt(g, es, i)
    {
      assert SmoothAt(g, es, i);
    }
  }

  // ------------------------------------------------------------- invariant

  predicate IndexIntact(g: Geometry, image: Image, n: nat, frames: seq<Frame>)
    requires ValidGeometry(g) && n > 0
  {
    frames == [] || Get(image, IndexAt(SlotOf(g, n))) == IndexCell(EntriesOf(frames))
  }

  predicate SealedWhole(g: Geometry, promised: map<nat, seq<Frame>>, image: Image, n: nat)
    requires ValidGeometry(g) && n > 0
  {
    Unsealed(g, n, image) || IndexIntact(g, image, n, Promised(promised, n))
  }

  /** Every retained generation that has a footer has its index. */
  ghost predicate AllWhole(g: Geometry, top: nat, promised: map<nat, seq<Frame>>, image: Image)
    requires ValidGeometry(g)
  {
    forall n: nat {:trigger SealedWhole(g, promised, image, n)} ::
      1 <= n <= top && n + g.partitions > top ==> SealedWhole(g, promised, image, n)
  }

  ghost predicate Indexed(g: Geometry, w: World)
    requires ValidGeometry(g)
  {
    && AllWhole(g, w.top, w.promised, w.durable) && AllWhole(g, w.top, w.promised, w.volatile)
    && (w.writer.Some? && w.writer.value.phase == IndexWritten && w.top > 0 ==>
          IndexIntact(g, w.volatile, w.top, w.writer.value.frames))
  }

  lemma {:induction false} SameSeals(g: Geometry, top: nat, promised: map<nat, seq<Frame>>, image: Image, after: Image)
    requires ValidGeometry(g) && AllWhole(g, top, promised, image)
    requires forall s: nat :: Get(after, IndexAt(s)) == Get(image, IndexAt(s))
    requires forall s: nat :: Get(after, FooterAt(s)) == Get(image, FooterAt(s))
    ensures AllWhole(g, top, promised, after)
  {
    forall n: nat | 1 <= n <= top && n + g.partitions > top
      ensures SealedWhole(g, promised, after, n)
    {
      assert SealedWhole(g, promised, image, n);
    }
  }

  /** Writes of frames and headers. */
  lemma {:induction false} OtherWriteKeeps(g: Geometry, w: World, d: Write, after: Image, ok: bool)
    requires ValidGeometry(g) && AllWhole(g, w.top, w.promised, w.volatile)
    requires Arrives(w.volatile, d, after, ok) && !d.place.IndexAt? && !d.place.FooterAt?
    ensures AllWhole(g, w.top, w.promised, after)
  {
    forall s: nat
      ensures Get(after, IndexAt(s)) == Get(w.volatile, IndexAt(s))
      ensures Get(after, FooterAt(s)) == Get(w.volatile, FooterAt(s))
    {
      ArrivesElsewhere(w.volatile, d, after, ok, IndexAt(s));
      ArrivesElsewhere(w.volatile, d, after, ok, FooterAt(s));
    }
    SameSeals(g, w.top, w.promised, w.volatile, after);
  }

  /** A write to the seal of the active partition leaves the other seals whole. */
  lemma {:induction false} OtherSealWhole(g: Geometry, top: nat, promised: map<nat, seq<Frame>>, image: Image, d: Write,
                                          after: Image, ok: bool, n: nat)
    requires ValidGeometry(g) && 1 <= n < top < n + g.partitions && SealedWhole(g, promised, image, n)
    requires Arrives(image, d, after, ok) && d.place in {IndexAt(SlotOf(g, top)), FooterAt(SlotOf(g, top))}
    ensures SealedWhole(g, promised, after, n)
  {
    SlotsDiffer(g, n, top);
    ArrivesElsewhere(image, d, after, ok, IndexAt(SlotOf(g, n)));
    ArrivesElsewhere(image, d, after, ok, FooterAt(SlotOf(g, n)));
  }

  lemma {:induction false} IndexWriteWhole(g: Geometry, top: nat, promised: map<nat, seq<Frame>>, image: Image,
                                           d: Write, after: Image, ok: bool)
    requires ValidGeometry(g) && AllWhole(g, top, promised, image) && top > 0 && Unsealed(g, top, image)
    requires Arrives(image, d, after, ok) && d.place == IndexAt(SlotOf(g, top))
    ensures AllWhole(g, top, promised, after)
  {
    forall n: nat | 1 <= n <= top && n + g.partitions > top
      ensures SealedWhole(g, promised, after, n)
    {
      assert SealedWhole(g, promised, image, n);
      if n < top {
        OtherSealWhole(g, top, promised, image, d, after, ok, n);
      } else {
        ArrivesElsewhere(image, d, after, ok, FooterAt(SlotOf(g, n)));
      }
    }
  }

  lemma {:induction false} IndexWriteKeeps(g: Geometry, w: World, after: Image, ok: bool)
    requires ValidGeometry(g) && Indexed(g, w) && WriterOk(g, w) && Enabled(g, w, WriteIndex(after, ok))
    ensures Indexed(g, Next(g, w, WriteIndex(after, ok)))
  {
    var d := IndexWrite(g, w);
    IndexWriteWhole(g, w.top, w.promised, w.volatile, d, after, ok);
    WrittenAt(w.volatile, d, d.place);
  }

  lemma {:induction false} FooterWriteWhole(g: Geometry, top: nat, promised: map<nat, seq<Frame>>, image: Image,
                                            d: Write, after: Image, ok: bool)
    requires ValidGeometry(g) && AllWhole(g, top, promised, image) && top > 0
    requires IndexIntact(g, image, top, Promised(promised, top))
    requires Arrives(image, d, after, ok) && d.place == FooterAt(SlotOf(g, top))
    ensures AllWhole(g, top, promised, after)
  {
    forall n: nat | 1 <= n <= top && n + g.partitions > top
      ensures SealedWhole(g, promised, after, n)
    {
      assert SealedWhole(g, promised, image, n);
      if n < top {
        OtherSealWhole(g, top, promised, image, d, after, ok, n);
      } else {
        ArrivesElsewhere(image, d, after, ok, IndexAt(SlotOf(g, n)));
      }
    }
  }

  lemma {:induction false} FooterWriteKeeps(g: Geometry, w: World, after: Image, ok: bool)
    requires ValidGeometry(g) && Indexed(g, w) && WriterOk(g, w) && Enabled(g, w, WriteFooter(after, ok))
    ensures Indexed(g, Next(g, w, WriteFooter(after, ok)))
  {
    FooterWriteWhole(g, w.top, w.promised, w.volatile, FooterWrite(g, w), after, ok);
  }

  /** Promising what is there, when the active partition carries no footer or nothing new is promised. */
  lemma {:induction false} PromiseKeeps(g: Geometry, top: nat, promised: map<nat, seq<Frame>>, image: Image,
                                        frames: seq<Frame>)
    requires ValidGeometry(g) && AllWhole(g, top, promised, image)
    requires top > 0 ==> Unsealed(g, top, image) || frames == Promised(promised, top)
    ensures AllWhole(g, top, promised[top := frames], image)
  {
    var more := promised[top := frames];
    forall n: nat | 1 <= n <= top && n + g.partitions > top
      ensures SealedWhole(g, more, image, n)
    {
      assert SealedWhole(g, promised, image, n);
    }
  }

  lemma {:induction false} AdvanceKeeps(g: Geometry, top: nat, promised: map<nat, seq<Frame>>, image: Image)
    requires ValidGeometry(g) && AllWhole(g, top, promised, image) && Unsealed(g, top + 1, image)
    ensures AllWhole(g, top + 1, promised[top + 1 := []], image)
  {
    var more := promised[top + 1 := []];
    forall n: nat | 1 <= n <= top + 1 && n + g.partitions > top + 1
      ensures SealedWhole(g, more, image, n)
    {
      if n <= top {
        assert SealedWhole(g, promised, image, n);
      }
    }
  }

  lemma {:induction false} NewestUnsealed(g: Geometry, w: World, image: Image)
    requires ValidGeometry(g) && FootersOk(g, w.top, w.promised, image)
    ensures Unsealed(g, w.top + 1, image)
  {
    var s := SlotOf(g, w.top + 1);
    assert FooterPlaceOk(g, w.top, w.promised, s, Get(image, FooterAt(s)));
  }

  /** What the phases of a writer say about seals. */
  lemma {:induction false} FlushSeals(g: Geometry, w: World)
    requires ValidGeometry(g) && Inv(g, w) && w.writer.Some?
    ensures var a := w.writer.value;
            && (a.phase == HeaderWritten ==> w.begun == w.top + 1 && Unsealed(g, w.top + 1, w.volatile))
            && (a.phase != HeaderWritten && a.phase != FooterWritten && w.top > 0 ==>
                  Unsealed(g, w.top, w.volatile) || a.frames == Promised(w.promised, w.top))
  {
    CrashRecoverable(g, w, w.volatile);
    NewestUnsealed(g, w, w.volatile);
  }

  lemma {:induction false} FlushIndexed(g: Geometry, w: World)
    requires ValidGeometry(g) && Indexed(g, w) && w.writer.Some?
    requires var a := w.writer.value;
             && (a.phase == HeaderWritten ==> w.begun == w.top + 1 && Unsealed(g, w.top + 1, w.volatile))
             && (a.phase != HeaderWritten && a.phase != FooterWritten && w.top > 0 ==>
                   Unsealed(g, w.top, w.volatile) || a.frames == Promised(w.promised, w.top))
    ensures Indexed(g, Flushed(w, w.writer.value))
  {
    match w.writer.value.phase
    case HeaderWritten => AdvanceKeeps(g, w.top, w.promised, w.volatile);
    case FooterWritten =>
    case _ => PromiseKeeps(g, w.top, w.promised, w.volatile, w.writer.value.frames);
  }

  lemma {:induction false} CrashIndexed(g: Geometry, w: World, after: Image)
    requires ValidGeometry(g) && Indexed(g, w) && !SealPending(w) && CrashImage(w.durable, w.dirty, after)
    ensures Indexed(g, Next(g, w, Crash(after)))
  {
    forall s: nat
      ensures Get(after, IndexAt(s)) == Get(w.durable, IndexAt(s))
      ensures Get(after, FooterAt(s)) == Get(w.durable, FooterAt(s))
    {
      assert CrashCell(Get(w.durable, IndexAt(s)), w.dirty, IndexAt(s), Get(after, IndexAt(s)));
      assert CrashCell(Get(w.durable, FooterAt(s)), w.dirty, FooterAt(s), Get(after, FooterAt(s)));
    }
    SameSeals(g, w.top, w.promised, w.durable, after);
  }

  /** What opening recovers, as far as seals are concerned. */
  lemma {:induction false} OpenSeals(g: Geometry, w: World, id: nat)
    requires ValidGeometry(g) && Inv(g, w) && Enabled(g, w, Open(id))
    ensures var a, t := RecoveredWriter(g, w, id), NewestOnMedia(g, w);
            && a.phase != IndexWritten
            && (t > w.top ==> t == w.top + 1 && a.frames == [])
            && (t <= w.top ==> t == w.top)
            && (t == w.top > 0 ==> Unsealed(g, t, w.durable) || a.frames == Promised(w.promised, t))
  {
    if NewestOnMedia(g, w) > w.top {
      OpenAtBegun(g, w, id);
    } else if w.top > 0 {
      assert IsHeader(g, Get(w.durable, HeaderAt(SlotOf(g, w.top))), w.top);
      NewestSealed(g, w, w.durable, RecoveredHeader(g, w));
    }
  }

  lemma {:induction false} OpenIndexed(g: Geometry, w: World, id: nat)
    requires ValidGeometry(g) && AllWhole(g, w.top, w.promised, w.durable) && w.volatile == w.durable
    requires Unsealed(g, w.top + 1, w.durable)
    requires var a, t := RecoveredWriter(g, w, id), NewestOnMedia(g, w);
             && a.phase != IndexWritten
             && (t > w.top ==> t == w.top + 1 && a.frames == [])
             && (t <= w.top ==> t == w.top)
             && (t == w.top > 0 ==> Unsealed(g, t, w.durable) || a.frames == Promised(w.promised, t))
    ensures Indexed(g, Opened(g, w, id))
  {
    if NewestOnMedia(g, w) > w.top {
      AdvanceKeeps(g, w.top, w.promised, w.durable);
    } else {
      PromiseKeeps(g, w.top, w.promised, w.durable, RecoveredWriter(g, w, id).frames);
    }
  }

  lemma {:induction false} StepIndexed(g: Geometry, w: World, e: Event)
    requires ValidGeometry(g) && Inv(g, w) && Indexed(g, w) && Enabled(g, w, e)
    requires e.Crash? ==> !SealPending(w)
    ensures Indexed(g, Next(g, w, e))
  {
    match e
    case Emit(f, after, ok) => OtherWriteKeeps(g, w, FrameWrite(w, f), after, ok);
    case WriteHeader(h, after, ok) => OtherWriteKeeps(g, w, HeaderWrite(h), after, ok);
    case WriteIndex(after, ok) => IndexWriteKeeps(g, w, after, ok);
    case WriteFooter(after, ok) => FooterWriteKeeps(g, w, after, ok);
    case Flush =>
      FlushSeals(g, w);
      FlushIndexed(g, w);
    case Abandon =>
    case Crash(after) => CrashIndexed(g, w, after);
    case Open(id) =>
      OpenSeals(g, w, id);
      NewestUnsealed(g, w, w.durable);
      OpenIndexed(g, w, id);
  }

  lemma {:induction false} UninterruptedPrefix(g: Geometry, es: seq<Event>, i: nat)
    requires ValidGeometry(g) && Uninterrupted(g, es) && i <= |es|
    ensures Uninterrupted(g, es[..i])
  {
    var head := es[..i];
    forall j | 0 <= j < i
      ensures UninterruptedAt(g, head, j)
    {
      assert UninterruptedAt(g, es, j);
      assert head[..j] == es[..j];
    }
  }

  lemma {:induction false} ReachIndexed(g: Geometry, es: seq<Event>)
    requires ValidGeometry(g) && Legal(g, es) && Uninterrupted(g, es)
    ensures Indexed(g, Reach(g, es))
    decreases |es|
  {
    if es != [] {
      var n := |es| - 1;
      LegalPrefix(g, es, n);
      UninterruptedPrefix(g, es, n);
      ReachIndexed(g, es[..n]);
      ReachInv(g, es[..n]);
      assert LegalAt(g, es, n) && UninterruptedAt(g, es, n);
      StepIndexed(g, Reach(g, es[..n]), es[n]);
    }
  }

  /**
    After any run in which no crash interrupted a seal, every retained generation with a successor is
    empty or has its index on the media.
   */
  lemma {:induction false} SealedIndexIntact(g: Geometry, es: seq<Event>, n: nat)
    requires ValidGeometry(g) && Legal(g, es) && Uninterrupted(g, es)
    requires 1 <= n < Reach(g, es).begun && n <= Reach(g, es).top && n + g.partitions > Reach(g, es).top
    ensures IndexIntact(g, Reach(g, es).volatile, n, Promised(Reach(g, es).promised, n))
    ensures IndexIntact(g, Reach(g, es).durable, n, Promised(Reach(g, es).promised, n))
  {
    var w := Reach(g, es);
    ReachInv(g, es);
    ReachIndexed(g, es);
    CrashRecoverable(g, w, w.volatile);
    assert !Unsealed(g, n, w.durable) && !Unsealed(g, n, w.volatile);
    assert SealedWhole(g, w.promised, w.durable, n) && SealedWhole(g, w.promised, w.volatile, n);
  }
}
