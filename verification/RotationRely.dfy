/**
  Why readers may rely on what they rely on: under every continuation by a live writer, a
  catalog entry copied from it stays stable for as long as its header is in force.
 */
module RotationRely {
  import opened Bytes
  import opened Media
  import opened Recovery
  import opened Protocol
  import opened ProtocolSteps
  import opened CrashSafety
  import opened ReaderRace

  /** The snapshot was copied from this writer, or from an earlier moment of it. */
  ghost predicate Consistent(g: Geometry, w: World, p: Snapshot, t: Truth)
    requires ValidGeometry(g)
  {
    var n, slot := p.header.generation, p.header.slot;
    && 1 <= n <= w.top && slot == SlotOf(g, n)
    && t.frames <= LogOf(w, n) && Chained(w.issued, n, t.frames)
    && Get(w.volatile, HeaderAt(slot)).HeaderCell? && GenerationIn(w.volatile, slot) >= n
    && (if p.sealed then p.footer == FooterOf(g, n, t.frames)
        else p.index == EntriesOf(t.frames) && p.writers == WritersOf(t.frames))
    && (p.sealed ==> n < w.top)
    && (p.sealed && InForce(w.volatile, p.header) ==> Get(w.volatile, IndexAt(slot)) == t.index)
  }

  /** The catalog entry of the active partition is consistent when it is copied. */
  lemma {:induction false} ActiveEntryConsistent(g: Geometry, es: seq<Event>, p: Snapshot)
    requires ValidGeometry(g) && Legal(g, es)
    requires var w := Reach(g, es); w.writer.Some? && w.writer.value.phase == Active && p.header.generation == w.top > 0
    requires p.header.slot == SlotOf(g, Reach(g, es).top) && !p.sealed
    requires p.index == EntriesOf(Reach(g, es).writer.value.frames)
    requires p.writers == WritersOf(Reach(g, es).writer.value.frames)
    ensures Consistent(g, Reach(g, es), p, Truth(Reach(g, es).writer.value.frames, Blank))
  {
    var w := Reach(g, es);
    ReachInv(g, es);
    CrashHeaders(g, w, w.volatile);
    assert IsHeader(g, Get(w.volatile, HeaderAt(SlotOf(g, w.top))), w.top);
  }

  /** So is that of a retained older partition, whatever became of its index. */
  lemma {:induction false} SealedEntryConsistent(g: Geometry, es: seq<Event>, p: Snapshot, t: Truth)
    requires ValidGeometry(g) && Legal(g, es) && p.sealed
    requires var w := Reach(g, es); 1 <= p.header.generation < w.top && w.begun < p.header.generation + g.partitions
    requires p.header.slot == SlotOf(g, p.header.generation)
    requires t.frames == Promised(Reach(g, es).promised, p.header.generation)
    requires t.index == Get(Reach(g, es).volatile, IndexAt(p.header.slot))
    requires p.footer == FooterOf(g, p.header.generation, t.frames)
    ensures Consistent(g, Reach(g, es), p, t)
  {
    var w := Reach(g, es);
    ReachInv(g, es);
    CrashHeaders(g, w, w.volatile);
    PromisedFacts(g, w, p.header.generation);
    assert IsHeader(g, Get(w.volatile, HeaderAt(p.header.slot)), p.header.generation);
  }

  /** The steps of a live writer whose writes all succeed. */
  predicate Quiet(e: Event) {
    match e
    case Emit(_, _, ok) => ok
    case WriteIndex(_, ok) => ok
    case WriteFooter(_, ok) => ok
    case WriteHeader(_, _, ok) => ok
    case Flush => true
    case _ => false
  }

  lemma {:induction false} PlacedPrefix(image: Image, slot: nat, frames: seq<Frame>, head: seq<Frame>)
    requires Placed(image, slot, frames) && head <= frames
    ensures Placed(image, slot, head)
  {
    forall k | 0 <= k < |head|
      ensures Get(image, FrameAt(slot, DataEnd(head[..k]))) == FrameCell(head[k])
    {
      assert head[..k] == frames[..k];
    }
  }

  lemma {:induction false} LogPlaced(g: Geometry, w: World, n: nat)
    requires ValidGeometry(g) && Inv(g, w) && 1 <= n <= w.top && n + g.partitions > w.top
    ensures Placed(w.volatile, SlotOf(g, n), LogOf(w, n))
  {
    CrashRecoverable(g, w, w.volatile);
    assert Placed(w.volatile, SlotOf(g, n), Promised(w.promised, n));
  }

  lemma {:induction false} ConsistentIsStable(g: Geometry, w: World, p: Snapshot, t: Truth)
    requires ValidGeometry(g) && Inv(g, w) && Consistent(g, w, p, t)
    ensures Stable(p, t, w.volatile)
  {
    var n, slot := p.header.generation, p.header.slot;
    if InForce(w.volatile, p.header) {
      CrashHeaders(g, w, w.volatile);
      assert HeaderPlaceOk(g, w.top, w.begun, slot, Get(w.volatile, HeaderAt(slot)));
      LogPlaced(g, w, n);
      PlacedPrefix(w.volatile, slot, LogOf(w, n), t.frames);
    }
  }

  lemma {:induction false} LogGrowsByFlush(g: Geometry, w: World, n: nat)
    requires ValidGeometry(g) && HistoryOk(g, w) && WriterOk(g, w) && w.writer.Some? && w.top <= w.begun
    requires 1 <= n <= w.top
    ensures LogOf(w, n) <= LogOf(Flushed(w, w.writer.value), n) && n <= Flushed(w, w.writer.value).top
  {
    match w.writer.value.phase
    case HeaderWritten =>
    case FooterWritten =>
    case _ =>
  }

  lemma {:induction false} LogGrowsByWrite(g: Geometry, w: World, e: Event, n: nat)
    requires ValidGeometry(g) && Enabled(g, w, e) && Quiet(e) && !e.Flush? && 1 <= n <= w.top
    ensures LogOf(w, n) <= LogOf(Next(g, w, e), n) && n <= Next(g, w, e).top
  {
  }

  /** The log of a generation only grows while the writer lives. */
  lemma {:induction false} LogGrows(g: Geometry, w: World, e: Event, n: nat)
    requires ValidGeometry(g) && Inv(g, w) && Enabled(g, w, e) && Quiet(e) && 1 <= n <= w.top
    ensures LogOf(w, n) <= LogOf(Next(g, w, e), n) && n <= Next(g, w, e).top
  {
    if e.Flush? {
      LogGrowsByFlush(g, w, n);
    } else {
      LogGrowsByWrite(g, w, e, n);
    }
  }

  /** Which write, if any, a quiet step puts in force. */
  function WriteOf(g: Geometry, w: World, e: Event): Option<Write>
    requires ValidGeometry(g) && w.writer.Some?
  {
    match e
    case Emit(f, _, _) => Some(FrameWrite(w, f))
    case WriteIndex(_, _) => if w.top > 0 then Some(IndexWrite(g, w)) else None
    case WriteFooter(_, _) => if w.top > 0 then Some(FooterWrite(g, w)) else None
    case WriteHeader(h, _, _) => Some(HeaderWrite(h))
    case _ => None
  }

  lemma {:induction false} QuietVolatile(g: Geometry, w: World, e: Event, p: Place)
    requires ValidGeometry(g) && Enabled(g, w, e) && Quiet(e) && !p.FrameAt?
    ensures w.writer.Some?
    ensures Get(Next(g, w, e).volatile, p) ==
            if WriteOf(g, w, e).Some? && WriteOf(g, w, e).value.place == p then WriteOf(g, w, e).value.cell
            else Get(w.volatile, p)
  {
    if WriteOf(g, w, e).Some? {
      WrittenAt(w.volatile, WriteOf(g, w, e).value, p);
    }
  }

  /** A slot's generation only grows while the writer lives, and only a header write changes it. */
  lemma {:induction false} GenerationGrows(g: Geometry, w: World, e: Event, s: nat)
    requires ValidGeometry(g) && Inv(g, w) && Enabled(g, w, e) && Quiet(e)
    ensures GenerationIn(w.volatile, s) <= GenerationIn(Next(g, w, e).volatile, s)
    ensures Get(w.volatile, HeaderAt(s)).HeaderCell? ==> Get(Next(g, w, e).volatile, HeaderAt(s)).HeaderCell?
    ensures Get(w.volatile, HeaderAt(s)).HeaderCell? ==> w.top < GenerationIn(w.volatile, s) + g.partitions
  {
    QuietVolatile(g, w, e, HeaderAt(s));
    CrashHeaders(g, w, w.volatile);
    assert HeaderPlaceOk(g, w.top, w.begun, s, Get(w.volatile, HeaderAt(s)));
  }

  /** The index of a sealed partition is not rewritten while its header is in force. */
  lemma {:induction false} IndexKept(g: Geometry, w: World, e: Event, p: Snapshot, t: Truth)
    requires ValidGeometry(g) && Inv(g, w) && Enabled(g, w, e) && Quiet(e) && Consistent(g, w, p, t)
    requires p.sealed && InForce(Next(g, w, e).volatile, p.header)
    ensures Get(Next(g, w, e).volatile, IndexAt(p.header.slot)) == t.index
  {
    GenerationGrows(g, w, e, p.header.slot);
    QuietVolatile(g, w, e, IndexAt(p.header.slot));
    SlotsDiffer(g, p.header.generation, w.top);
  }

  lemma {:induction false} ConsistentKept(g: Geometry, w: World, e: Event, p: Snapshot, t: Truth)
    requires ValidGeometry(g) && Inv(g, w) && Enabled(g, w, e) && Quiet(e) && Consistent(g, w, p, t)
    ensures Consistent(g, Next(g, w, e), p, t)
  {
    LogGrows(g, w, e, p.header.generation);
    StepExtends(g, w, e);
    ChainedGrows(w.issued, Next(g, w, e).issued, p.header.generation, t.frames);
    GenerationGrows(g, w, e, p.header.slot);
    if p.sealed && InForce(Next(g, w, e).volatile, p.header) {
      IndexKept(g, w, e, p, t);
    }
  }

  // ------------------------------------------------------------ whole runs

  predicate AllQuiet(more: seq<Event>) {
    forall i :: 0 <= i < |more| ==> Quiet(more[i])
  }

  /** One step of a continuation, between two of the worlds it passes through. */
  ghost predicate Steps(g: Geometry, w: World, e: Event, w': World)
    requires ValidGeometry(g)
  {
    forall k {:trigger Unfold(k)} :: Unfold(k) ==> Inv(g, w) && Enabled(g, w, e) && Quiet(e) && w' == Next(g, w, e)
  }

  ghost predicate Sound(g: Geometry, w: World)
    requires ValidGeometry(g)
  {
    forall k {:trigger Unfold(k)} :: Unfold(k) ==> Inv(g, w)
  }

  /** The worlds of a continuation, one after the other. */
  ghost predicate Path(g: Geometry, ws: seq<World>, more: seq<Event>)
    requires ValidGeometry(g) && |ws| == |more| + 1
  {
    var n := |more|;
    && Sound(g, ws[n])
    && (n > 0 ==> Path(g, ws[..n], more[..n - 1]) && Steps(g, ws[n - 1], more[n - 1], ws[n]))
  }

  lemma {:induction false} ConsistentAtEnd(g: Geometry, ws: seq<World>, more: seq<Event>, p: Snapshot,
                                           t: Truth)
    requires ValidGeometry(g) && |ws| == |more| + 1 && Path(g, ws, more) && more != []
    requires Consistent(g, ws[|more| - 1], p, t)
    ensures Consistent(g, ws[|more|], p, t)
  {
    assert Unfold(0);
    ConsistentKept(g, ws[|more| - 1], more[|more| - 1], p, t);
  }

  lemma {:induction false} GenerationAtEnd(g: Geometry, ws: seq<World>, more: seq<Event>, s: nat)
    requires ValidGeometry(g) && |ws| == |more| + 1 && Path(g, ws, more) && more != []
    ensures GenerationIn(ws[|more| - 1].volatile, s) <= GenerationIn(ws[|more|].volatile, s)
  {
    assert Unfold(0);
    GenerationGrows(g, ws[|more| - 1], more[|more| - 1], s);
  }

  lemma {:induction false} StableAtEnd(g: Geometry, ws: seq<World>, more: seq<Event>, p: Snapshot, t: Truth)
    requires ValidGeometry(g) && |ws| == |more| + 1 && Path(g, ws, more) && Consistent(g, ws[|more|], p, t)
    ensures Stable(p, t, ws[|more|].volatile)
    ensures var issued := ws[|more|].issued;
            Ledger(g, issued) && Chained(issued, p.header.generation, t.frames) && Fits(g, t.frames)
  {
    assert Unfold(0);
    ConsistentIsStable(g, ws[|more|], p, t);
    ChainedFits(g, ws[|more|].issued, p.header.generation, t.frames);
  }

  lemma {:induction false} ConsistentThroughout(g: Geometry, ws: seq<World>, more: seq<Event>, p: Snapshot,
                                                t: Truth, k: nat)
    requires ValidGeometry(g) && |ws| == |more| + 1 && Path(g, ws, more) && k < |ws| && Consistent(g, ws[0], p, t)
    ensures Consistent(g, ws[k], p, t)
    decreases |more|
  {
    var n := |more|;
    if n > 0 {
      ConsistentThroughout(g, ws[..n], more[..n - 1], p, t, if k < n then k else n - 1);
      if k == n {
        ConsistentAtEnd(g, ws, more, p, t);
      }
    }
  }

  lemma {:induction false} GenerationsForward(g: Geometry, ws: seq<World>, more: seq<Event>, s: nat, i: nat, j: nat)
    requires ValidGeometry(g) && |ws| == |more| + 1 && Path(g, ws, more) && i <= j < |ws|
    ensures GenerationIn(ws[i].volatile, s) <= GenerationIn(ws[j].volatile, s)
    decreases |more|
  {
    var n := |more|;
    if i < n {
      GenerationsForward(g, ws[..n], more[..n - 1], s, i, if j < n then j else n - 1);
      GenerationAtEnd(g, ws, more, s);
    }
  }

  lemma {:induction false} StableOnPath(g: Geometry, ws: seq<World>, more: seq<Event>, p: Snapshot,
                                        t: Truth, k: nat)
    requires ValidGeometry(g) && |ws| == |more| + 1 && Path(g, ws, more) && k < |ws| && Consistent(g, ws[0], p, t)
    ensures Stable(p, t, ws[k].volatile)
    decreases |more|
  {
    var n := |more|;
    if k < n {
      StableOnPath(g, ws[..n], more[..n - 1], p, t, k);
    } else {
      ConsistentThroughout(g, ws, more, p, t, n);
      StableAtEnd(g, ws, more, p, t);
    }
  }

  lemma {:induction false} TruthOnPath(g: Geometry, ws: seq<World>, more: seq<Event>, p: Snapshot, t: Truth)
    requires ValidGeometry(g) && |ws| == |more| + 1 && Path(g, ws, more) && Consistent(g, ws[0], p, t)
    ensures Ledger(g, ws[|more|].issued) && Chained(ws[|more|].issued, p.header.generation, t.frames)
    ensures DataEnd(t.frames) <= g.indexBegin && |t.frames| <= g.indexCapacity
  {
    ConsistentThroughout(g, ws, more, p, t, |more|);
    StableAtEnd(g, ws, more, p, t);
  }

  // ------------------------------------------------------------------- readers

  /** The reader's i-th read begins after `when(i)` events of the continuation. */
  ghost predicate ObservesPath(ws: seq<World>, when: nat -> nat, at: nat -> Image) {
    && (forall i: nat {:trigger at(i)} {:trigger when(i)} :: when(i) < |ws| && at(i) == ws[when(i)].volatile)
    && (forall i: nat, j: nat :: i <= j ==> when(i) <= when(j))
  }

  lemma {:induction false} ReadsForward(g: Geometry, ws: seq<World>, more: seq<Event>, when: nat -> nat,
                                        at: nat -> Image, s: nat)
    requires ValidGeometry(g) && |ws| == |more| + 1 && Path(g, ws, more) && ObservesPath(ws, when, at)
    ensures Forward(at, s)
  {
    forall i: nat, j: nat | i <= j
      ensures GenerationIn(at(i), s) <= GenerationIn(at(j), s)
    {
      assert at(i) == ws[when(i)].volatile && at(j) == ws[when(j)].volatile;
      GenerationsForward(g, ws, more, s, when(i), when(j));
    }
  }

  lemma {:induction false} WatchedOnPath(g: Geometry, ws: seq<World>, more: seq<Event>, when: nat -> nat,
                                         at: nat -> Image,
                                         p: Snapshot, t: Truth)
    requires ValidGeometry(g) && |ws| == |more| + 1 && Path(g, ws, more) && ObservesPath(ws, when, at)
    requires Consistent(g, ws[0], p, t)
    ensures Watched(g, ws[|more|].issued, at, p, t)
  {
    TruthOnPath(g, ws, more, p, t);
    ReadsForward(g, ws, more, when, at, p.header.slot);
    forall i: nat
      ensures Stable(p, t, at(i))
    {
      assert at(i) == ws[when(i)].volatile;
      StableOnPath(g, ws, more, p, t, when(i));
    }
  }

  /** The worlds a writer passes through as it takes the given steps. */
  function Trace(g: Geometry, w: World, more: seq<Event>): (ws: seq<World>)
    requires ValidGeometry(g)
    ensures |ws| == |more| + 1
  {
    if more == [] then [w]
    else
      var n := |more| - 1;
      var init := Trace(g, w, more[..n]);
      init + [Next(g, init[n], more[n])]
  }

  lemma {:induction false} TraceBegins(g: Geometry, w: World, more: seq<Event>)
    requires ValidGeometry(g)
    ensures Trace(g, w, more)[0] == w
    decreases |more|
  {
    if more != [] {
      TraceBegins(g, w, more[..|more| - 1]);
    }
  }

  lemma {:induction false} TraceEnds(g: Geometry, es: seq<Event>, more: seq<Event>)
    requires ValidGeometry(g)
    ensures Trace(g, Reach(g, es), more)[|more|] == Reach(g, es + more)
    decreases |more|
  {
    if more == [] {
      assert es + more == es;
    } else {
      var n := |more| - 1;
      TraceEnds(g, es, more[..n]);
      ReachSnoc(g, es + more[..n], more[n]);
      assert es + more == (es + more[..n]) + [more[n]];
    }
  }

  lemma {:induction false} PathSnoc(g: Geometry, ws: seq<World>, more: seq<Event>, e: Event, w': World)
    requires ValidGeometry(g) && |ws| == |more| + 1 && Path(g, ws, more) && Steps(g, ws[|more|], e, w') && Sound(g, w')
    ensures Path(g, ws + [w'], more + [e])
  {
    assert (ws + [w'])[..|ws|] == ws && (more + [e])[..|more|] == more;
  }

  lemma {:induction false} LastStep(g: Geometry, es: seq<Event>, e: Event)
    requires ValidGeometry(g) && Legal(g, es + [e]) && Quiet(e)
    ensures Legal(g, es) && Steps(g, Reach(g, es), e, Next(g, Reach(g, es), e)) && Sound(g, Next(g, Reach(g, es), e))
  {
    var all := es + [e];
    assert all[..|es|] == es && all[|es|] == e;
    RunAt(g, all, |es|);
    ReachInv(g, es);
    StepKeeps(g, Reach(g, es), e);
  }

  lemma {:induction false} TraceIsPath(g: Geometry, es: seq<Event>, more: seq<Event>)
    requires ValidGeometry(g) && Legal(g, es + more) && AllQuiet(more)
    ensures Path(g, Trace(g, Reach(g, es), more), more)
    decreases |more|
  {
    if more == [] {
      assert es + more == es;
      ReachInv(g, es);
    } else {
      var n := |more| - 1;
      var w, init := Reach(g, es), more[..n];
      assert es + more == (es + init) + [more[n]];
      LastStep(g, es + init, more[n]);
      TraceIsPath(g, es, init);
      TraceEnds(g, es, init);
      PathSnoc(g, Trace(g, w, init), init, more[n], Next(g, Reach(g, es + init), more[n]));
      assert more == init + [more[n]];
    }
  }

  ghost predicate Observes(g: Geometry, es: seq<Event>, more: seq<Event>, when: nat -> nat, at: nat -> Image)
    requires ValidGeometry(g)
  {
    ObservesPath(Trace(g, Reach(g, es), more), when, at)
  }

  /**
    The race is covered: whatever a live writer goes on to do, and whenever the reader's reads fall,
    a partition it copied from the catalog is watched in the sense queries rely on.
   */
  lemma {:induction false} RaceIsWatched(g: Geometry, es: seq<Event>, more: seq<Event>, when: nat -> nat,
                                         at: nat -> Image, p: Snapshot, t: Truth)
    requires ValidGeometry(g) && Legal(g, es + more) && AllQuiet(more) && Observes(g, es, more, when, at)
    requires Consistent(g, Reach(g, es), p, t)
    ensures Watched(g, Reach(g, es + more).issued, at, p, t)
  {
    TraceIsPath(g, es, more);
    TraceBegins(g, Reach(g, es), more);
    TraceEnds(g, es, more);
    WatchedOnPath(g, Trace(g, Reach(g, es), more), more, when, at, p, t);
  }
}
