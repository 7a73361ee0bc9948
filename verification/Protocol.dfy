/**
  The crash protocol of the ring store, at the granularity of single media operations.

  A world is the media together with what the current writer incarnation, if any, holds in
  memory.  Crashes, failed writes and reopenings are steps like any other.  What the steps
  assume of the environment:
  - after a crash each structure written since the last flush is old, new or torn;
  - a structure that passes its CRC at its place was issued for that place;
  - every writer incarnation draws an identifier never drawn before;
  - a store is reopened on a post-crash image, where volatile and durable media agree.
 */
module Protocol {
  import opened Bytes
  import opened Media
  import opened Recovery

  /** How far the active partition has got on its way to being replaced. */
  datatype Phase = Active | IndexWritten | FooterWritten | Sealed | HeaderWritten

  datatype Writer = Writer(id: nat, frames: seq<Frame>, phase: Phase)

  datatype World = World(
    durable: Image,
    volatile: Image,
    dirty: seq<Write>,
    writer: Option<Writer>,
    top: nat,                          // newest generation whose header is known to be durable
    begun: nat,                        // newest generation whose header write was issued
    promised: map<nat, seq<Frame>>,    // per generation, the frames known to be durable
    issued: set<Issue>,                // every frame ever issued
    ids: seq<nat>,                     // every writer identifier ever drawn, oldest first
    emitted: seq<Frame>                // every frame whose write succeeded, in order
  )

  function Fresh(): World {
    World(map[], map[], [], None, 0, 0, map[], {}, [], [])
  }

  function Promised(promised: map<nat, seq<Frame>>, generation: nat): seq<Frame> {
    if generation in promised then promised[generation] else []
  }

  // ---------------------------------------------------------------- invariant

  predicate IsHeader(g: Geometry, c: Cell, generation: nat)
    requires ValidGeometry(g) && generation > 0
  {
    c.HeaderCell? && c.header.generation == generation && c.header.slot == SlotOf(g, generation)
  }

  ghost predicate HeaderPlaceOk(g: Geometry, top: nat, begun: nat, s: nat, c: Cell)
    requires ValidGeometry(g)
  {
    match c
    case Blank => true
    case Torn => begun > top && s == SlotOf(g, begun)
    case HeaderCell(h) =>
      && 1 <= h.generation <= begun && h.generation + g.partitions > top
      && h.slot == s == SlotOf(g, h.generation)
    case _ => false
  }

  /** Headers in an image: the retained generations are there, and nothing but them. */
  ghost predicate HeadersOk(g: Geometry, top: nat, begun: nat, image: Image)
    requires ValidGeometry(g)
  {
    && (forall n: nat {:trigger SlotOf(g, n)} :: 1 <= n <= top && n + g.partitions > begun ==>
          IsHeader(g, Get(image, HeaderAt(SlotOf(g, n))), n))
    && (forall s: nat {:trigger HeaderAt(s)} :: HeaderPlaceOk(g, top, begun, s, Get(image, HeaderAt(s))))
  }

  /** A footer vouches for exactly what is promised of its generation. */
  ghost predicate FooterPlaceOk(g: Geometry, top: nat, promised: map<nat, seq<Frame>>, s: nat, c: Cell)
    requires ValidGeometry(g)
  {
    c.FooterCell? ==>
      && 1 <= c.footer.generation <= top && s == SlotOf(g, c.footer.generation)
      && c.footer == FooterOf(g, c.footer.generation, Promised(promised, c.footer.generation))
  }

  ghost predicate FootersOk(g: Geometry, top: nat, promised: map<nat, seq<Frame>>, image: Image)
    requires ValidGeometry(g)
  {
    forall s: nat {:trigger FooterAt(s)} :: FooterPlaceOk(g, top, promised, s, Get(image, FooterAt(s)))
  }

  /** What is promised of the generations still on the media is placed there. */
  ghost predicate PromisesPlaced(g: Geometry, top: nat, promised: map<nat, seq<Frame>>, image: Image)
    requires ValidGeometry(g)
  {
    forall n: nat {:trigger Promised(promised, n)} :: 1 <= n <= top && n + g.partitions > top ==>
      Placed(image, SlotOf(g, n), Promised(promised, n))
  }

  /** An image without a footer of this generation. */
  predicate Unsealed(g: Geometry, generation: nat, image: Image)
    requires ValidGeometry(g) && generation > 0
  {
    var c := Get(image, FooterAt(SlotOf(g, generation)));
    c.FooterCell? ==> c.footer.generation != generation
  }

  /** Every retained generation whose successor was begun carries its footer. */
  ghost predicate SealedBelow(g: Geometry, top: nat, begun: nat, image: Image)
    requires ValidGeometry(g)
  {
    forall n: nat {:trigger Unsealed(g, n, image)} :: 1 <= n <= top && n < begun && n + g.partitions > top ==>
      !Unsealed(g, n, image)
  }

  /** Everything recovery relies on. */
  ghost predicate Recoverable(g: Geometry, w: World, image: Image)
    requires ValidGeometry(g)
  {
    && HeadersOk(g, w.top, w.begun, image)
    && FootersOk(g, w.top, w.promised, image)
    && PromisesPlaced(g, w.top, w.promised, image)
    && FramesIssued(w.issued, image)
    && SealedBelow(g, w.top, w.begun, image)
  }

  /** What an unflushed write may be. */
  ghost predicate WriteOk(g: Geometry, top: nat, begun: nat, promised: map<nat, seq<Frame>>, issued: set<Issue>,
                          d: Write)
    requires ValidGeometry(g)
  {
    match d.place
    case FrameAt(slot, offset) =>
      && begun == top > 0 && slot == SlotOf(g, top) && offset >= DataEnd(Promised(promised, top))
      && d.cell.FrameCell? && IssuedAt(issued, d.place, d.cell.frame)
    case IndexAt(slot) =>
      && begun == top > 0 && slot == SlotOf(g, top)
      && d.cell.IndexCell? && |d.cell.entries| <= g.indexCapacity
    case FooterAt(slot) =>
      && begun == top > 0 && slot == SlotOf(g, top)
      && d.cell.FooterCell? && FooterPlaceOk(g, top, promised, slot, d.cell)
    case HeaderAt(slot) => begun == top + 1 && IsHeader(g, d.cell, begun) && slot == SlotOf(g, begun)
  }

  ghost predicate DirtyOk(g: Geometry, w: World)
    requires ValidGeometry(g)
  {
    forall i :: 0 <= i < |w.dirty| ==> WriteOk(g, w.top, w.begun, w.promised, w.issued, w.dirty[i])
  }

  /** Promised lists are true histories that fit their partition. */
  ghost predicate PromisesChained(g: Geometry, top: nat, promised: map<nat, seq<Frame>>, issued: set<Issue>)
    requires ValidGeometry(g)
  {
    forall n: nat {:trigger Promised(promised, n)} ::
      && Chained(issued, n, Promised(promised, n))
      && Fits(g, Promised(promised, n))
      && (n == 0 || n > top ==> Promised(promised, n) == [])
  }

  predicate Fits(g: Geometry, frames: seq<Frame>) {
    DataEnd(frames) <= g.indexBegin && |frames| <= g.indexCapacity
  }

  ghost predicate KnownIssues(issued: set<Issue>, top: nat, ids: seq<nat>) {
    forall i :: i in issued ==> i.frame.generation <= top && i.frame.writer in ids
  }

  ghost predicate HistoryOk(g: Geometry, w: World)
    requires ValidGeometry(g)
  {
    && Ledger(g, w.issued)
    && KnownIssues(w.issued, w.top, w.ids)
    && PromisesChained(g, w.top, w.promised, w.issued)
  }

  /** Whatever this incarnation issued lies before the position it will issue next. */
  ghost predicate IssuedBefore(issued: set<Issue>, id: nat, top: nat, frames: seq<Frame>) {
    forall i :: i in issued && i.frame.writer == id ==>
      i.frame.generation < top || (i.frame.generation == top && i.frame.sequence < |frames|)
  }

  ghost predicate PhaseOk(g: Geometry, w: World, a: Writer)
    requires ValidGeometry(g)
  {
    match a.phase
    case Active => w.begun == w.top > 0 && Unsealed(g, w.top, w.volatile)
    case IndexWritten =>
      w.begun == w.top > 0 && Unsealed(g, w.top, w.volatile) && Promised(w.promised, w.top) == a.frames
    case FooterWritten =>
      w.begun == w.top > 0 && !Unsealed(g, w.top, w.volatile) && Promised(w.promised, w.top) == a.frames
    case Sealed =>
      (w.top > 0 ==> !Unsealed(g, w.top, w.volatile)) && Promised(w.promised, w.top) == a.frames
    case HeaderWritten =>
      && w.begun > w.top && Promised(w.promised, w.top) == a.frames
      && IsHeader(g, Get(w.volatile, HeaderAt(SlotOf(g, w.begun))), w.begun)
  }

  ghost predicate WriterOk(g: Geometry, w: World)
    requires ValidGeometry(g)
  {
    w.writer.Some? ==>
      var a := w.writer.value;
      && a.id in w.ids && a.id != 0
      && Chained(w.issued, w.top, a.frames) && Fits(g, a.frames)
      && Promised(w.promised, w.top) <= a.frames
      && PhaseOk(g, w, a)
      && (w.top > 0 ==> Placed(w.volatile, SlotOf(g, w.top), a.frames))
      && IssuedBefore(w.issued, a.id, w.top, a.frames)
  }

  ghost predicate Inv(g: Geometry, w: World)
    requires ValidGeometry(g)
  {
    && w.top <= w.begun <= w.top + 1
    && Recoverable(g, w, w.durable)
    && DirtyOk(g, w)
    && CrashImage(w.durable, w.dirty, w.volatile)
    && HistoryOk(g, w)
    && WriterOk(g, w)
  }

  // -------------------------------------------------------------------- steps

  datatype Event =
    | Emit(frame: Frame, after: Image, ok: bool)
    | WriteIndex(after: Image, ok: bool)
    | WriteFooter(after: Image, ok: bool)
    | WriteHeader(header: Header, after: Image, ok: bool)
    | Flush
    | Abandon                 // a failed flush, a close, or the end of the process
    | Crash(after: Image)
    | Open(id: nat)

  /** A write that succeeded is in force; one that failed may have arrived in part. */
  ghost predicate Arrives(image: Image, d: Write, after: Image, ok: bool) {
    if ok then after == Written(image, d) else CrashImage(image, [d], after)
  }

  function FrameWrite(w: World, f: Frame): Write
    requires w.writer.Some?
  {
    Write(FrameAt(f.slot, DataEnd(w.writer.value.frames)), FrameCell(f))
  }

  function IndexWrite(g: Geometry, w: World): Write
    requires ValidGeometry(g) && w.writer.Some? && w.top > 0
  {
    Write(IndexAt(SlotOf(g, w.top)), IndexCell(EntriesOf(w.writer.value.frames)))
  }

  function FooterWrite(g: Geometry, w: World): Write
    requires ValidGeometry(g) && w.writer.Some? && w.top > 0
  {
    Write(FooterAt(SlotOf(g, w.top)), FooterCell(FooterOf(g, w.top, w.writer.value.frames)))
  }

  function HeaderWrite(h: Header): Write {
    Write(HeaderAt(h.slot), HeaderCell(h))
  }

  /** The newest generation whose header is on the media when a store is opened. */
  function NewestOnMedia(g: Geometry, w: World): nat
    requires ValidGeometry(g)
  {
    if w.begun > 0 && IsHeader(g, Get(w.durable, HeaderAt(SlotOf(g, w.begun))), w.begun) then w.begun else w.top
  }

  function RecoveredHeader(g: Geometry, w: World): Header
    requires ValidGeometry(g)
  {
    var t := NewestOnMedia(g, w);
    var c := if t > 0 then Get(w.durable, HeaderAt(SlotOf(g, t))) else Blank;
    if c.HeaderCell? then c.header else Header(0, 0, PartitionOptions(0, 0, 0))
  }

  /** Which frames a writable open finds in the newest generation, and whether it is sealed. */
  function RecoveredWriter(g: Geometry, w: World, id: nat): Writer
    requires ValidGeometry(g)
  {
    var h := RecoveredHeader(g, w);
    if h.generation == 0 then Writer(id, [], Sealed)
    else
      match ReadFooter(g, w.durable, h)
      case Some(ft) => Writer(id, Scan(g, w.durable, h, ft.dataEnd, []), Sealed)
      case None => Writer(id, Scan(g, w.durable, h, g.indexBegin, []), Active)
  }

  ghost predicate Enabled(g: Geometry, w: World, e: Event)
    requires ValidGeometry(g)
  {
    match e
    case Emit(f, after, ok) =>
      && w.writer.Some? && w.writer.value.phase == Active && w.top > 0
      && var a := w.writer.value;
      && f.generation == w.top && f.writer == a.id && IssueOk(g, Issue(f, a.frames))
      && Arrives(w.volatile, FrameWrite(w, f), after, ok)
    case WriteIndex(after, ok) =>
      && w.writer.Some? && w.writer.value.phase == Active && w.top > 0
      && Promised(w.promised, w.top) == w.writer.value.frames
      && Arrives(w.volatile, IndexWrite(g, w), after, ok)
    case WriteFooter(after, ok) =>
      && w.writer.Some? && w.top > 0
      && (w.writer.value.phase == IndexWritten || (w.writer.value.phase == Active && w.writer.value.frames == []))
      && Arrives(w.volatile, FooterWrite(g, w), after, ok)
    case WriteHeader(h, after, ok) =>
      && w.writer.Some? && w.writer.value.phase == Sealed && w.dirty == []
      && h.generation == w.top + 1 && h.slot == SlotOf(g, w.top + 1)
      && Arrives(w.volatile, HeaderWrite(h), after, ok)
    case Flush => w.writer.Some?
    case Abandon => w.writer.Some?
    case Crash(after) => CrashImage(w.durable, w.dirty, after)
    case Open(id) => w.writer.None? && w.dirty == [] && w.volatile == w.durable && id != 0 && id !in w.ids
  }

  function Attempt(w: World, d: Write, after: Image, writer: Option<Writer>): World {
    w.(volatile := after, dirty := w.dirty + [d], writer := writer)
  }

  function Flushed(w: World, a: Writer): World {
    var w' := w.(durable := w.volatile, dirty := []);
    match a.phase
    case HeaderWritten =>
      w'.(top := w.begun, promised := w.promised[w.begun := []], writer := Some(Writer(a.id, [], Active)))
    case FooterWritten => w'.(writer := Some(a.(phase := Sealed)))
    case _ => w'.(promised := w.promised[w.top := a.frames])
  }

  function Opened(g: Geometry, w: World, id: nat): World
    requires ValidGeometry(g)
  {
    var a := RecoveredWriter(g, w, id);
    var t := NewestOnMedia(g, w);
    w.(writer := Some(a), top := t, promised := w.promised[t := a.frames], ids := w.ids + [id])
  }

  /** The effect of a step; a step that has no writer to take it changes nothing. */
  function Next(g: Geometry, w: World, e: Event): World
    requires ValidGeometry(g)
  {
    match e
    case Abandon => w.(writer := None)
    case Crash(after) => w.(durable := after, volatile := after, dirty := [], writer := None)
    case Open(id) => Opened(g, w, id)
    case Flush => if w.writer.None? then w else Flushed(w, w.writer.value)
    case Emit(f, after, ok) =>
      if w.writer.None? then w
      else
        var a := w.writer.value;
        Attempt(w, FrameWrite(w, f), after, if ok then Some(a.(frames := a.frames + [f])) else None)
          .(issued := w.issued + {Issue(f, a.frames)}, emitted := if ok then w.emitted + [f] else w.emitted)
    case WriteIndex(after, ok) =>
      if w.writer.None? || w.top == 0 then w
      else Attempt(w, IndexWrite(g, w), after, InPhase(w, IndexWritten, ok))
    case WriteFooter(after, ok) =>
      if w.writer.None? || w.top == 0 then w
      else Attempt(w, FooterWrite(g, w), after, InPhase(w, FooterWritten, ok))
    case WriteHeader(h, after, ok) =>
      if w.writer.None? then w
      else Attempt(w, HeaderWrite(h), after, InPhase(w, HeaderWritten, ok)).(begun := w.top + 1)
  }

  function InPhase(w: World, phase: Phase, ok: bool): Option<Writer>
    requires w.writer.Some?
  {
    if ok then Some(w.writer.value.(phase := phase)) else None
  }

  /** Whatever part of a write arrives, it reaches no structure but the one written, frames aside. */
  lemma {:induction false} ArrivesElsewhere(image: Image, d: Write, after: Image, ok: bool, p: Place)
    requires Arrives(image, d, after, ok) && !p.FrameAt? && d.place != p
    ensures Get(after, p) == Get(image, p)
  {
    if ok {
      WrittenAt(image, d, p);
    } else {
      assert CrashCell(Get(image, p), [d], p, Get(after, p));
    }
  }

  // ------------------------------------------- every crash image is recoverable

  lemma {:induction false} SlotsDiffer(g: Geometry, a: nat, b: nat)
    requires ValidGeometry(g) && 1 <= a < b < a + g.partitions
    ensures SlotOf(g, a) != SlotOf(g, b)
  {
    var n := g.partitions;
    var x := (b - 1) / n - (a - 1) / n;
    assert b - a == n * x + (SlotOf(g, b) - SlotOf(g, a));
    assert x >= 1 ==> n * x >= n;
    assert x <= 0 ==> n * x <= 0;
  }

  lemma {:induction false} CrashHeaders(g: Geometry, w: World, c: Image)
    requires ValidGeometry(g) && w.top <= w.begun <= w.top + 1
    requires HeadersOk(g, w.top, w.begun, w.durable) && DirtyOk(g, w) && CrashImage(w.durable, w.dirty, c)
    ensures HeadersOk(g, w.top, w.begun, c)
  {
    forall n: nat | 1 <= n <= w.top && n + g.partitions > w.begun
      ensures IsHeader(g, Get(c, HeaderAt(SlotOf(g, n))), n)
    {
      var p := HeaderAt(SlotOf(g, n));
      assert CrashCell(Get(w.durable, p), w.dirty, p, Get(c, p));
      if w.begun > w.top {
        SlotsDiffer(g, n, w.begun);
      }
    }
    forall s: nat
      ensures HeaderPlaceOk(g, w.top, w.begun, s, Get(c, HeaderAt(s)))
    {
      var p := HeaderAt(s);
      assert CrashCell(Get(w.durable, p), w.dirty, p, Get(c, p));
      assert HeaderPlaceOk(g, w.top, w.begun, s, Get(w.durable, p));
    }
  }

  lemma {:induction false} CrashFooters(g: Geometry, w: World, c: Image)
    requires ValidGeometry(g)
    requires FootersOk(g, w.top, w.promised, w.durable) && DirtyOk(g, w) && CrashImage(w.durable, w.dirty, c)
    ensures FootersOk(g, w.top, w.promised, c)
  {
    forall s: nat
      ensures FooterPlaceOk(g, w.top, w.promised, s, Get(c, FooterAt(s)))
    {
      var p := FooterAt(s);
      assert CrashCell(Get(w.durable, p), w.dirty, p, Get(c, p));
      assert FooterPlaceOk(g, w.top, w.promised, s, Get(w.durable, p));
    }
  }

  lemma {:induction false} CrashSealed(g: Geometry, w: World, c: Image)
    requires ValidGeometry(g) && w.top <= w.begun <= w.top + 1
    requires SealedBelow(g, w.top, w.begun, w.durable) && DirtyOk(g, w) && CrashImage(w.durable, w.dirty, c)
    ensures SealedBelow(g, w.top, w.begun, c)
  {
    forall n: nat | 1 <= n <= w.top && n < w.begun && n + g.partitions > w.top
      ensures !Unsealed(g, n, c)
    {
      var p := FooterAt(SlotOf(g, n));
      assert CrashCell(Get(w.durable, p), w.dirty, p, Get(c, p));
      assert !Unsealed(g, n, w.durable);
      if n < w.top {
        SlotsDiffer(g, n, w.top);
      }
    }
  }

  lemma {:induction false} CrashFrames(w: World, g: Geometry, c: Image)
    requires ValidGeometry(g)
    requires FramesIssued(w.issued, w.durable) && DirtyOk(g, w) && CrashImage(w.durable, w.dirty, c)
    ensures FramesIssued(w.issued, c)
  {
    forall p | Get(c, p).FrameCell?
      ensures IssuedAt(w.issued, p, Get(c, p).frame)
    {
      assert CrashCell(Get(w.durable, p), w.dirty, p, Get(c, p));
      if Get(c, p) != Get(w.durable, p) {
        var i :| 0 <= i < |w.dirty| && w.dirty[i].place == p && w.dirty[i].cell == Get(c, p);
        assert WriteOk(g, w.top, w.begun, w.promised, w.issued, w.dirty[i]);
      }
    }
  }

  /** A frame of a placed list ends where the next one begins, at the latest at the end of the list. */
  lemma {:induction false} FrameEnds(g: Geometry, issued: set<Issue>, generation: nat, frames: seq<Frame>, k: nat)
    requires ValidGeometry(g) && Ledger(g, issued) && Chained(issued, generation, frames) && k < |frames|
    ensures DataEnd(frames[..k]) + Extent(FrameCell(frames[k])) <= DataEnd(frames)
    ensures DataEnd(frames[..k]) < DataEnd(frames)
  {
    assert IssueOk(g, Issue(frames[k], frames[..k]));
    assert frames[..k + 1] == frames[..k] + [frames[k]];
    TotalSpanSnoc(frames[..k], frames[k]);
    TotalSpanMonotone(frames, k + 1);
  }

  lemma {:induction false} PromisedFacts(g: Geometry, w: World, n: nat)
    requires ValidGeometry(g) && HistoryOk(g, w)
    ensures Chained(w.issued, n, Promised(w.promised, n))
    ensures Fits(g, Promised(w.promised, n))
    ensures n == 0 || n > w.top ==> Promised(w.promised, n) == []
  {
    assert PromisesChained(g, w.top, w.promised, w.issued);
  }

  lemma {:induction false} CrashPlaced(g: Geometry, w: World, c: Image, n: nat)
    requires ValidGeometry(g) && HistoryOk(g, w) && DirtyOk(g, w) && CrashImage(w.durable, w.dirty, c)
    requires 1 <= n <= w.top < n + g.partitions
    requires Placed(w.durable, SlotOf(g, n), Promised(w.promised, n))
    ensures Placed(c, SlotOf(g, n), Promised(w.promised, n))
  {
    var frames := Promised(w.promised, n);
    PromisedFacts(g, w, n);
    forall k | 0 <= k < |frames|
      ensures Get(c, FrameAt(SlotOf(g, n), DataEnd(frames[..k]))) == FrameCell(frames[k])
    {
      var p := FrameAt(SlotOf(g, n), DataEnd(frames[..k]));
      assert CrashCell(Get(w.durable, p), w.dirty, p, Get(c, p));
      FrameEnds(g, w.issued, n, frames, k);
      if n < w.top {
        SlotsDiffer(g, n, w.top);
      }
      forall i | 0 <= i < |w.dirty|
        ensures !Touches(w.dirty[i], p, FrameCell(frames[k]))
      {
        assert WriteOk(g, w.top, w.begun, w.promised, w.issued, w.dirty[i]);
      }
    }
  }

  /** Whatever a crash leaves behind satisfies everything recovery relies on. */
  lemma {:induction false} CrashRecoverable(g: Geometry, w: World, c: Image)
    requires ValidGeometry(g) && Inv(g, w) && CrashImage(w.durable, w.dirty, c)
    ensures Recoverable(g, w, c)
  {
    CrashHeaders(g, w, c);
    CrashFooters(g, w, c);
    CrashSealed(g, w, c);
    CrashFrames(w, g, c);
    forall n: nat | 1 <= n <= w.top && n + g.partitions > w.top
      ensures Placed(c, SlotOf(g, n), Promised(w.promised, n))
    {
      CrashPlaced(g, w, c, n);
    }
  }
}
