/**
  Seals can be torn.  Any partition that holds a block may lose its index to a crash between the writes of
  its seal and their flush, while its footer survives; and on every volume there is such a run.  A query over
  it reports one corrupt gap and rescans, and every later query does, until the slot is reused.
 */
module TornSeal {
  import opened Bytes
  import opened Media
  import opened Recovery
  import opened Protocol
  import opened ProtocolSteps
  import opened CrashSafety
  import opened RingStore
  import opened ReaderRace
  import opened Catalog

  /** A live writer, with its blocks on the media and nothing unflushed. */
  predicate Settled(w: World) {
    && w.writer.Some? && w.writer.value.phase == Active && w.top == w.begun > 0
    && Promised(w.promised, w.top) == w.writer.value.frames && w.dirty == [] && w.volatile == w.durable
  }

  /** Index and footer are written, and not yet flushed. */
  lemma {:induction false} SealWritten(g: Geometry, es: seq<Event>, w: World) returns (es': seq<Event>, w': World)
    requires ValidGeometry(g) && Tracks(g, es, w) && Settled(w) && w.writer.value.frames != []
    ensures Tracks(g, es', w')
    ensures w'.durable == w.durable && w'.dirty == [IndexWrite(g, w), FooterWrite(g, w)]
    ensures w'.volatile == Written(Written(w.volatile, IndexWrite(g, w)), FooterWrite(g, w))
    ensures w'.top == w'.begun == w.top && w'.promised == w.promised && w'.ids == w.ids
  {
    var index := WriteIndex(Written(w.volatile, IndexWrite(g, w)), true);
    TracksStep(g, es, w, index);
    var indexed := Next(g, w, index);
    var footer := WriteFooter(Written(indexed.volatile, FooterWrite(g, w)), true);
    TracksStep(g, es + [index], indexed, footer);
    es', w' := es + [index] + [footer], Next(g, indexed, footer);
  }

  /** Of two writes the first was torn and the second arrived. */
  lemma {:induction false} FirstTorn(image: Image, a: Write, b: Write) returns (after: Image)
    requires !a.place.FrameAt? && !b.place.FrameAt? && a.place != b.place
    ensures CrashImage(image, [a, b], after)
    ensures Get(after, a.place) == Torn && Get(after, b.place) == b.cell
  {
    var dirty := [a, b];
    var both := Written(Written(image, a), b);
    after := both[a.place := Torn];
    forall p
      ensures CrashCell(Get(image, p), dirty, p, Get(after, p))
    {
      WrittenAt(image, a, p);
      WrittenAt(Written(image, a), b, p);
      assert dirty[0] == a && dirty[1] == b;
    }
    WrittenAt(Written(image, a), b, b.place);
  }

  /** Reopening a volume whose newest partition carries its footer. */
  lemma {:induction false} ReopenSealed(g: Geometry, es: seq<Event>, w: World, id: nat)
    returns (es': seq<Event>, w': World)
    requires ValidGeometry(g) && Tracks(g, es, w) && w.writer.None? && w.dirty == [] && w.volatile == w.durable
    requires w.top == w.begun > 0 && !Unsealed(g, w.top, w.durable) && id != 0 && id !in w.ids
    ensures Tracks(g, es', w')
    ensures w' == w.(writer := Some(Writer(id, Promised(w.promised, w.top), Sealed)), ids := w.ids + [id],
                     promised := w.promised[w.top := Promised(w.promised, w.top)])
  {
    TracksMeans(g, es, w);
    ReachInv(g, es);
    assert IsHeader(g, Get(w.durable, HeaderAt(SlotOf(g, w.top))), w.top);
    NewestSealed(g, w, w.durable, RecoveredHeader(g, w));
    TracksStep(g, es, w, Open(id));
    es', w' := es + [Open(id)], Next(g, w, Open(id));
  }

  /** The next header is written and flushed. */
  lemma {:induction false} NextPartition(g: Geometry, es: seq<Event>, w: World, options: PartitionOptions)
    returns (es': seq<Event>, w': World)
    requires ValidGeometry(g) && Tracks(g, es, w) && w.writer.Some? && w.writer.value.phase == Sealed && w.dirty == []
    ensures Tracks(g, es', w') && w'.writer == Some(Writer(w.writer.value.id, [], Active)) && w'.top == w.top + 1
    ensures w'.begun == w'.top && w'.dirty == [] && w'.volatile == w'.durable
    ensures w'.promised == w.promised[w.top + 1 := []] && w'.ids == w.ids
    ensures forall s: nat :: Get(w'.volatile, IndexAt(s)) == Get(w.volatile, IndexAt(s))
  {
    var h := Header(w.top + 1, SlotOf(g, w.top + 1), options);
    var header := WriteHeader(h, Written(w.volatile, HeaderWrite(h)), true);
    TracksStep(g, es, w, header);
    var begun := Next(g, w, header);
    TracksStep(g, es + [header], begun, Flush);
    es', w' := es + [header] + [Flush], Next(g, begun, Flush);
    forall s: nat
      ensures Get(w'.volatile, IndexAt(s)) == Get(w.volatile, IndexAt(s))
    {
      WrittenAt(w.volatile, HeaderWrite(h), IndexAt(s));
    }
  }

  /** A crash during the seal that keeps the footer and tears the index. */
  lemma {:induction false} CrashInSeal(g: Geometry, es: seq<Event>, w: World) returns (es': seq<Event>, w': World)
    requires ValidGeometry(g) && Tracks(g, es, w) && Settled(w) && w.writer.value.frames != []
    ensures Tracks(g, es', w') && w'.writer.None? && w'.dirty == [] && w'.volatile == w'.durable
    ensures w'.top == w'.begun == w.top && w'.promised == w.promised && w'.ids == w.ids
    ensures Get(w'.volatile, IndexAt(SlotOf(g, w.top))) == Torn && !Unsealed(g, w.top, w'.durable)
  {
    var events, sealing := SealWritten(g, es, w);
    var after := FirstTorn(w.durable, IndexWrite(g, w), FooterWrite(g, w));
    TracksStep(g, events, sealing, Crash(after));
    es', w' := events + [Crash(after)], Next(g, sealing, Crash(after));
  }

  /**
    Every seal of a partition that holds a block can be torn: some continuation of the run ends with a live
    writer whose catalog lists the partition as sealed, with an index that does not load.
   */
  lemma {:induction false} SealCanTear(g: Geometry, es: seq<Event>, w: World, id: nat, options: PartitionOptions)
    returns (es': seq<Event>, w': World)
    requires ValidGeometry(g) && Tracks(g, es, w) && Settled(w) && w.writer.value.frames != []
    requires id != 0 && id !in w.ids
    ensures Tracks(g, es', w') && w'.writer.Some? && w'.writer.value.phase == Active && w'.top == w.top + 1
    ensures var p, t := EntryFor(g, w', w.top), TruthFor(g, w', w.top);
            p.sealed && t == Truth(w.writer.value.frames, Torn) && !Intact(p, t)
  {
    var crashed, down := CrashInSeal(g, es, w);
    var reopened, up := ReopenSealed(g, crashed, down, id);
    es', w' := NextPartition(g, reopened, up, options);
  }

  // -------------------------------------------------------------- a first block

  /** A fresh volume, opened. */
  lemma {:induction false} FirstOpen(g: Geometry) returns (es: seq<Event>, w: World)
    requires ValidGeometry(g)
    ensures Tracks(g, es, w)
    ensures w == Fresh().(writer := Some(Writer(1, [], Sealed)), promised := map[0 := []], ids := [1])
  {
    TracksMeans(g, [], Fresh());
    TracksStep(g, [], Fresh(), Open(1));
    es, w := [] + [Open(1)], Next(g, Fresh(), Open(1));
  }

  /** The smallest block there is fits every volume. */
  function SmallBlock(g: Geometry): Frame
    requires ValidGeometry(g)
  {
    Frame(1, 0, 0, 1, 0, 1, AlignUp(BLOCK_HEADER + 1, g.quantum), [Record([0], 0)], 0, 0)
  }

  lemma {:induction false} SmallBlockFits(g: Geometry)
    requires ValidGeometry(g)
    ensures IssueOk(g, Issue(SmallBlock(g), []))
  {
    var records := SmallBlock(g).records;
    assert RawSize(records) == RawSize(records[..0]) + 1;
    AlignUpMonotone(BLOCK_HEADER + 1, BLOCK_HEADER + g.maxPayload, g.quantum);
  }

  /** On every volume a writer can have one durable block. */
  lemma {:induction false} FirstBlock(g: Geometry) returns (es: seq<Event>, w: World)
    requires ValidGeometry(g)
    ensures Tracks(g, es, w) && Settled(w) && w.top == 1 && w.ids == [1]
    ensures w.writer.value.frames == [SmallBlock(g)]
  {
    var start, first := FirstOpen(g);
    var begun, empty := NextPartition(g, start, first, PartitionOptions(0, 0, 1));
    var f := SmallBlock(g);
    SmallBlockFits(g);
    var emit := Emit(f, Written(empty.volatile, FrameWrite(empty, f)), true);
    TracksStep(g, begun, empty, emit);
    var emitted := Next(g, empty, emit);
    TracksStep(g, begun + [emit], emitted, Flush);
    es, w := begun + [emit] + [Flush], Next(g, emitted, Flush);
  }

  /** So on every volume there is a run after which queries report damage: not every catalog is intact. */
  lemma {:induction false} DamageHappens(g: Geometry) returns (es: seq<Event>)
    requires ValidGeometry(g)
    ensures Legal(g, es) && Reach(g, es).writer.Some? && Reach(g, es).writer.value.phase == Active
    ensures !AllIntact(CatalogOf(g, Reach(g, es)), TruthOf(g, Reach(g, es)))
  {
    var settled, w := FirstBlock(g);
    var w';
    es, w' := SealCanTear(g, settled, w, 2, PartitionOptions(0, 0, 1));
    TracksMeans(g, es, w');
    assert Oldest(g, 2) == 1;
    assert CatalogOf(g, w')[0] == EntryFor(g, w', 1) && TruthOf(g, w')[0] == TruthFor(g, w', 1);
  }
}
