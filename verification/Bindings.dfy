/**
  Which partition every accepted record ends up in.  A header that is in force for a generation stays
  the header of that generation until its slot is reused; records are bound to the header that was active
  when they were accepted, and are emitted under that header.
 */
module Bindings {
  import opened Bytes
  import opened Media
  import opened Protocol
  import opened CrashSafety

  // ----------------------------------------------------------- headers persist

  /** The header of a generation, on the media and in force. */
  ghost predicate HeaderFixed(g: Geometry, w: World, n: nat, h: Header)
    requires ValidGeometry(g)
  {
    && 1 <= n <= w.top && h.generation == n
    && Get(w.durable, HeaderAt(SlotOf(g, n))) == HeaderCell(h)
    && Get(w.volatile, HeaderAt(SlotOf(g, n))) == HeaderCell(h)
  }

  /** A crash leaves the headers of retained generations as they were. */
  lemma {:induction false} CrashKeepsHeader(g: Geometry, w: World, after: Image, n: nat)
    requires ValidGeometry(g) && DirtyOk(g, w) && CrashImage(w.durable, w.dirty, after)
    requires 1 <= n <= w.top && w.begun < n + g.partitions
    ensures Get(after, HeaderAt(SlotOf(g, n))) == Get(w.durable, HeaderAt(SlotOf(g, n)))
  {
    var p := HeaderAt(SlotOf(g, n));
    assert CrashCell(Get(w.durable, p), w.dirty, p, Get(after, p));
    if w.begun > w.top {
      SlotsDiffer(g, n, w.begun);
    }
    forall i | 0 <= i < |w.dirty|
      ensures w.dirty[i].place != p
    {
      assert WriteOk(g, w.top, w.begun, w.promised, w.issued, w.dirty[i]);
    }
  }

  lemma {:induction false} WriteKeepsHeader(g: Geometry, w: World, e: Event, n: nat, h: Header)
    requires ValidGeometry(g) && Enabled(g, w, e) && HeaderFixed(g, w, n, h) && Next(g, w, e).begun < n + g.partitions
    requires e.Emit? || e.WriteIndex? || e.WriteFooter? || e.WriteHeader?
    ensures HeaderFixed(g, Next(g, w, e), n, h)
  {
    var s := SlotOf(g, n);
    match e
    case Emit(f, after, ok) => ArrivesElsewhere(w.volatile, FrameWrite(w, f), after, ok, HeaderAt(s));
    case WriteIndex(after, ok) => ArrivesElsewhere(w.volatile, IndexWrite(g, w), after, ok, HeaderAt(s));
    case WriteFooter(after, ok) => ArrivesElsewhere(w.volatile, FooterWrite(g, w), after, ok, HeaderAt(s));
    case WriteHeader(x, after, ok) =>
      SlotsDiffer(g, n, w.top + 1);
      ArrivesElsewhere(w.volatile, HeaderWrite(x), after, ok, HeaderAt(s));
  }

  /** No step changes the header of a retained generation. */
  lemma {:induction false} StepKeepsHeader(g: Geometry, w: World, e: Event, n: nat, h: Header)
    requires ValidGeometry(g) && Enabled(g, w, e) && DirtyOk(g, w) && w.top <= w.begun
    requires HeaderFixed(g, w, n, h) && Next(g, w, e).begun < n + g.partitions
    ensures HeaderFixed(g, Next(g, w, e), n, h)
  {
    match e
    case Crash(after) => CrashKeepsHeader(g, w, after, n);
    case Flush =>
    case Abandon =>
    case Open(id) =>
    case _ => WriteKeepsHeader(g, w, e, n, h);
  }

  /** Over any continuation of a run a header stays fixed until its slot's next generation is begun. */
  lemma {:induction false} RunKeepsHeader(g: Geometry, es: seq<Event>, i: nat, n: nat, h: Header)
    requires ValidGeometry(g) && Legal(g, es) && i <= |es|
    requires HeaderFixed(g, Reach(g, es[..i]), n, h) && Reach(g, es).begun < n + g.partitions
    ensures HeaderFixed(g, Reach(g, es), n, h)
    decreases |es|
  {
    if i == |es| {
      assert es[..i] == es;
    } else {
      var k := |es| - 1;
      var init := es[..k];
      assert init[..i] == es[..i];
      LegalPrefix(g, es, k);
      assert LegalAt(g, es, k);
      ReachInv(g, init);
      BegunGrows(g, Reach(g, init), es[k]);
      RunKeepsHeader(g, init, i, n, h);
      StepKeepsHeader(g, Reach(g, init), es[k], n, h);
    }
  }

  lemma {:induction false} BegunGrows(g: Geometry, w: World, e: Event)
    requires ValidGeometry(g) && w.begun <= w.top + 1
    ensures w.begun <= Next(g, w, e).begun
  {
  }

  /** So does every crash image of that continuation. */
  lemma {:induction false} HeaderSurvives(g: Geometry, es: seq<Event>, i: nat, n: nat, h: Header, after: Image)
    requires ValidGeometry(g) && Legal(g, es) && i <= |es|
    requires CrashImage(Reach(g, es).durable, Reach(g, es).dirty, after)
    requires HeaderFixed(g, Reach(g, es[..i]), n, h) && Reach(g, es).begun < n + g.partitions
    ensures n > 0 && HeaderOn(g, after, n) == HeaderCell(h)
  {
    RunKeepsHeader(g, es, i, n, h);
    ReachInv(g, es);
    CrashKeepsHeader(g, Reach(g, es), after, n);
  }

  /** A header in force for an active generation is durable as well. */
  lemma {:induction false} ActiveHeaderFixed(g: Geometry, es: seq<Event>, h: Header)
    requires ValidGeometry(g) && Legal(g, es)
    requires var w := Reach(g, es);
             w.writer.Some? && w.writer.value.phase == Active && h.generation == w.top > 0
    requires Get(Reach(g, es).volatile, HeaderAt(SlotOf(g, h.generation))) == HeaderCell(h)
    ensures HeaderFixed(g, Reach(g, es), h.generation, h)
  {
    var w := Reach(g, es);
    ReachInv(g, es);
    CrashKeepsHeader(g, w, w.volatile, w.top);
  }

  // ------------------------------------------------------------ bound records

  /** The header a published frame was emitted under, fixed at event `at`, and what its records demanded. */
  datatype Binding = Binding(header: Header, at: nat, contracts: seq<Option<Contract>>)

  /** The demands of all accepted records, those of the published frames, and those of the builder. */
  datatype Ties = Ties(contracts: seq<Option<Contract>>, bindings: seq<Binding>, pending: seq<Option<Contract>>)

  predicate AllMet(o: PartitionOptions, contracts: seq<Option<Contract>>) {
    forall i :: 0 <= i < |contracts| && contracts[i].Some? ==> Meets(o, contracts[i].value)
  }

  function Flat(bindings: seq<Binding>): seq<Option<Contract>> {
    if bindings == [] then [] else Flat(bindings[..|bindings| - 1]) + bindings[|bindings| - 1].contracts
  }

  ghost predicate BindingOk(g: Geometry, es: seq<Event>, f: Frame, b: Binding)
    requires ValidGeometry(g)
  {
    && b.at <= |es| && HeaderFixed(g, Reach(g, es[..b.at]), f.generation, b.header)
    && |b.contracts| == |f.records| && AllMet(b.header.options, b.contracts)
  }

  ghost predicate AllBound(g: Geometry, es: seq<Event>, published: seq<Frame>, bindings: seq<Binding>)
    requires ValidGeometry(g)
  {
    && |published| == |bindings|
    && forall k {:trigger BindingOk(g, es, published[k], bindings[k])} ::
         0 <= k < |published| ==> BindingOk(g, es, published[k], bindings[k])
  }

  /** Published records meet the header of their frame, and the builder's records the active header. */
  ghost predicate Bound(g: Geometry, es: seq<Event>, o: PartitionOptions, builder: seq<Record>,
                        published: seq<Frame>, t: Ties)
    requires ValidGeometry(g)
  {
    forall k {:trigger Unfold(k)} :: Unfold(k) ==>
      && AllBound(g, es, published, t.bindings)
      && |t.pending| == |builder| && AllMet(o, t.pending)
      && t.contracts == Flat(t.bindings) + t.pending
  }

  lemma {:induction false} BoundMeans(g: Geometry, es: seq<Event>, o: PartitionOptions, builder: seq<Record>,
                                      published: seq<Frame>, t: Ties)
    requires ValidGeometry(g) && Bound(g, es, o, builder, published, t)
    ensures AllBound(g, es, published, t.bindings)
    ensures |t.pending| == |builder| && AllMet(o, t.pending) && t.contracts == Flat(t.bindings) + t.pending
  {
    assert Unfold(0);
  }

  lemma {:induction false} BoundLater(g: Geometry, es: seq<Event>, es': seq<Event>, o: PartitionOptions,
                                      o': PartitionOptions, builder: seq<Record>, published: seq<Frame>, t: Ties)
    requires ValidGeometry(g) && Bound(g, es, o, builder, published, t) && es <= es'
    requires o' == o || builder == []
    ensures Bound(g, es', o', builder, published, t)
  {
    BoundMeans(g, es, o, builder, published, t);
    forall k | 0 <= k < |published|
      ensures BindingOk(g, es', published[k], t.bindings[k])
    {
      assert BindingOk(g, es, published[k], t.bindings[k]);
      assert es'[..t.bindings[k].at] == es[..t.bindings[k].at];
    }
  }

  function Accepting(t: Ties, expected: Option<Contract>): Ties {
    Ties(t.contracts + [expected], t.bindings, t.pending + [expected])
  }

  lemma {:induction false} BoundAccept(g: Geometry, es: seq<Event>, o: PartitionOptions, builder: seq<Record>,
                                       published: seq<Frame>, t: Ties, r: Record, expected: Option<Contract>)
    requires ValidGeometry(g) && Bound(g, es, o, builder, published, t)
    requires expected.Some? ==> Meets(o, expected.value)
    ensures Bound(g, es, o, builder + [r], published, Accepting(t, expected))
  {
    BoundMeans(g, es, o, builder, published, t);
    Assoc(Flat(t.bindings), t.pending, [expected]);
  }

  function Emitting(t: Ties, h: Header, at: nat): Ties {
    Ties(t.contracts, t.bindings + [Binding(h, at, t.pending)], [])
  }

  /** A frame made of the builder carries the builder's demands to the header it was emitted under. */
  lemma {:induction false} BoundEmit(g: Geometry, es: seq<Event>, es': seq<Event>, h: Header, builder: seq<Record>,
                                     published: seq<Frame>, t: Ties, f: Frame)
    requires ValidGeometry(g) && Bound(g, es, h.options, builder, published, t) && es <= es'
    requires f.records == builder && HeaderFixed(g, Reach(g, es), f.generation, h)
    ensures Bound(g, es', h.options, [], published + [f], Emitting(t, h, |es|))
  {
    BoundLater(g, es, es', h.options, h.options, builder, published, t);
    BoundMeans(g, es', h.options, builder, published, t);
    var b := Binding(h, |es|, t.pending);
    assert es'[..|es|] == es;
    assert (t.bindings + [b])[..|t.bindings|] == t.bindings;
    assert BindingOk(g, es', f, b);
    forall k | 0 <= k < |published| + 1
      ensures BindingOk(g, es', (published + [f])[k], (t.bindings + [b])[k])
    {
      if k < |published| {
        assert BindingOk(g, es', published[k], t.bindings[k]);
      }
    }
    assert Flat(t.bindings) + t.pending == Flat(t.bindings + [b]) + [];
  }

  // -------------------------------------------------------- where a record lands

  lemma {:induction false} FlatLength(g: Geometry, es: seq<Event>, published: seq<Frame>, bindings: seq<Binding>)
    requires ValidGeometry(g) && AllBound(g, es, published, bindings)
    ensures |Flat(bindings)| == |RecordsOf(published)|
    decreases |published|
  {
    if published != [] {
      var n := |published| - 1;
      BoundInit(g, es, published, bindings);
      assert BindingOk(g, es, published[n], bindings[n]);
      FlatLength(g, es, published[..n], bindings[..n]);
    }
  }

  lemma {:induction false} BoundInit(g: Geometry, es: seq<Event>, published: seq<Frame>, bindings: seq<Binding>)
    requires ValidGeometry(g) && AllBound(g, es, published, bindings) && published != []
    ensures AllBound(g, es, published[..|published| - 1], bindings[..|published| - 1])
  {
    var n := |published| - 1;
    forall k | 0 <= k < n
      ensures BindingOk(g, es, published[..n][k], bindings[..n][k])
    {
      assert BindingOk(g, es, published[k], bindings[k]);
    }
  }

  /** The frame that holds the `i`-th published record, and the header it was emitted under. */
  lemma {:induction false} FrameHolding(g: Geometry, es: seq<Event>, published: seq<Frame>, bindings: seq<Binding>,
                                        i: nat)
    returns (k: nat)
    requires ValidGeometry(g) && AllBound(g, es, published, bindings) && i < |RecordsOf(published)|
    ensures |Flat(bindings)| == |RecordsOf(published)| && k < |published|
    ensures RecordsOf(published)[i] in published[k].records
    ensures Flat(bindings)[i].Some? ==> Meets(bindings[k].header.options, Flat(bindings)[i].value)
    decreases |published|
  {
    var n := |published| - 1;
    BoundInit(g, es, published, bindings);
    FlatLength(g, es, published[..n], bindings[..n]);
    assert BindingOk(g, es, published[n], bindings[n]);
    var m := |RecordsOf(published[..n])|;
    if i < m {
      k := FrameHolding(g, es, published[..n], bindings[..n], i);
    } else {
      k := n;
      assert RecordsOf(published)[i] == published[n].records[i - m];
      assert Flat(bindings)[i] == bindings[n].contracts[i - m];
    }
  }
}
