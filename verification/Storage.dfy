/**
  The in-memory backend: volatile and durable images, the writes between them, injected
  faults, and the ways a power cut can be simulated.
 */
module Storage {
  import opened Bytes
  import opened Media

  /** How much of a write reaches the media. */
  datatype Arrival = Nothing | Part | All

  /** Part of a write tears everything the write touches. */
  function TornBy(image: Image, d: Write): Image {
    map p | p in image.Keys + {d.place} :: if Touches(d, p, Get(image, p)) then Torn else Get(image, p)
  }

  function Arrived(image: Image, d: Write, a: Arrival): Image {
    match a
    case Nothing => image
    case Part => TornBy(image, d)
    case All => Written(image, d)
  }

  /** A part of one unflushed write; parts that together make up a write amount to all of it. */
  datatype Fragment = Fragment(write: nat, arrival: Arrival)

  predicate Known(dirty: seq<Write>, fragments: seq<Fragment>) {
    forall i :: 0 <= i < |fragments| ==> fragments[i].write < |dirty|
  }

  /** The fragments are applied one after the other, in whatever order and however often they are given. */
  function Materialized(image: Image, dirty: seq<Write>, fragments: seq<Fragment>): Image
    requires Known(dirty, fragments)
  {
    if fragments == [] then image
    else
      var n := |fragments| - 1;
      Arrived(Materialized(image, dirty, fragments[..n]), dirty[fragments[n].write], fragments[n].arrival)
  }

  /** However much arrives, the outcome is one of the crashes of that single write. */
  lemma {:induction false} ArrivedIsCrash(image: Image, d: Write, a: Arrival)
    ensures CrashImage(image, [d], Arrived(image, d, a))
  {
    forall p
      ensures CrashCell(Get(image, p), [d], p, Get(Arrived(image, d, a), p))
    {
      assert [d][0] == d;
      WrittenAt(image, d, p);
    }
  }

  /** One more fragment on a crash image gives a crash image of the same writes. */
  lemma {:induction false} FragmentIsCrash(durable: Image, dirty: seq<Write>, image: Image, f: Fragment)
    requires CrashImage(durable, dirty, image) && f.write < |dirty|
    ensures CrashImage(durable, dirty, Arrived(image, dirty[f.write], f.arrival))
  {
    var after := Arrived(image, dirty[f.write], f.arrival);
    ArrivedIsCrash(image, dirty[f.write], f.arrival);
    CrashExtends(durable, dirty, image, dirty[f.write], after);
    forall p
      ensures CrashCell(Get(durable, p), dirty, p, Get(after, p))
    {
      CrashCellRepeated(Get(durable, p), dirty, f.write, p, Get(after, p));
    }
  }

  lemma {:induction false} CrashCellRepeated(before: Cell, dirty: seq<Write>, k: nat, p: Place, after: Cell)
    requires k < |dirty| && CrashCell(before, dirty + [dirty[k]], p, after)
    ensures CrashCell(before, dirty, p, after)
  {
    var more := dirty + [dirty[k]];
    assert forall i :: 0 <= i < |more| ==> more[i] == if i < |dirty| then dirty[i] else dirty[k];
    if after != before && exists i :: 0 <= i < |more| && more[i].place == p && more[i].cell == after {
      var i :| 0 <= i < |more| && more[i].place == p && more[i].cell == after;
      assert dirty[if i < |dirty| then i else k].place == p;
    } else if after != before {
      var i :| 0 <= i < |more| && Touches(more[i], p, before);
      assert Touches(dirty[if i < |dirty| then i else k], p, before);
    }
  }

  /** Some call after the first `was`, and among the first `now`, reported an error. */
  ghost predicate FailedIn(faults: map<nat, Arrival>, was: nat, now: nat) {
    exists k :: was < k <= now && k in faults
  }

  lemma {:induction false} FailedNext(faults: map<nat, Arrival>, was: nat, now: nat)
    requires was <= now
    ensures FailedIn(faults, was, now + 1) <==> FailedIn(faults, was, now) || now + 1 in faults
  {
    if FailedIn(faults, was, now) {
      var k :| was < k <= now && k in faults;
      assert was < k <= now + 1;
    }
  }

  /** A failure among the calls since `was`, but not among those up to `before`, came later than these. */
  lemma {:induction false} FailedLater(faults: map<nat, Arrival>, was: nat, before: nat, now: nat)
    requires was <= before && !FailedIn(faults, was, before)
    ensures FailedIn(faults, was, now) <==> FailedIn(faults, before, now)
  {
    if FailedIn(faults, was, now) {
      var k :| was < k <= now && k in faults;
      assert before < k <= now;
    }
    if FailedIn(faults, before, now) {
      var k :| before < k <= now && k in faults;
      assert was < k <= now;
    }
  }

  class MemoryStorage {
    var volatile: Image
    var durable: Image
    var dirty: seq<Write>
    var calls: nat
    const faults: map<nat, Arrival>    // the calls that report an error

    constructor (rules: map<nat, Arrival>)
      ensures volatile == durable == map[] && dirty == [] && calls == 0 && faults == rules
    {
      volatile, durable, dirty, calls, faults := map[], map[], [], 0, rules;
    }

    /** A failed write may still have arrived, in part or in full. */
    method WriteAt(d: Write) returns (ok: bool)
      modifies `volatile, `dirty, `calls
      ensures calls == old(calls) + 1 && (ok <==> calls !in faults)
      ensures dirty == old(dirty) + [d]
      ensures if ok then volatile == Written(old(volatile), d) else CrashImage(old(volatile), [d], volatile)
    {
      calls := calls + 1;
      ok := calls !in faults;
      var arrival := if ok then All else faults[calls];
      ArrivedIsCrash(volatile, d, arrival);
      volatile := Arrived(volatile, d, arrival);
      dirty := dirty + [d];
    }

    method Flush() returns (ok: bool)
      modifies `durable, `dirty, `calls
      ensures calls == old(calls) + 1 && (ok <==> calls !in faults)
      ensures ok ==> durable == volatile && dirty == []
      ensures !ok ==> durable == old(durable) && dirty == old(dirty)
    {
      calls := calls + 1;
      ok := calls !in faults;
      if ok {
        durable, dirty := volatile, [];
      }
    }

    method CrashDiscardVolatile()
      modifies `volatile, `dirty
      ensures volatile == durable && dirty == []
      ensures CrashImage(old(durable), old(dirty), volatile)
    {
      CrashLosesAll(durable, dirty);
      volatile, dirty := durable, [];
    }

    /** Fragments of the unflushed writes arrive, as the caller chooses; an unknown write is refused. */
    method CrashMaterialize(fragments: seq<Fragment>) returns (r: Result<()>)
      modifies `volatile, `durable, `dirty
      ensures r == if Known(old(dirty), fragments) then Ok(()) else Err(InvalidArgument)
      ensures r.Ok? ==> volatile == durable == Materialized(old(durable), old(dirty), fragments) && dirty == []
      ensures r.Ok? ==> CrashImage(old(durable), old(dirty), volatile)
      ensures r.Err? ==> volatile == old(volatile) && durable == old(durable) && dirty == old(dirty)
    {
      var before, writes := durable, dirty;
      for i := 0 to |fragments|
        invariant Known(writes, fragments[..i])
      {
        if fragments[i].write >= |writes| {
          return Err(InvalidArgument);
        }
      }
      assert fragments[..|fragments|] == fragments;
      var image := before;
      CrashLosesAll(before, writes);
      for i := 0 to |fragments|
        invariant image == Materialized(before, writes, fragments[..i]) && CrashImage(before, writes, image)
      {
        FragmentIsCrash(before, writes, image, fragments[i]);
        assert fragments[..i + 1][..i] == fragments[..i];
        image := Arrived(image, writes[fragments[i].write], fragments[i].arrival);
      }
      volatile, durable, dirty := image, image, [];
      return Ok(());
    }

    /** All of them arrive, in the order they were written. */
    method CrashPersistAllDirty()
      modifies `volatile, `durable, `dirty
      ensures volatile == durable == old(Materialized(durable, dirty, Everything(|dirty|))) && dirty == []
      ensures CrashImage(old(durable), old(dirty), volatile)
    {
      var r := CrashMaterialize(Everything(|dirty|));
    }
  }

  function Everything(n: nat): (fragments: seq<Fragment>)
    ensures |fragments| == n && forall i :: 0 <= i < n ==> fragments[i] == Fragment(i, All)
  {
    seq(n, i requires 0 <= i => Fragment(i, All))
  }
}
