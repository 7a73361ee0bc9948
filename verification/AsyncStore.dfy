/**
  The background writer together with the store it writes to.  What a barrier that returned Ok means, from
  the submitted item to the media: every item accepted before it is returned by a lazy reopen after any
  continuation of the store's run and any crash, until its slot is reused.
 */
module AsyncStore {
  import opened Bytes
  import opened Media
  import opened Recovery
  import opened Protocol
  import opened CrashSafety
  import opened Bindings
  import opened Storage
  import opened RingStore
  import AsyncModel
  import AsyncWriter

  // ---------------------------------------------------------------- what survives

  /** An image a crash may leave after this run. */
  ghost predicate Possible(g: Geometry, es: seq<Event>, after: Image)
    requires ValidGeometry(g)
  {
    Legal(g, es) && CrashImage(Reach(g, es).durable, Reach(g, es).dirty, after)
  }

  /** A lazy reopen returns the frame under its header, unless the slot's next generation was begun. */
  ghost predicate Reread(g: Geometry, es: seq<Event>, after: Image, f: Frame, h: Header)
    requires ValidGeometry(g)
  {
    f.generation > 0 && Reach(g, es).begun < f.generation + g.partitions ==>
      HeaderOn(g, after, f.generation) == HeaderCell(h) && f in Retrieved(g, after, h)
  }

  /** It does so after every continuation of the run and every crash. */
  ghost predicate Safe(g: Geometry, events: seq<Event>, f: Frame, h: Header)
    requires ValidGeometry(g)
  {
    forall es: seq<Event>, after: Image {:trigger Possible(g, es, after)} ::
      events <= es && Possible(g, es, after) ==> Reread(g, es, after, f, h)
  }

  /** The record is in a frame of this run that is safe, under a header that meets what the record demanded. */
  ghost predicate Survives(g: Geometry, events: seq<Event>, r: Record, expected: Option<Contract>)
    requires ValidGeometry(g)
  {
    exists f: Frame, h: Header {:trigger Safe(g, events, f, h)} ::
      && Safe(g, events, f, h) && f in Reach(g, events).emitted && r in f.records
      && f.generation == h.generation > 0 && (expected.Some? ==> Meets(h.options, expected.value))
  }

  lemma {:induction false} StepEmits(g: Geometry, w: World, e: Event)
    requires ValidGeometry(g)
    ensures w.emitted <= Next(g, w, e).emitted
  {
  }

  lemma {:induction false} EmittedGrows(g: Geometry, es: seq<Event>, i: nat)
    requires ValidGeometry(g) && i <= |es|
    ensures Reach(g, es[..i]).emitted <= Reach(g, es).emitted
    decreases |es|
  {
    if i == |es| {
      assert es[..i] == es;
    } else {
      var n := |es| - 1;
      var init := es[..n];
      assert init[..i] == es[..i];
      EmittedGrows(g, init, i);
      StepEmits(g, Reach(g, init), es[n]);
      assert Reach(g, es) == Next(g, Reach(g, init), es[n]);
    }
  }

  /** What survives from some point of a run on survives from every later one on. */
  lemma {:induction false} SurvivesLater(g: Geometry, events: seq<Event>, later: seq<Event>, r: Record,
                                         expected: Option<Contract>)
    requires ValidGeometry(g) && Survives(g, events, r, expected) && events <= later
    ensures Survives(g, later, r, expected)
  {
    var f: Frame, h: Header :|
      && Safe(g, events, f, h) && f in Reach(g, events).emitted && r in f.records
      && f.generation == h.generation > 0 && (expected.Some? ==> Meets(h.options, expected.value));
    EmittedGrows(g, later, |events|);
    assert later[..|events|] == events;
    assert Safe(g, later, f, h);
  }

  /** A promised frame, bound to its header, is safe. */
  lemma {:induction false} PromisedIsSafe(g: Geometry, events: seq<Event>, f: Frame, b: Binding)
    requires ValidGeometry(g) && AllPromised(Reach(g, events), [f]) && BindingOk(g, events, f, b)
    ensures Safe(g, events, f, b.header)
  {
    forall es: seq<Event>, after: Image | events <= es && Possible(g, es, after)
      ensures Reread(g, es, after, f, b.header)
    {
      if f.generation > 0 && Reach(g, es).begun < f.generation + g.partitions {
        assert es[..|events|] == events && es[..b.at] == events[..b.at];
        HeaderSurvives(g, es, b.at, f.generation, b.header, after);
        PromisedFrameSurvives(g, es, |events|, f, after);
      }
    }
  }

  /** After a successful checkpoint every accepted record survives. */
  lemma {:induction false} CheckpointSecures(store: Store, i: nat)
    requires store.Valid() && store.Durable() && (store.closed || store.fault.None?) && i < |store.accepted|
    ensures |store.ties.contracts| == |store.accepted|
    ensures Survives(store.g, store.events, store.accepted[i], store.ties.contracts[i])
  {
    var g, published, t := store.g, store.published, store.ties;
    BoundMeans(g, store.events, store.active.header.options, store.builder, published, t);
    TracksMeans(g, store.events, store.world);
    var k := FrameHolding(g, store.events, published, t.bindings, i);
    assert BindingOk(g, store.events, published[k], t.bindings[k]);
    PromisedIsSafe(g, store.events, published[k], t.bindings[k]);
  }

  // -------------------------------------------------------------- items and records

  function RecordIn(item: AsyncModel.Item): Record {
    Record(item.bytes, item.time)
  }

  function RecordsIn(items: seq<AsyncModel.Item>): (records: seq<Record>)
    ensures |records| == |items| && forall i :: 0 <= i < |items| ==> records[i] == RecordIn(items[i])
  {
    seq(|items|, i requires 0 <= i < |items| => RecordIn(items[i]))
  }

  function ContractsIn(items: seq<AsyncModel.Item>): (contracts: seq<Option<Contract>>)
    ensures |contracts| == |items| && forall i :: 0 <= i < |items| ==> contracts[i] == items[i].contract
  {
    seq(|items|, i requires 0 <= i < |items| => items[i].contract)
  }

  ghost predicate AllSurvive(g: Geometry, events: seq<Event>, items: seq<AsyncModel.Item>)
    requires ValidGeometry(g)
  {
    forall i {:trigger items[i]} :: 0 <= i < |items| ==>
      Survives(g, events, RecordIn(items[i]), items[i].contract)
  }

  lemma {:induction false} AllSurviveLater(g: Geometry, events: seq<Event>, later: seq<Event>,
                                           items: seq<AsyncModel.Item>)
    requires ValidGeometry(g) && AllSurvive(g, events, items) && events <= later
    ensures AllSurvive(g, later, items)
  {
    forall i | 0 <= i < |items|
      ensures Survives(g, later, RecordIn(items[i]), items[i].contract)
    {
      SurvivesLater(g, events, later, RecordIn(items[i]), items[i].contract);
    }
  }

  /**
    The store holds what it held before, then the items appended so far; and the items a checkpoint covers
    survive.
   */
  ghost predicate Backs(g: Geometry, events: seq<Event>, accepted: seq<Record>, contracts: seq<Option<Contract>>,
                        prior: nat, calls: seq<AsyncModel.StoreCall>)
    requires ValidGeometry(g)
  {
    forall k {:trigger Unfold(k)} :: Unfold(k) ==>
      var items := AsyncModel.AppendedItems(calls);
      && prior + |items| == |accepted| == |contracts|
      && accepted[prior..] == RecordsIn(items) && contracts[prior..] == ContractsIn(items)
      && AllSurvive(g, events, AsyncModel.CoveredItems(calls))
  }

  lemma {:induction false} BacksMeans(g: Geometry, events: seq<Event>, accepted: seq<Record>,
                                      contracts: seq<Option<Contract>>, prior: nat, calls: seq<AsyncModel.StoreCall>)
    requires ValidGeometry(g)
    ensures Backs(g, events, accepted, contracts, prior, calls) <==>
              var items := AsyncModel.AppendedItems(calls);
              && prior + |items| == |accepted| == |contracts|
              && accepted[prior..] == RecordsIn(items) && contracts[prior..] == ContractsIn(items)
              && AllSurvive(g, events, AsyncModel.CoveredItems(calls))
  {
    assert Unfold(0);
  }

  lemma {:induction false} BacksLater(g: Geometry, events: seq<Event>, later: seq<Event>, accepted: seq<Record>,
                                      contracts: seq<Option<Contract>>, prior: nat, calls: seq<AsyncModel.StoreCall>)
    requires ValidGeometry(g) && Backs(g, events, accepted, contracts, prior, calls) && events <= later
    ensures Backs(g, later, accepted, contracts, prior, calls)
  {
    BacksMeans(g, events, accepted, contracts, prior, calls);
    BacksMeans(g, later, accepted, contracts, prior, calls);
    AllSurviveLater(g, events, later, AsyncModel.CoveredItems(calls));
  }

  /** One more item was appended. */
  lemma {:induction false} BacksAppend(g: Geometry, events: seq<Event>, accepted: seq<Record>,
                                       contracts: seq<Option<Contract>>, prior: nat, calls: seq<AsyncModel.StoreCall>,
                                       item: AsyncModel.Item)
    requires ValidGeometry(g) && Backs(g, events, accepted, contracts, prior, calls)
    ensures Backs(g, events, accepted + [RecordIn(item)], contracts + [item.contract], prior,
                  calls + [AsyncModel.Appended(item)])
  {
    var call := AsyncModel.Appended(item);
    BacksMeans(g, events, accepted, contracts, prior, calls);
    BacksMeans(g, events, accepted + [RecordIn(item)], contracts + [item.contract], prior, calls + [call]);
    AsyncModel.AppendedSnoc(calls, call);
    assert (accepted + [RecordIn(item)])[prior..] == accepted[prior..] + [RecordIn(item)];
    assert (contracts + [item.contract])[prior..] == contracts[prior..] + [item.contract];
  }

  /** A checkpoint succeeded: everything appended is covered, and survives. */
  lemma {:induction false} BacksCheckpoint(store: Store, prior: nat, calls: seq<AsyncModel.StoreCall>)
    requires store.Valid() && store.Durable() && (store.closed || store.fault.None?)
    requires Backs(store.g, store.events, store.accepted, store.ties.contracts, prior, calls)
    ensures Backs(store.g, store.events, store.accepted, store.ties.contracts, prior,
                  calls + [AsyncModel.Checkpointed])
  {
    var g, accepted, contracts, items := store.g, store.accepted, store.ties.contracts, AsyncModel.AppendedItems(calls);
    BacksMeans(g, store.events, accepted, contracts, prior, calls);
    BacksMeans(g, store.events, accepted, contracts, prior, calls + [AsyncModel.Checkpointed]);
    AsyncModel.AppendedSnoc(calls, AsyncModel.Checkpointed);
    forall i | 0 <= i < |items|
      ensures Survives(g, store.events, RecordIn(items[i]), items[i].contract)
    {
      CheckpointSecures(store, prior + i);
      assert accepted[prior + i] == accepted[prior..][i] && contracts[prior + i] == contracts[prior..][i];
    }
  }

  lemma {:induction false} CoveredSurvive(g: Geometry, events: seq<Event>, accepted: seq<Record>,
                                          contracts: seq<Option<Contract>>, prior: nat,
                                          calls: seq<AsyncModel.StoreCall>, asked: seq<AsyncModel.Item>)
    requires ValidGeometry(g) && Backs(g, events, accepted, contracts, prior, calls)
    requires asked <= AsyncModel.CoveredItems(calls)
    ensures AllSurvive(g, events, asked)
  {
    BacksMeans(g, events, accepted, contracts, prior, calls);
    assert forall i :: 0 <= i < |asked| ==> asked[i] == AsyncModel.CoveredItems(calls)[i];
  }

  /** The items are what was submitted, in order. */
  ghost predicate Submitted(items: seq<AsyncModel.Item>, submissions: seq<AsyncModel.Submission>) {
    && |items| == |submissions|
    && forall i :: 0 <= i < |items| ==>
         && items[i].bytes == submissions[i].bytes && items[i].time == submissions[i].time
         && items[i].contract == submissions[i].contract
  }

  /** The first `n` submissions survive, each with its own bytes and time and under its own contract. */
  ghost predicate SubmissionsSurvive(g: Geometry, events: seq<Event>, submissions: seq<AsyncModel.Submission>, n: nat)
    requires ValidGeometry(g)
  {
    && n <= |submissions|
    && forall i {:trigger submissions[i]} :: 0 <= i < n ==>
         Survives(g, events, Record(submissions[i].bytes, submissions[i].time), submissions[i].contract)
  }

  lemma {:induction false} ItemsSurvive(g: Geometry, events: seq<Event>, items: seq<AsyncModel.Item>,
                                        submissions: seq<AsyncModel.Submission>, n: nat)
    requires ValidGeometry(g) && Submitted(items, submissions) && n <= |items| && AllSurvive(g, events, items[..n])
    ensures SubmissionsSurvive(g, events, submissions, n)
  {
    forall i | 0 <= i < n
      ensures Survives(g, events, Record(submissions[i].bytes, submissions[i].time), submissions[i].contract)
    {
      assert items[..n][i] == items[i];
    }
  }

  // ------------------------------------------------------------------- the pipeline

  class Pipeline {
    const writer: AsyncWriter.Writer
    const store: Store
    ghost const prior: nat    // how many records the store had accepted before
    ghost var submissions: seq<AsyncModel.Submission>    // those that were not refused

    ghost predicate Valid()
      reads `submissions, writer, store, store.storage
    {
      && writer.Valid() && store.Valid() && Submitted(writer.accepted, submissions)
      && Backs(store.g, store.events, store.accepted, store.ties.contracts, prior, writer.calls)
    }

    /** Some call to the store's backend has failed since. */
    ghost predicate StorageFailed(since: nat)
      reads store.storage
    {
      FailedIn(store.storage.faults, since, store.storage.calls)
    }

    /** Starts a writer on an open store. */
    constructor (store: Store, options: AsyncModel.Options, now: nat)
      requires store.Valid()
      ensures Valid() && this.store == store && fresh(writer) && writer.State() == AsyncModel.Started(now)
      ensures submissions == []
    {
      this.store, submissions := store, [];
      prior := |store.accepted|;
      var w := new AsyncWriter.Writer(options, now);
      writer := w;
      BoundMeans(store.g, store.events, store.active.header.options, store.builder, store.published, store.ties);
      FlatLength(store.g, store.events, store.published, store.ties.bindings);
      DividedMeans(store.accepted, store.published, store.builder);
      BacksMeans(store.g, store.events, store.accepted, store.ties.contracts, |store.accepted|, []);
    }

    method Submit(r: AsyncModel.Submission, now: nat) returns (error: Option<Error>)
      requires Valid()
      modifies writer, `submissions
      ensures Valid() && error == AsyncModel.SubmitError(writer.options, old(writer.State()), r)
      ensures writer.State() == AsyncModel.Submit(writer.options, old(writer.State()), r, now)
      ensures submissions == if error.None? then old(submissions) + [r] else old(submissions)
    {
      error := writer.Submit(r, now);
      if error.None? {
        submissions := submissions + [r];
      }
    }

    method RequestCheckpoint() returns (target: Result<nat>)
      requires Valid()
      modifies writer
      ensures Valid() && writer.State() == AsyncModel.RequestCheckpoint(old(writer.State()))
      ensures target.Ok? ==> target.value == |submissions|
    {
      target := writer.RequestCheckpoint();
    }

    method RequestStop()
      requires Valid()
      modifies writer
      ensures Valid() && writer.State() == AsyncModel.RequestStop(old(writer.State()))
    {
      writer.RequestStop();
    }

    method Pick(now: nat)
      requires Valid() && writer.worker.Waiting?
      modifies writer
      ensures Valid() && writer.State() == AsyncModel.Pick(writer.options, old(writer.State()), now)
    {
      writer.Pick(now);
    }

    method Complete(now: nat)
      requires Valid() && writer.worker.Called?
      modifies writer
      ensures Valid() && writer.State() == AsyncModel.Complete(old(writer.State()), now)
    {
      ghost var was := writer.State();
      writer.Complete(now);
      CompleteKeepsCalls(was, now);
      AsyncModel.CompleteAccepts(was, now);
    }

    /** Appends an item to the store, checked if it carries a contract. */
    method AppendItem(item: AsyncModel.Item) returns (r: Result<()>)
      requires Valid()
      modifies store.storage, store`fault, store`world, store`events, store`dirty, store`undurable, store`metrics,
               store`active, store`builder, store`builderMin, store`builderMax, store`published, store`accepted,
               store`ties
      ensures store.Valid() && old(store.events) <= store.events
      ensures Backs(store.g, store.events, store.accepted, store.ties.contracts, prior,
                    if r.Ok? then writer.calls + [AsyncModel.Appended(item)] else writer.calls)
    {
      ghost var was, accepted, contracts := store.events, store.accepted, store.ties.contracts;
      if item.contract.Some? {
        r := store.AppendChecked(RecordIn(item), item.contract.value);
      } else {
        r := store.Append(RecordIn(item), None);
      }
      BacksLater(store.g, was, store.events, accepted, contracts, prior, writer.calls);
      if r.Ok? {
        BacksAppend(store.g, store.events, accepted, contracts, prior, writer.calls, item);
      }
    }

    method CheckpointStore() returns (r: Result<()>)
      requires Valid()
      modifies store.storage, store`fault, store`world, store`events, store`active, store`metrics, store`dirty,
               store`builder, store`published, store`undurable, store`ties
      ensures store.Valid() && old(store.events) <= store.events
      ensures Backs(store.g, store.events, store.accepted, store.ties.contracts, prior,
                    if r.Ok? then writer.calls + [AsyncModel.Checkpointed] else writer.calls)
      ensures old(store.Refusal()).None? ==> (r.Err? <==> StorageFailed(old(store.storage.calls)))
    {
      ghost var was, contracts := store.events, store.ties.contracts;
      r := store.Checkpoint();
      BacksLater(store.g, was, store.events, store.accepted, contracts, prior, writer.calls);
      if r.Ok? {
        BacksCheckpoint(store, prior, writer.calls);
      }
    }

    /** Carries out a job the worker picked; doing nothing always succeeds. */
    method RunJob(job: AsyncModel.Job) returns (r: Result<()>)
      requires Valid()
      modifies store, store.storage
      ensures store.Valid() && old(store.events) <= store.events && (job.Nothing? ==> r.Ok?)
      ensures old(store.Refusal()).None? && job.Checkpoint? ==> (r.Err? <==> StorageFailed(old(store.storage.calls)))
      ensures Backs(store.g, store.events, store.accepted, store.ties.contracts, prior,
                    writer.calls + CallsOf(job, r.Ok?))
    {
      r := Ok(());
      if job.Append? {
        r := AppendItem(job.item);
      } else if job.Checkpoint? {
        r := CheckpointStore();
      }
      assert writer.calls + [] == writer.calls;
    }

    /** The worker's store call, outside its lock. */
    method CallStore() returns (result: Option<Error>)
      requires Valid() && writer.worker.Picked?
      modifies writer, store, store.storage
      ensures Valid() && old(store.events) <= store.events
      ensures writer.State() == AsyncModel.CallStore(old(writer.State()), result)
      ensures old(store.Refusal()).None? && old(writer.worker).job.Checkpoint? ==>
                (result.Some? <==> StorageFailed(old(store.storage.calls)))
    {
      ghost var was := writer.State();
      var r := RunJob(writer.worker.job);
      result := if r.Ok? then None else Some(r.error);
      writer.CallStore(result);
      CallsMade(was, result);
    }

    /** Once it returns Ok, everything submitted before the checkpoint was asked for survives. */
    method AwaitCheckpoint(target: nat) returns (outcome: Option<Result<()>>)
      requires Valid() && target <= |submissions|
      ensures outcome == AsyncModel.CheckpointOutcome(writer.State(), target)
      ensures outcome == Some(Ok(())) ==> SubmissionsSurvive(store.g, store.events, submissions, target)
    {
      ghost var asked := writer.accepted[..target];
      outcome := writer.AwaitCheckpoint(target, asked);
      if outcome == Some(Ok(())) {
        CoveredSurvive(store.g, store.events, store.accepted, store.ties.contracts, prior, writer.calls, asked);
        ItemsSurvive(store.g, store.events, writer.accepted, submissions, target);
      }
    }

    /** Once stop returns Ok, everything ever submitted and not refused survives. */
    method AwaitStop() returns (outcome: Option<Result<()>>)
      requires Valid()
      ensures outcome == AsyncModel.StopOutcome(writer.State())
      ensures outcome == Some(Ok(())) ==> SubmissionsSurvive(store.g, store.events, submissions, |submissions|)
    {
      outcome := writer.AwaitStop();
      if outcome == Some(Ok(())) {
        ghost var all := writer.accepted;
        assert all[..|all|] == all;
        CoveredSurvive(store.g, store.events, store.accepted, store.ties.contracts, prior, writer.calls, all);
        ItemsSurvive(store.g, store.events, all, submissions, |all|);
      }
    }
  }

  /** What a job adds to the log of successful store calls. */
  function CallsOf(job: AsyncModel.Job, ok: bool): seq<AsyncModel.StoreCall> {
    match job
    case Nothing => []
    case Append(item) => if ok then [AsyncModel.Appended(item)] else []
    case Checkpoint(_) => if ok then [AsyncModel.Checkpointed] else []
  }

  lemma {:induction false} CallsMade(s: AsyncModel.State, failure: Option<Error>)
    requires s.worker.Picked?
    ensures AsyncModel.CallStore(s, failure).calls == s.calls + CallsOf(s.worker.job, failure.None?)
  {
    assert s.calls + [] == s.calls;
  }

  lemma {:induction false} CompleteKeepsCalls(s: AsyncModel.State, now: nat)
    ensures AsyncModel.Complete(s, now).calls == s.calls
  {
  }
}
