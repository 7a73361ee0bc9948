/**
  The background writer as a state machine: producers and the worker interleave at
  critical-section granularity, and the store calls happen between two sections.
  One lifetime is modelled, from a successful start to the worker's exit.
 */
module AsyncModel {
  import opened Bytes
  import Media

  datatype Item = Item(bytes: seq<byte>, time: int, flags: nat, contract: Option<Media.Contract>,
                       sequence: nat, submittedAt: nat)

  datatype Options = Options(capacityRecords: nat, capacityBytes: nat, interval: nat)

  /** The successful calls the worker made to the store, in order. */
  datatype StoreCall = Appended(item: Item) | Checkpointed

  /** What the worker decided to do in its first critical section. */
  datatype Job = Nothing | Append(item: Item) | Checkpoint(exit: bool)

  datatype Worker =
    | Waiting
    | Picked(job: Job)
    | Called(job: Job, failure: Option<Error>)
    | Exited

  datatype State = State(
    running: bool,
    stopping: bool,
    checkpointRequested: bool,
    queue: seq<Item>,
    queuedBytes: int,
    submitted: nat,
    processed: nat,
    requestedBarrier: nat,
    completedBarrier: nat,
    durable: nat,
    haveOldest: bool,
    oldest: nat,
    failure: Option<Error>,
    checkpointStarted: nat,
    worker: Worker,
    accepted: seq<Item>,      // every item ever accepted, in acceptance order
    calls: seq<StoreCall>     // every successful store call, in order
  )

  function Started(now: nat): State {
    State(true, false, false, [], 0, 0, 0, 0, 0, 0, false, 0, None, now, Waiting, [], [])
  }

  function Min(a: int, b: int): int { if a < b then a else b }

  function Max(a: nat, b: nat): nat { if a < b then b else a }

  // ------------------------------------------------------------------ steps

  datatype Submission = Submission(bytes: seq<byte>, time: int, flags: nat, contract: Option<Media.Contract>)

  function SubmitError(o: Options, s: State, r: Submission): Option<Error> {
    if s.failure.Some? then s.failure
    else if !s.running || s.stopping then Some(Closed)
    else if r.bytes == [] then Some(InvalidArgument)
    else if |s.queue| >= o.capacityRecords || |r.bytes| > o.capacityBytes - Min(s.queuedBytes, o.capacityBytes)
    then Some(Busy)
    else None
  }

  function Submit(o: Options, s: State, r: Submission, now: nat): State {
    if SubmitError(o, s, r).Some? then s
    else
      var item := Item(r.bytes, r.time, r.flags, r.contract, s.submitted + 1, now);
      s.(submitted := s.submitted + 1,
         queue := s.queue + [item],
         queuedBytes := s.queuedBytes + |r.bytes|,
         haveOldest := true,
         oldest := if s.haveOldest then s.oldest else now,
         accepted := s.accepted + [item])
  }

  /** The first critical section of a barrier call: it asks for everything accepted so far. */
  function RequestCheckpoint(s: State): State {
    if s.failure.Some? || !s.running then s
    else s.(requestedBarrier := Max(s.requestedBarrier, s.submitted), checkpointRequested := true)
  }

  function RequestStop(s: State): State {
    if !s.running then s
    else s.(stopping := true, requestedBarrier := s.submitted, checkpointRequested := true)
  }

  predicate IntervalElapsed(started: nat, now: nat, interval: nat) {
    now >= started && now - started >= interval
  }

  function PickedJob(o: Options, s: State, now: nat): Job {
    var exit := s.stopping && s.queue == [];
    if || IntervalElapsed(s.checkpointStarted, now, o.interval)
       || (s.checkpointRequested && s.processed >= s.requestedBarrier)
       || exit
    then Checkpoint(exit)
    else if s.queue != [] then Append(s.queue[0])
    else Nothing
  }

  function Pick(o: Options, s: State, now: nat): State {
    if !s.worker.Waiting? then s
    else
      var job := PickedJob(o, s, now);
      if job.Append? && s.queue != []
      then s.(worker := Picked(job), queue := s.queue[1..], queuedBytes := s.queuedBytes - |s.queue[0].bytes|)
      else s.(worker := Picked(job))
  }

  /** The store call runs outside the lock and may fail. */
  function CallStore(s: State, failure: Option<Error>): State {
    if !s.worker.Picked? then s
    else
      match s.worker.job
      case Nothing => s.(worker := Called(Nothing, None))
      case Append(item) =>
        s.(worker := Called(s.worker.job, failure),
           calls := if failure.None? then s.calls + [Appended(item)] else s.calls)
      case Checkpoint(_) =>
        s.(worker := Called(s.worker.job, failure),
           calls := if failure.None? then s.calls + [Checkpointed] else s.calls)
  }

  function Fail(s: State, e: Error): State {
    s.(failure := Some(e), running := false, stopping := true, queue := [], queuedBytes := 0, worker := Exited)
  }

  function CompleteCheckpoint(s: State, exit: bool, now: nat): State {
    var moves := s.processed > s.durable && s.haveOldest;
    s.(completedBarrier := s.processed,
       haveOldest := if moves && s.queue == [] then false else s.haveOldest,
       oldest := if moves && s.queue != [] then s.queue[0].submittedAt else s.oldest,
       durable := s.processed,
       checkpointRequested := s.checkpointRequested && s.processed < s.requestedBarrier,
       checkpointStarted := now,
       running := s.running && !exit,
       worker := if exit then Exited else Waiting)
  }

  function Complete(s: State, now: nat): State {
    if !s.worker.Called? then s
    else if s.worker.failure.Some? then Fail(s, s.worker.failure.value)
    else
      match s.worker.job
      case Nothing => s.(worker := Waiting)
      case Append(item) => s.(processed := item.sequence, worker := Waiting)
      case Checkpoint(exit) => CompleteCheckpoint(s, exit, now)
  }

  datatype Event =
    | DoSubmit(r: Submission, now: nat)
    | DoRequestCheckpoint
    | DoRequestStop
    | DoPick(now: nat)
    | DoCallStore(failure: Option<Error>)
    | DoComplete(now: nat)

  function Apply(o: Options, s: State, e: Event): State {
    match e
    case DoSubmit(r, now) => Submit(o, s, r, now)
    case DoRequestCheckpoint => RequestCheckpoint(s)
    case DoRequestStop => RequestStop(s)
    case DoPick(now) => Pick(o, s, now)
    case DoCallStore(failure) => CallStore(s, failure)
    case DoComplete(now) => Complete(s, now)
  }

  /** Any interleaving of the steps above, from the start of the lifetime. */
  function Run(o: Options, started: nat, es: seq<Event>): State {
    if es == [] then Started(started) else Apply(o, Run(o, started, es[..|es| - 1]), es[|es| - 1])
  }

  // --------------------------------------------------------- what the log says

  function AppendedItems(calls: seq<StoreCall>): seq<Item> {
    if calls == [] then []
    else
      var last := calls[|calls| - 1];
      AppendedItems(calls[..|calls| - 1]) + (if last.Appended? then [last.item] else [])
  }

  /** The items whose append was followed by a successful store checkpoint. */
  function CoveredItems(calls: seq<StoreCall>): seq<Item> {
    if calls == [] then []
    else if calls[|calls| - 1].Checkpointed? then AppendedItems(calls)
    else CoveredItems(calls[..|calls| - 1])
  }

  function TotalBytes(queue: seq<Item>): nat {
    if queue == [] then 0 else TotalBytes(queue[..|queue| - 1]) + |queue[|queue| - 1].bytes|
  }

  // ---------------------------------------------------------------- invariant

  /** The item the worker took out of the queue and has not yet accounted for. */
  function InFlight(w: Worker): seq<Item> {
    match w
    case Picked(Append(item)) => [item]
    case Called(Append(item), _) => [item]
    case _ => []
  }

  ghost predicate Numbered(items: seq<Item>) {
    forall i :: 0 <= i < |items| ==> items[i].sequence == i + 1
  }

  /** What the worker has done in the store but not yet published. */
  ghost predicate LogMatches(s: State)
    requires s.durable <= s.processed <= |s.accepted|
  {
    match s.worker
    case Called(Append(item), None) =>
      && AppendedItems(s.calls) == s.accepted[..s.processed] + [item]
      && CoveredItems(s.calls) == s.accepted[..s.durable]
    case Called(Checkpoint(_), None) =>
      && AppendedItems(s.calls) == s.accepted[..s.processed]
      && CoveredItems(s.calls) == s.accepted[..s.processed]
    case _ =>
      && AppendedItems(s.calls) == s.accepted[..s.processed]
      && CoveredItems(s.calls) == s.accepted[..s.durable]
  }

  /** In every reachable state, failed or not. */
  ghost predicate Core(s: State) {
    && s.submitted == |s.accepted| && Numbered(s.accepted)
    && s.completedBarrier == s.durable
    && s.durable <= s.processed <= s.submitted
    && s.requestedBarrier <= s.submitted
    && (s.failure.Some? ==> s.worker.Exited? && !s.running)
    && (s.failure.None? && s.worker.Exited? ==> !s.running && s.stopping && s.durable == s.submitted)
    && (!s.worker.Exited? ==> s.running)
    && LogMatches(s)
  }

  /** What also holds as long as nothing failed. */
  ghost predicate Healthy(o: Options, s: State)
    requires Core(s)
  {
    && s.accepted[s.processed..] == InFlight(s.worker) + s.queue
    && |s.queue| <= o.capacityRecords
    && s.queuedBytes == TotalBytes(s.queue) <= o.capacityBytes
    && (s.haveOldest <==> s.durable < s.submitted)
    && (s.haveOldest ==> s.oldest == s.accepted[s.durable].submittedAt)
    && (s.completedBarrier < s.requestedBarrier ==> s.checkpointRequested)
    && (s.worker.Picked? && s.worker.job.Checkpoint? && s.worker.job.exit ==> s.stopping && s.queue == [])
    && (s.worker.Called? && s.worker.job.Checkpoint? && s.worker.job.exit ==> s.stopping && s.queue == [])
  }

  ghost predicate Inv(o: Options, s: State) {
    Core(s) && (s.failure.None? ==> Healthy(o, s))
  }

  lemma {:induction false} AppendedSnoc(calls: seq<StoreCall>, c: StoreCall)
    ensures AppendedItems(calls + [c]) == AppendedItems(calls) + (if c.Appended? then [c.item] else [])
    ensures CoveredItems(calls + [c]) == if c.Checkpointed? then AppendedItems(calls) else CoveredItems(calls)
  {
    assert (calls + [c])[..|calls|] == calls;
  }

  lemma {:induction false} TotalBytesSnoc(queue: seq<Item>, item: Item)
    ensures TotalBytes(queue + [item]) == TotalBytes(queue) + |item.bytes|
  {
    assert (queue + [item])[..|queue|] == queue;
  }

  lemma {:induction false} TotalBytesCons(queue: seq<Item>)
    requires queue != []
    ensures TotalBytes(queue) == |queue[0].bytes| + TotalBytes(queue[1..])
    decreases |queue|
  {
    if |queue| > 1 {
      var init := queue[..|queue| - 1];
      TotalBytesCons(init);
      assert queue[1..][..|queue| - 2] == init[1..];
    }
  }

  /** Accepting more does not disturb what the log says about earlier items. */
  lemma {:induction false} LogMatchesGrown(s: State, s': State)
    requires s.durable <= s.processed <= |s.accepted| && LogMatches(s)
    requires s.accepted <= s'.accepted
    requires s'.durable == s.durable && s'.processed == s.processed && s'.worker == s.worker && s'.calls == s.calls
    ensures LogMatches(s')
  {
    assert s'.accepted[..s.processed] == s.accepted[..s.processed];
    assert s'.accepted[..s.durable] == s.accepted[..s.durable];
  }

  lemma {:induction false} SubmitCore(o: Options, s: State, r: Submission, now: nat)
    requires Core(s) && SubmitError(o, s, r).None?
    ensures Core(Submit(o, s, r, now))
  {
    LogMatchesGrown(s, Submit(o, s, r, now));
  }

  lemma {:induction false} SubmitOldest(o: Options, s: State, r: Submission, now: nat)
    requires Core(s) && Healthy(o, s) && SubmitError(o, s, r).None?
    ensures var s' := Submit(o, s, r, now);
            s'.haveOldest && s'.durable < |s'.accepted| && s'.oldest == s'.accepted[s'.durable].submittedAt
  {
  }

  lemma {:induction false} SubmitQueue(o: Options, s: State, r: Submission, now: nat)
    requires Core(s) && Healthy(o, s) && SubmitError(o, s, r).None?
    ensures var s' := Submit(o, s, r, now); s'.accepted[s.processed..] == InFlight(s.worker) + s'.queue
  {
    var item := Submit(o, s, r, now).queue[|s.queue|];
    assert (s.accepted + [item])[s.processed..] == s.accepted[s.processed..] + [item];
    Assoc(InFlight(s.worker), s.queue, [item]);
  }

  lemma {:induction false} SubmitBounds(o: Options, s: State, r: Submission, now: nat)
    requires s.queuedBytes == TotalBytes(s.queue) <= o.capacityBytes && SubmitError(o, s, r).None?
    ensures var s' := Submit(o, s, r, now);
            && |s'.queue| <= o.capacityRecords
            && s'.queuedBytes == TotalBytes(s'.queue) <= o.capacityBytes
  {
    TotalBytesSnoc(s.queue, Submit(o, s, r, now).queue[|s.queue|]);
  }

  lemma {:induction false} SubmitKeeps(o: Options, s: State, r: Submission, now: nat)
    requires Inv(o, s)
    ensures Inv(o, Submit(o, s, r, now))
  {
    if SubmitError(o, s, r).None? {
      SubmitCore(o, s, r, now);
      SubmitOldest(o, s, r, now);
      SubmitQueue(o, s, r, now);
      SubmitBounds(o, s, r, now);
    }
  }

  lemma {:induction false} PickKeeps(o: Options, s: State, now: nat)
    requires Inv(o, s)
    ensures Inv(o, Pick(o, s, now))
  {
    if s.worker.Waiting? && PickedJob(o, s, now).Append? {
      TotalBytesCons(s.queue);
      assert s.queue == [s.queue[0]] + s.queue[1..];
    }
  }

  lemma {:induction false} CallKeeps(o: Options, s: State, failure: Option<Error>)
    requires Inv(o, s)
    ensures Inv(o, CallStore(s, failure))
  {
    if s.worker.Picked? && failure.None? && !s.worker.job.Nothing? {
      AppendedSnoc(s.calls, if s.worker.job.Append? then Appended(s.worker.job.item) else Checkpointed);
    }
  }

  lemma {:induction false} CompleteAppendKeeps(o: Options, s: State, now: nat)
    requires Inv(o, s) && s.worker.Called? && s.worker.failure.None? && s.worker.job.Append?
    ensures Inv(o, Complete(s, now))
  {
    var item := s.worker.job.item;
    assert s.accepted[s.processed] == s.accepted[s.processed..][0] == item;
    assert s.accepted[..s.processed + 1] == s.accepted[..s.processed] + [item];
    assert s.accepted[s.processed + 1..] == s.accepted[s.processed..][1..];
  }

  lemma {:induction false} CompleteCheckpointCore(o: Options, s: State, now: nat)
    requires Inv(o, s) && s.worker.Called? && s.worker.failure.None? && s.worker.job.Checkpoint?
    ensures Core(Complete(s, now))
  {
    assert |s.accepted[s.processed..]| == |s.queue|;
  }

  lemma {:induction false} CompleteCheckpointKeeps(o: Options, s: State, now: nat)
    requires Inv(o, s) && s.worker.Called? && s.worker.failure.None? && s.worker.job.Checkpoint?
    ensures Inv(o, Complete(s, now))
  {
    CompleteCheckpointCore(o, s, now);
    CompleteCheckpointOldest(o, s, now);
    assert s.accepted[s.processed..] == s.queue;
  }

  lemma {:induction false} CompleteCheckpointOldest(o: Options, s: State, now: nat)
    requires Inv(o, s) && s.worker.Called? && s.worker.failure.None? && s.worker.job.Checkpoint?
    ensures var s' := Complete(s, now);
            && s'.durable == s.processed <= |s.accepted| && s'.accepted == s.accepted && s'.submitted == s.submitted
            && (s'.haveOldest <==> s'.durable < s'.submitted)
            && (s'.haveOldest ==> s'.oldest == s'.accepted[s'.durable].submittedAt)
  {
    assert s.accepted[s.processed..] == s.queue;
    assert s.queue != [] ==> s.accepted[s.processed] == s.accepted[s.processed..][0];
  }

  lemma {:induction false} CompleteKeeps(o: Options, s: State, now: nat)
    requires Inv(o, s)
    ensures Inv(o, Complete(s, now))
  {
    if s.worker.Called? && s.worker.failure.None? {
      match s.worker.job
      case Nothing =>
      case Append(_) => CompleteAppendKeeps(o, s, now);
      case Checkpoint(_) => CompleteCheckpointKeeps(o, s, now);
    }
  }

  /** Every step keeps the invariant. */
  lemma {:induction false} ApplyKeeps(o: Options, s: State, e: Event)
    requires Inv(o, s)
    ensures Inv(o, Apply(o, s, e))
  {
    match e
    case DoSubmit(r, now) => SubmitKeeps(o, s, r, now);
    case DoRequestCheckpoint =>
    case DoRequestStop =>
    case DoPick(now) => PickKeeps(o, s, now);
    case DoCallStore(failure) => CallKeeps(o, s, failure);
    case DoComplete(now) => CompleteKeeps(o, s, now);
  }

  /** Accounting in every reachable state. */
  lemma {:induction false} Reachable(o: Options, started: nat, es: seq<Event>)
    ensures Inv(o, Run(o, started, es))
    decreases |es|
  {
    if es != [] {
      Reachable(o, started, es[..|es| - 1]);
      ApplyKeeps(o, Run(o, started, es[..|es| - 1]), es[|es| - 1]);
    }
  }

  ghost predicate Reached(o: Options, s: State) {
    exists started: nat, es: seq<Event> :: s == Run(o, started, es)
  }

  lemma {:induction false} ReachedStep(o: Options, s: State, e: Event)
    requires Reached(o, s)
    ensures Reached(o, Apply(o, s, e))
  {
    var started: nat, es: seq<Event> :| s == Run(o, started, es);
    assert (es + [e])[..|es|] == es;
    assert Apply(o, s, e) == Run(o, started, es + [e]);
  }

  lemma {:induction false} ReachedKeeps(o: Options, s: State)
    requires Reached(o, s)
    ensures Inv(o, s)
  {
    var started: nat, es: seq<Event> :| s == Run(o, started, es);
    Reachable(o, started, es);
  }

  // ----------------------------------------------------------------- barriers

  /** The outcome of a barrier call waiting for `target`, once its wait condition holds. */
  function CheckpointOutcome(s: State, target: nat): Option<Result<()>> {
    if s.completedBarrier < target && s.failure.None? && s.running then None
    else if s.failure.Some? then Some(Err(s.failure.value))
    else if s.completedBarrier < target then Some(Err(Closed))
    else Some(Ok(()))
  }

  /** Joining the worker ends the stop call. */
  function StopOutcome(s: State): Option<Result<()>> {
    if !s.worker.Exited? then None
    else if s.failure.Some? then Some(Err(s.failure.value))
    else Some(Ok(()))
  }

  ghost predicate Grows(s: State, s': State) {
    && s.accepted <= s'.accepted && s.calls <= s'.calls
    && (s.failure.Some? && s.worker.Exited? ==> s'.failure == s.failure && s'.worker.Exited?)
  }

  lemma {:induction false} PickGrows(o: Options, s: State, now: nat)
    ensures Grows(s, Pick(o, s, now))
  {
  }

  lemma {:induction false} CompleteGrows(s: State, now: nat)
    ensures Grows(s, Complete(s, now))
  {
  }

  lemma {:induction false} StepGrows(o: Options, s: State, e: Event)
    ensures Grows(s, Apply(o, s, e))
  {
    match e
    case DoPick(now) => PickGrows(o, s, now);
    case DoComplete(now) => CompleteGrows(s, now);
    case _ =>
  }

  lemma {:induction false} RunGrows(o: Options, started: nat, es: seq<Event>, i: nat)
    requires i <= |es|
    ensures Run(o, started, es[..i]).accepted <= Run(o, started, es).accepted
    ensures Run(o, started, es[..i]).failure.Some? ==> Run(o, started, es).failure == Run(o, started, es[..i]).failure
    decreases |es|
  {
    if i < |es| {
      var init := es[..|es| - 1];
      assert init[..i] == es[..i];
      RunGrows(o, started, init, i);
      Reachable(o, started, init);
      StepGrows(o, Run(o, started, init), es[|es| - 1]);
    } else {
      assert es[..i] == es;
    }
  }

  /**
    A barrier that asked after the first `i` events and returned Ok after all of them covers
    everything accepted by then: those items were appended to the store in acceptance order and
    a successful store checkpoint followed the last of them.
   */
  lemma {:induction false} CheckpointBarrier(o: Options, started: nat, es: seq<Event>, i: nat)
    requires i <= |es|
    requires CheckpointOutcome(Run(o, started, es), Run(o, started, es[..i]).submitted) == Some(Ok(()))
    ensures Run(o, started, es[..i]).accepted <= CoveredItems(Run(o, started, es).calls)
  {
    Reachable(o, started, es[..i]);
    Reachable(o, started, es);
    RunGrows(o, started, es, i);
  }

  /** A stop that returned Ok covers everything that was ever accepted. */
  lemma {:induction false} StopBarrier(o: Options, started: nat, es: seq<Event>)
    requires StopOutcome(Run(o, started, es)) == Some(Ok(()))
    ensures CoveredItems(Run(o, started, es).calls) == Run(o, started, es).accepted
  {
    Reachable(o, started, es);
  }

  /** After a failure no later barrier call returns Ok, whatever it waits for. */
  lemma {:induction false} FailureSticks(o: Options, started: nat, es: seq<Event>, i: nat, target: nat)
    requires i <= |es| && Run(o, started, es[..i]).failure.Some?
    ensures var s := Run(o, started, es);
            && CheckpointOutcome(s, target) == Some(Err(Run(o, started, es[..i]).failure.value))
            && StopOutcome(s) == Some(Err(Run(o, started, es[..i]).failure.value))
  {
    RunGrows(o, started, es, i);
    Reachable(o, started, es);
  }

  /** Covered items really were appended in order and then checkpointed. */
  lemma {:induction false} CoveredMeans(calls: seq<StoreCall>)
    ensures CoveredItems(calls) <= AppendedItems(calls)
    ensures CoveredItems(calls) != [] ==>
              exists k :: 0 <= k < |calls| && calls[k].Checkpointed? && CoveredItems(calls) == AppendedItems(calls[..k])
    decreases |calls|
  {
    if calls != [] {
      var n := |calls| - 1;
      var init := calls[..n];
      CoveredMeans(init);
      if calls[n].Checkpointed? {
        assert CoveredItems(calls) == AppendedItems(calls[..n]);
      } else if CoveredItems(init) != [] {
        var k :| 0 <= k < |init| && init[k].Checkpointed? && CoveredItems(init) == AppendedItems(init[..k]);
        assert calls[..k] == init[..k];
      }
    }
  }

  // ------------------------------------------------------ what the items are

  /** The item is what was submitted, at that time. */
  predicate Holds(item: Item, r: Submission, now: nat) {
    && item.bytes == r.bytes && item.time == r.time && item.flags == r.flags && item.contract == r.contract
    && item.submittedAt == now
  }

  /** The submissions of a run that were not refused, and when they were made. */
  function Taken(o: Options, started: nat, es: seq<Event>): seq<(Submission, nat)> {
    if es == [] then []
    else
      var n := |es| - 1;
      Taken(o, started, es[..n]) +
      match es[n]
      case DoSubmit(r, now) => if SubmitError(o, Run(o, started, es[..n]), r).None? then [(r, now)] else []
      case _ => []
  }

  /** The accepted items are exactly the submissions that were not refused, in order. */
  lemma {:induction false} AcceptedIsTaken(o: Options, started: nat, es: seq<Event>)
    ensures var s, taken := Run(o, started, es), Taken(o, started, es);
            && |s.accepted| == |taken|
            && forall i :: 0 <= i < |taken| ==> Holds(s.accepted[i], taken[i].0, taken[i].1)
    decreases |es|
  {
    if es != [] {
      var n := |es| - 1;
      AcceptedIsTaken(o, started, es[..n]);
      AcceptedStep(o, Run(o, started, es[..n]), es[n]);
    }
  }

  lemma {:induction false} AcceptedStep(o: Options, s: State, e: Event)
    ensures var s' := Apply(o, s, e);
            if e.DoSubmit? && SubmitError(o, s, e.r).None?
            then |s'.accepted| == |s.accepted| + 1 && s.accepted == s'.accepted[..|s.accepted|]
                 && Holds(s'.accepted[|s.accepted|], e.r, e.now)
            else s'.accepted == s.accepted
  {
    match e
    case DoPick(now) => PickAccepts(o, s, now);
    case DoComplete(now) => CompleteAccepts(s, now);
    case _ =>
  }

  lemma {:induction false} PickAccepts(o: Options, s: State, now: nat)
    ensures Pick(o, s, now).accepted == s.accepted
  {
  }

  lemma {:induction false} CompleteAccepts(s: State, now: nat)
    ensures Complete(s, now).accepted == s.accepted
  {
  }

  /**
    A submission is taken exactly when nothing has failed, the writer runs and is not stopping, the record is
    not empty, and one more record of its size fits both capacities.
   */
  lemma {:induction false} SubmissionTaken(o: Options, started: nat, es: seq<Event>, r: Submission)
    requires Run(o, started, es).failure.None?
    ensures var s := Run(o, started, es);
            SubmitError(o, s, r).None? <==>
              && s.running && !s.stopping && |r.bytes| > 0
              && |s.queue| + 1 <= o.capacityRecords && TotalBytes(s.queue) + |r.bytes| <= o.capacityBytes
  {
    Reachable(o, started, es);
  }

  /** A waiting worker whose interval has passed picks a checkpoint before anything else. */
  lemma {:induction false} IntervalServed(o: Options, s: State, now: nat)
    requires s.worker.Waiting? && s.checkpointStarted + o.interval <= now
    ensures Pick(o, s, now).worker == Picked(Checkpoint(s.stopping && s.queue == []))
    ensures Pick(o, s, now).queue == s.queue
  {
  }

  /** Without a reason for a checkpoint it takes the oldest item, and without an item it does nothing. */
  lemma {:induction false} QueueServed(o: Options, s: State, now: nat)
    requires s.worker.Waiting? && now < s.checkpointStarted + o.interval
    requires s.checkpointRequested ==> s.processed < s.requestedBarrier
    ensures s.queue != [] ==> Pick(o, s, now).worker == Picked(Append(s.queue[0]))
    ensures s.queue != [] ==> Pick(o, s, now).queue == s.queue[1..]
    ensures s.queue == [] && !s.stopping ==> Pick(o, s, now).worker == Picked(Nothing)
  {
  }

  /** A barrier is over with Ok exactly when nothing failed and what it waits for is durable. */
  lemma {:induction false} BarrierReturns(o: Options, started: nat, es: seq<Event>, target: nat)
    ensures var s := Run(o, started, es);
            CheckpointOutcome(s, target) == Some(Ok(())) <==> s.failure.None? && target <= s.durable
    ensures var s := Run(o, started, es); StopOutcome(s) == Some(Ok(())) <==> s.failure.None? && s.worker == Exited
  {
    Reachable(o, started, es);
  }

  /** A successful checkpoint makes everything appended so far durable and starts the interval anew. */
  lemma {:induction false} CheckpointCounts(s: State, exit: bool, now: nat)
    requires s.worker == Called(Checkpoint(exit), None)
    ensures Complete(s, now).durable == Complete(s, now).completedBarrier == s.processed
    ensures Complete(s, now).checkpointStarted == now
    ensures Complete(s, now).worker == if exit then Exited else Waiting
  {
  }

  /** Once a stop was asked for, every submission is refused. */
  lemma {:induction false} StopRefuses(o: Options, started: nat, es: seq<Event>, i: nat, r: Submission)
    requires i < |es| && es[i].DoRequestStop?
    ensures SubmitError(o, Run(o, started, es), r).Some?
    decreases |es|
  {
    ClosedStays(o, started, es, i);
  }

  lemma {:induction false} ClosedStays(o: Options, started: nat, es: seq<Event>, i: nat)
    requires i < |es| && es[i].DoRequestStop?
    ensures !Run(o, started, es).running || Run(o, started, es).stopping
    decreases |es|
  {
    var n := |es| - 1;
    if i < n {
      ClosedStays(o, started, es[..n], i);
      ClosedStep(o, Run(o, started, es[..n]), es[n]);
    }
  }

  lemma {:induction false} ClosedStep(o: Options, s: State, e: Event)
    requires !s.running || s.stopping
    ensures !Apply(o, s, e).running || Apply(o, s, e).stopping
  {
  }

  /** A checkpoint asks for everything accepted so far, and so does a stop. */
  lemma {:induction false} EverythingAsked(o: Options, started: nat, es: seq<Event>)
    requires Run(o, started, es).failure.None? && Run(o, started, es).running
    ensures var s := Run(o, started, es);
            && RequestCheckpoint(s).requestedBarrier == |s.accepted| && RequestCheckpoint(s).checkpointRequested
            && RequestStop(s).requestedBarrier == |s.accepted| && RequestStop(s).checkpointRequested
  {
    Reachable(o, started, es);
  }

  /** A requested barrier never leaves the worker waiting with an empty queue and nothing to do. */
  lemma {:induction false} BarrierIsServed(o: Options, started: nat, es: seq<Event>, now: nat)
    requires var s := Run(o, started, es); s.worker.Waiting? && s.completedBarrier < s.requestedBarrier
    ensures var s := Run(o, started, es); PickedJob(o, s, now).Checkpoint? || PickedJob(o, s, now).Append?
    ensures var s := Run(o, started, es); s.queue == [] ==> PickedJob(o, s, now).Checkpoint?
  {
    Reachable(o, started, es);
  }
}

/** The writer object: the fields its critical sections update, under one lock. */
module AsyncWriter {
  import opened Bytes
  import opened AsyncModel

  class Writer {
    const options: Options
    var running: bool
    var stopping: bool
    var checkpointRequested: bool
    var queue: seq<Item>
    var queuedBytes: int
    var submitted: nat
    var processed: nat
    var requestedBarrier: nat
    var completedBarrier: nat
    var durable: nat
    var haveOldest: bool
    var oldest: nat
    var failure: Option<Error>
    var checkpointStarted: nat
    var worker: Worker
    ghost var accepted: seq<Item>
    ghost var calls: seq<StoreCall>

    ghost function State(): AsyncModel.State
      reads this
    {
      AsyncModel.State.State(running, stopping, checkpointRequested, queue, queuedBytes, submitted, processed,
                             requestedBarrier, completedBarrier, durable, haveOldest, oldest, failure,
                             checkpointStarted, worker, accepted, calls)
    }

    ghost predicate Valid()
      reads this
    {
      Reached(options, State())
    }

    /** A successful start: counters reset, the worker about to wait. */
    constructor (o: Options, now: nat)
      ensures Valid() && options == o && State() == Started(now)
    {
      options := o;
      running, stopping, checkpointRequested := true, false, false;
      queue, queuedBytes := [], 0;
      submitted, processed, requestedBarrier, completedBarrier, durable := 0, 0, 0, 0, 0;
      haveOldest, oldest := false, 0;
      failure, checkpointStarted, worker := None, now, Waiting;
      accepted, calls := [], [];
      new;
      assert State() == Run(o, now, []);
    }

    method Enqueue(item: Item)
      requires item.sequence == submitted + 1
      modifies `submitted, `queue, `queuedBytes, `haveOldest, `oldest, `accepted
      ensures submitted == item.sequence && queue == old(queue) + [item] && accepted == old(accepted) + [item]
      ensures queuedBytes == old(queuedBytes) + |item.bytes|
      ensures haveOldest && oldest == if old(haveOldest) then old(oldest) else item.submittedAt
    {
      submitted := item.sequence;
      queuedBytes := queuedBytes + |item.bytes|;
      queue := queue + [item];
      accepted := accepted + [item];
      if !haveOldest {
        haveOldest, oldest := true, item.submittedAt;
      }
    }

    method Submit(r: Submission, now: nat) returns (error: Option<Error>)
      requires Valid()
      modifies `submitted, `queue, `queuedBytes, `haveOldest, `oldest, `accepted
      ensures Valid()
      ensures error == SubmitError(options, old(State()), r)
      ensures State() == AsyncModel.Submit(options, old(State()), r, now)
      ensures error.Some? ==> accepted == old(accepted)
      ensures error.None? ==>
                && |accepted| == |old(accepted)| + 1 && accepted[..|old(accepted)|] == old(accepted)
                && accepted[|old(accepted)|].bytes == r.bytes && accepted[|old(accepted)|].time == r.time
                && accepted[|old(accepted)|].flags == r.flags && accepted[|old(accepted)|].contract == r.contract
                && accepted[|old(accepted)|].submittedAt == now
    {
      ReachedStep(options, State(), DoSubmit(r, now));
      if failure.Some? {
        return failure;
      }
      if !running || stopping {
        return Some(Closed);
      }
      if r.bytes == [] {
        return Some(InvalidArgument);
      }
      if |queue| >= options.capacityRecords
         || |r.bytes| > options.capacityBytes - Min(queuedBytes, options.capacityBytes) {
        return Some(Busy);
      }
      Enqueue(Item(r.bytes, r.time, r.flags, r.contract, submitted + 1, now));
      return None;
    }

    /** The part of a checkpoint call before it waits. */
    method RequestCheckpoint() returns (target: Result<nat>)
      requires Valid()
      modifies `requestedBarrier, `checkpointRequested
      ensures Valid()
      ensures State() == AsyncModel.RequestCheckpoint(old(State()))
      ensures target == if failure.Some? then Err(failure.value) else if !running then Err(Closed) else Ok(|accepted|)
    {
      ReachedKeeps(options, State());
      ReachedStep(options, State(), DoRequestCheckpoint);
      if failure.Some? {
        return Err(failure.value);
      }
      if !running {
        return Err(Closed);
      }
      requestedBarrier := Max(requestedBarrier, submitted);
      checkpointRequested := true;
      return Ok(submitted);
    }

    /** The part after it waits: `asked` is what had been accepted when it asked. */
    method AwaitCheckpoint(target: nat, ghost asked: seq<Item>) returns (outcome: Option<Result<()>>)
      requires Valid() && asked <= accepted && target == |asked|
      ensures outcome == CheckpointOutcome(State(), target)
      ensures outcome == Some(Ok(())) ==> asked <= CoveredItems(calls)
    {
      ReachedKeeps(options, State());
      if completedBarrier < target && failure.None? && running {
        return None;
      }
      if failure.Some? {
        return Some(Err(failure.value));
      }
      if completedBarrier < target {
        return Some(Err(Closed));
      }
      return Some(Ok(()));
    }

    method RequestStop()
      requires Valid()
      modifies `stopping, `requestedBarrier, `checkpointRequested
      ensures Valid()
      ensures State() == AsyncModel.RequestStop(old(State()))
    {
      ReachedStep(options, State(), DoRequestStop);
      if running {
        stopping := true;
        requestedBarrier := submitted;
        checkpointRequested := true;
      }
    }

    method AwaitStop() returns (outcome: Option<Result<()>>)
      requires Valid()
      ensures outcome == StopOutcome(State())
      ensures outcome == Some(Ok(())) ==> CoveredItems(calls) == accepted
    {
      ReachedKeeps(options, State());
      if !worker.Exited? {
        return None;
      }
      return if failure.Some? then Some(Err(failure.value)) else Some(Ok(()));
    }

    /** The worker's first critical section, after its wait ended for whatever reason. */
    method Pick(now: nat)
      requires Valid() && worker.Waiting?
      modifies `queue, `queuedBytes, `worker
      ensures Valid()
      ensures State() == AsyncModel.Pick(options, old(State()), now)
    {
      ReachedStep(options, State(), DoPick(now));
      var doCheckpoint, exit := false, false;
      if IntervalElapsed(checkpointStarted, now, options.interval) {
        doCheckpoint := true;
      }
      if checkpointRequested && processed >= requestedBarrier {
        doCheckpoint := true;
      }
      if stopping && queue == [] {
        doCheckpoint, exit := true, true;
      }
      if doCheckpoint {
        worker := Picked(Checkpoint(exit));
      } else if queue != [] {
        var item := queue[0];
        queue := queue[1..];
        queuedBytes := queuedBytes - |item.bytes|;
        worker := Picked(Append(item));
      } else {
        worker := Picked(Nothing);
      }
    }

    /** The store call between the two sections; the store decides whether it fails. */
    method CallStore(result: Option<Error>)
      requires Valid() && worker.Picked?
      modifies `calls, `worker
      ensures Valid()
      ensures State() == AsyncModel.CallStore(old(State()), result)
    {
      ReachedStep(options, State(), DoCallStore(result));
      var job := worker.job;
      worker := Called(job, if job.Nothing? then None else result);
      if result.None? && !job.Nothing? {
        calls := calls + [if job.Append? then Appended(job.item) else Checkpointed];
      }
    }

    /** Publishes a successful store checkpoint. */
    method FinishCheckpoint(exit: bool, now: nat)
      modifies `completedBarrier, `haveOldest, `oldest, `durable, `checkpointRequested, `checkpointStarted,
               `running, `worker
      ensures completedBarrier == durable == processed && checkpointStarted == now
      ensures processed > old(durable) && old(haveOldest) && queue == [] ==> !haveOldest && oldest == old(oldest)
      ensures processed > old(durable) && old(haveOldest) && queue != [] ==>
                haveOldest && oldest == queue[0].submittedAt
      ensures !(processed > old(durable) && old(haveOldest)) ==> haveOldest == old(haveOldest) && oldest == old(oldest)
      ensures checkpointRequested == (old(checkpointRequested) && processed < requestedBarrier)
      ensures running == (old(running) && !exit) && worker == if exit then Exited else Waiting
    {
      var advanced := processed > durable;
      completedBarrier := processed;
      if advanced && haveOldest {
        if queue == [] {
          haveOldest := false;
        } else {
          oldest := queue[0].submittedAt;
        }
      }
      durable := completedBarrier;
      if completedBarrier >= requestedBarrier {
        checkpointRequested := false;
      }
      checkpointStarted := now;
      worker := Waiting;
      if exit {
        running := false;
        worker := Exited;
      }
    }

    method FailBackground(error: Error)
      modifies `failure, `running, `stopping, `queue, `queuedBytes, `worker
      ensures failure == Some(error) && !running && stopping && queue == [] && queuedBytes == 0 && worker == Exited
    {
      failure := Some(error);
      running, stopping := false, true;
      queue, queuedBytes := [], 0;
      worker := Exited;
    }

    /** Publishes what a successful store call did. */
    method Publish(now: nat)
      requires worker.Called? && worker.failure.None?
      modifies this
      ensures State() == AsyncModel.Complete(old(State()), now)
    {
      match worker.job
      case Nothing =>
        worker := Waiting;
      case Append(item) =>
        processed := item.sequence;
        worker := Waiting;
      case Checkpoint(exit) =>
        FinishCheckpoint(exit, now);
    }

    /** The worker's second critical section. */
    method Complete(now: nat)
      requires Valid() && worker.Called?
      modifies this
      ensures Valid()
      ensures State() == AsyncModel.Complete(old(State()), now)
    {
      ReachedStep(options, State(), DoComplete(now));
      if worker.failure.Some? {
        FailBackground(worker.failure.value);
      } else {
        Publish(now);
      }
    }
  }
}
