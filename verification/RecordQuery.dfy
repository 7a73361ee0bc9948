/**
  Queries for records: blocks are chosen by the time index, decoded by the record profile, and their
  records filtered.  Without gaps the outcome is that of filtering every published record.
 */
module RecordQuery {
  import opened Bytes
  import opened Framing
  import opened FramedRecords
  import opened Media
  import opened Recovery
  import opened ReaderRace

  /** How the records of a partition are encoded. */
  datatype Profile = Profile(id: nat, version: nat, code: Code<FramedRecord>)

  const FRAMED_RECORD_V1 := 0x5446444252465631

  function FramedProfile(): Profile {
    Profile(FRAMED_RECORD_V1, 1, RecordCode())
  }

  /** A block's data: the bytes of its records, one after the other. */
  function Payload(records: seq<Record>): seq<byte> {
    if records == [] then [] else records[0].bytes + Payload(records[1..])
  }

  // ------------------------------------------------------ the records published

  /** The record was encoded by the profile and appended under its own time. */
  predicate Profiled(c: Code<FramedRecord>, r: Record) {
    && c.decode(r.bytes).Ok?
    && c.encode(c.decode(r.bytes).value) == r.bytes
    && c.decode(r.bytes).value.time == r.time
  }

  predicate AllProfiled(c: Code<FramedRecord>, records: seq<Record>) {
    forall i :: 0 <= i < |records| ==> Profiled(c, records[i])
  }

  function Original(c: Code<FramedRecord>, r: Record): FramedRecord
    requires Profiled(c, r)
  {
    c.decode(r.bytes).value
  }

  function Originals(c: Code<FramedRecord>, records: seq<Record>): seq<FramedRecord>
    requires AllProfiled(c, records)
  {
    if records == [] then [] else [Original(c, records[0])] + Originals(c, records[1..])
  }

  /** In [begin, end), and selected; no selectors select everything. */
  predicate Matches(q: Query, selectors: set<int>, r: FramedRecord) {
    && (q.InRange? ==> q.begin <= r.time < q.end)
    && (selectors == {} || r.selector in selectors)
  }

  function Matching(q: Query, selectors: set<int>, records: seq<FramedRecord>): seq<FramedRecord> {
    if records == [] then []
    else
      var n := |records| - 1;
      Matching(q, selectors, records[..n]) + (if Matches(q, selectors, records[n]) then [records[n]] else [])
  }

  /** Every record published in the domain of the query, in append order. */
  function DomainRecords(q: Query, ps: seq<Snapshot>, truth: seq<Truth>): seq<Record>
    requires |ps| == |truth|
  {
    if ps == [] then []
    else
      var n := |ps| - 1;
      DomainRecords(q, ps[..n], truth[..n]) + (if InDomain(q, ps[n].header) then RecordsOf(truth[n].frames) else [])
  }

  // ------------------------------------------------------------- one block

  lemma {:induction false} OriginalsLength(c: Code<FramedRecord>, records: seq<Record>)
    requires AllProfiled(c, records)
    ensures |Originals(c, records)| == |records|
    decreases |records|
  {
    if records != [] {
      OriginalsLength(c, records[1..]);
    }
  }

  /** The block of profiled records decodes to the records it was made of. */
  lemma {:induction false} PayloadParses(c: Code<FramedRecord>, records: seq<Record>)
    requires Delimits(c) && AllProfiled(c, records)
    ensures Parse(c, Payload(records)) == Parsed(Originals(c, records), true)
    decreases |records|
  {
    if records != [] {
      var r, tail := Original(c, records[0]), Payload(records[1..]);
      assert c.fits(r);
      assert c.decode(c.encode(r) + tail) == Ok(r);
      assert (c.encode(r) + tail)[c.size(r)..] == tail;
      PayloadParses(c, records[1..]);
    }
  }

  datatype RecordEvent = Found(record: FramedRecord) | Lost(gap: BlockEvent)

  /** The records among the events, in order. */
  function FoundIn(events: seq<RecordEvent>): seq<FramedRecord> {
    if events == [] then []
    else
      var n := |events| - 1;
      FoundIn(events[..n]) + (if events[n].Found? then [events[n].record] else [])
  }

  function FoundAll(records: seq<FramedRecord>): (events: seq<RecordEvent>)
    ensures |events| == |records| && forall i :: 0 <= i < |records| ==> events[i] == Found(records[i])
  {
    seq(|records|, i requires 0 <= i < |records| => Found(records[i]))
  }

  lemma {:induction false} MatchingStep(q: Query, selectors: set<int>, records: seq<FramedRecord>, i: nat)
    requires i < |records|
    ensures Matching(q, selectors, records[..i + 1]) ==
            Matching(q, selectors, records[..i]) + (if Matches(q, selectors, records[i]) then [records[i]] else [])
  {
    assert records[..i + 1][..i] == records[..i];
  }

  method Filter(q: Query, selectors: set<int>, records: seq<FramedRecord>) returns (events: seq<RecordEvent>)
    ensures events == FoundAll(Matching(q, selectors, records))
  {
    events := [];
    for i := 0 to |records|
      invariant events == FoundAll(Matching(q, selectors, records[..i]))
    {
      MatchingStep(q, selectors, records, i);
      if Matches(q, selectors, records[i]) {
        events := events + [Found(records[i])];
      }
    }
    assert records[..|records|] == records;
  }

  /** What the visitor receives for one block event, and the reason the query then ends, if it does. */
  datatype Visit = Visit(found: seq<RecordEvent>, error: Option<Error>)

  /** The matching records of a block, up to damage; a gap is passed on as it is. */
  function Outcome(profile: Profile, q: Query, selectors: set<int>, options: PartitionOptions, event: BlockEvent): Visit
    requires Delimits(profile.code)
  {
    match event
    case Data(frame) =>
      if options.formatId != profile.id || options.formatVersion != profile.version then Visit([], Some(Unsupported))
      else
        var parsed := Parse(profile.code, Payload(frame.records));
        Visit(FoundAll(Matching(q, selectors, parsed.records)),
              if !parsed.complete || |parsed.records| != |frame.records| then Some(Corrupt) else None)
    case _ => Visit([Lost(event)], None)
  }

  /** A block of profiled records yields exactly those of its records that match. */
  lemma {:induction false} BlockYields(profile: Profile, q: Query, selectors: set<int>, options: PartitionOptions,
                                       f: Frame)
    requires Delimits(profile.code) && AllProfiled(profile.code, f.records)
    requires options.formatId == profile.id && options.formatVersion == profile.version
    ensures Outcome(profile, q, selectors, options, Data(f)) ==
            Visit(FoundAll(Matching(q, selectors, Originals(profile.code, f.records))), None)
  {
    PayloadParses(profile.code, f.records);
    OriginalsLength(profile.code, f.records);
  }

  // ------------------------------------------------------------- the query

  /** The options of the partition an event comes from. */
  function OptionsOf(ps: seq<Snapshot>, event: BlockEvent): PartitionOptions {
    if ps == [] then PartitionOptions(0, 0, 0)
    else
      var h := ps[|ps| - 1].header;
      if event.Data? && h.generation == event.frame.generation then h.options else OptionsOf(ps[..|ps| - 1], event)
  }

  function Outcomes(profile: Profile, q: Query, selectors: set<int>, ps: seq<Snapshot>, events: seq<BlockEvent>)
    : seq<RecordEvent>
    requires Delimits(profile.code)
  {
    if events == [] then []
    else
      var n := |events| - 1;
      var last := Outcome(profile, q, selectors, OptionsOf(ps, events[n]), events[n]);
      Outcomes(profile, q, selectors, ps, events[..n]) + last.found
  }

  lemma {:induction false} OutcomesStep(profile: Profile, q: Query, selectors: set<int>, ps: seq<Snapshot>,
                                        events: seq<BlockEvent>, i: nat)
    requires Delimits(profile.code) && i < |events|
    ensures var o := Outcome(profile, q, selectors, OptionsOf(ps, events[i]), events[i]);
            Outcomes(profile, q, selectors, ps, events[..i + 1]) ==
            Outcomes(profile, q, selectors, ps, events[..i]) + o.found
  {
    assert events[..i + 1][..i] == events[..i];
  }

  /** Decodes and filters one block. */
  method VisitBlock(profile: Profile, q: Query, selectors: set<int>, options: PartitionOptions, event: BlockEvent)
    returns (v: Visit)
    requires Delimits(profile.code)
    ensures v == Outcome(profile, q, selectors, options, event)
  {
    if !event.Data? {
      return Visit([Lost(event)], None);
    }
    if options.formatId != profile.id || options.formatVersion != profile.version {
      return Visit([], Some(Unsupported));
    }
    var parsed := Parse(profile.code, Payload(event.frame.records));
    var found := Filter(q, selectors, parsed.records);
    v := Visit(found, if !parsed.complete || |parsed.records| != |event.frame.records| then Some(Corrupt) else None);
  }

  /** Why a query ends at an event, if it does. */
  function ErrorAt(profile: Profile, q: Query, selectors: set<int>, ps: seq<Snapshot>, event: BlockEvent): Option<Error>
    requires Delimits(profile.code)
  {
    Outcome(profile, q, selectors, OptionsOf(ps, event), event).error
  }

  /** Visits the block events in order, up to and including the first that cannot be decoded. */
  method VisitAll(profile: Profile, q: Query, selectors: set<int>, ps: seq<Snapshot>, blocks: seq<BlockEvent>)
    returns (events: seq<RecordEvent>, visited: nat, r: Result<()>)
    requires Delimits(profile.code)
    ensures visited <= |blocks| && events == Outcomes(profile, q, selectors, ps, blocks[..visited])
    ensures forall i :: 0 <= i < visited && (r.Ok? || i < visited - 1) ==>
              ErrorAt(profile, q, selectors, ps, blocks[i]).None?
    ensures r.Ok? ==> visited == |blocks|
    ensures r.Err? ==> visited > 0
    ensures r.Err? ==> ErrorAt(profile, q, selectors, ps, blocks[visited - 1]) == Some(r.error)
  {
    events, visited := [], 0;
    for i := 0 to |blocks|
      invariant visited == i && events == Outcomes(profile, q, selectors, ps, blocks[..i])
      invariant forall j :: 0 <= j < i ==> ErrorAt(profile, q, selectors, ps, blocks[j]).None?
    {
      OutcomesStep(profile, q, selectors, ps, blocks, i);
      var v := VisitBlock(profile, q, selectors, OptionsOf(ps, blocks[i]), blocks[i]);
      events, visited := events + v.found, i + 1;
      if v.error.Some? {
        return events, visited, Err(v.error.value);
      }
    }
    return events, visited, Ok(());
  }

  // ------------------------------------------------------- what a query means

  /** Nothing was found but records in the half-open range with one of the selectors, if any were given. */
  ghost predicate OnlyWanted(q: Query, selectors: set<int>, events: seq<RecordEvent>) {
    forall i :: 0 <= i < |events| && events[i].Found? ==>
      && (q.InRange? ==> q.begin <= events[i].record.time < q.end)
      && (selectors == {} || events[i].record.selector in selectors)
  }

  /** What was found is the sublist at `picked`: exactly the records in the range with one of the selectors. */
  ghost predicate Picks(q: Query, selectors: set<int>, all: seq<FramedRecord>, picked: seq<nat>,
                        found: seq<FramedRecord>)
  {
    && |found| == |picked|
    && (forall j :: 0 <= j < |picked| ==> picked[j] < |all| && found[j] == all[picked[j]])
    && (forall j, k :: 0 <= j < k < |picked| ==> picked[j] < picked[k])
    && (forall i :: 0 <= i < |all| ==>
          (i in picked <==>
             (q.InRange? ==> q.begin <= all[i].time < q.end) && (selectors == {} || all[i].selector in selectors)))
  }

  ghost predicate Picked(q: Query, selectors: set<int>, all: seq<FramedRecord>, picked: seq<nat>,
                         found: seq<FramedRecord>)
  {
    forall k {:trigger Unfold(k)} :: Unfold(k) ==> Picks(q, selectors, all, picked, found)
  }

  lemma {:induction false} PickedMeans(q: Query, selectors: set<int>, all: seq<FramedRecord>, picked: seq<nat>,
                                       found: seq<FramedRecord>)
    ensures Picked(q, selectors, all, picked, found) <==> Picks(q, selectors, all, picked, found)
  {
    assert Unfold(0);
  }

  /** One more record, wanted or not. */
  lemma {:induction false} PicksMore(q: Query, selectors: set<int>, all: seq<FramedRecord>, picked: seq<nat>,
                                     found: seq<FramedRecord>, r: FramedRecord, all': seq<FramedRecord>,
                                     picked': seq<nat>, found': seq<FramedRecord>)
    requires Picked(q, selectors, all, picked, found) && all' == all + [r]
    requires if (q.InRange? ==> q.begin <= r.time < q.end) && (selectors == {} || r.selector in selectors)
             then picked' == picked + [|all|] && found' == found + [r]
             else picked' == picked && found' == found
    ensures Picked(q, selectors, all', picked', found')
  {
    PickedMeans(q, selectors, all, picked, found);
    assert forall i :: i in picked ==> i < |all|;
  }

  lemma {:induction false} MatchingPicks(q: Query, selectors: set<int>, all: seq<FramedRecord>)
    returns (picked: seq<nat>)
    ensures Picked(q, selectors, all, picked, Matching(q, selectors, all))
    decreases |all|
  {
    if all == [] {
      picked := [];
      PickedMeans(q, selectors, all, picked, []);
    } else {
      var init, r := all[..|all| - 1], all[|all| - 1];
      var before := MatchingPicks(q, selectors, init);
      picked := if Matches(q, selectors, r) then before + [|init|] else before;
      assert all == init + [r];
      MatchingSnoc(q, selectors, init, r);
      PicksMore(q, selectors, init, before, Matching(q, selectors, init), r, all, picked, Matching(q, selectors, all));
    }
  }

  lemma {:induction false} MatchingSnoc(q: Query, selectors: set<int>, all: seq<FramedRecord>, r: FramedRecord)
    ensures Matching(q, selectors, all + [r]) ==
            if Matches(q, selectors, r) then Matching(q, selectors, all) + [r] else Matching(q, selectors, all)
  {
    assert (all + [r])[..|all|] == all;
  }

  lemma {:induction false} FilteredWanted(q: Query, selectors: set<int>, records: seq<FramedRecord>)
    ensures OnlyWanted(q, selectors, FoundAll(Matching(q, selectors, records)))
  {
    var picked := MatchingPicks(q, selectors, records);
    PickedMeans(q, selectors, records, picked, Matching(q, selectors, records));
    assert forall j :: 0 <= j < |picked| ==> picked[j] in picked;
  }

  lemma {:induction false} OutcomesWanted(profile: Profile, q: Query, selectors: set<int>, ps: seq<Snapshot>,
                                          events: seq<BlockEvent>)
    requires Delimits(profile.code)
    ensures OnlyWanted(q, selectors, Outcomes(profile, q, selectors, ps, events))
    decreases |events|
  {
    if events != [] {
      var n := |events| - 1;
      OutcomesWanted(profile, q, selectors, ps, events[..n]);
      if events[n].Data? {
        FilteredWanted(q, selectors, Parse(profile.code, Payload(events[n].frame.records)).records);
      }
    }
  }

  // ------------------------------------- the time index against brute force

  lemma {:induction false} MatchingConcat(q: Query, selectors: set<int>, a: seq<FramedRecord>, b: seq<FramedRecord>)
    ensures Matching(q, selectors, a + b) == Matching(q, selectors, a) + Matching(q, selectors, b)
    decreases |b|
  {
    if b == [] {
      assert a + b == a;
    } else {
      var n := |b| - 1;
      assert (a + b)[..|a| + n] == a + b[..n];
      MatchingConcat(q, selectors, a, b[..n]);
    }
  }

  lemma {:induction false} OriginalsConcat(c: Code<FramedRecord>, a: seq<Record>, b: seq<Record>)
    requires AllProfiled(c, a) && AllProfiled(c, b)
    ensures AllProfiled(c, a + b) && Originals(c, a + b) == Originals(c, a) + Originals(c, b)
    decreases |a|
  {
    if a == [] {
      assert a + b == b;
    } else {
      assert (a + b)[1..] == a[1..] + b;
      OriginalsConcat(c, a[1..], b);
    }
  }

  lemma {:induction false} OriginalsAt(c: Code<FramedRecord>, records: seq<Record>, i: nat)
    requires AllProfiled(c, records) && i < |records|
    ensures |Originals(c, records)| == |records| && Originals(c, records)[i].time == records[i].time
    decreases |records|
  {
    OriginalsLength(c, records);
    if i > 0 {
      OriginalsAt(c, records[1..], i - 1);
    }
  }

  lemma {:induction false} NothingMatches(q: Query, selectors: set<int>, records: seq<FramedRecord>)
    requires forall i :: 0 <= i < |records| ==> !Matches(q, selectors, records[i])
    ensures Matching(q, selectors, records) == []
    decreases |records|
  {
    if records != [] {
      NothingMatches(q, selectors, records[..|records| - 1]);
    }
  }

  /** The index bounds the times of a block. */
  predicate TimesWithin(f: Frame) {
    forall i :: 0 <= i < |f.records| ==> f.minTime <= f.records[i].time <= f.maxTime
  }

  /** A block passed over by the time index holds no matching record. */
  lemma {:induction false} SkippedHoldsNothing(c: Code<FramedRecord>, q: Query, selectors: set<int>, f: Frame)
    requires TimesWithin(f) && AllProfiled(c, f.records) && !Selects(q, f.minTime, f.maxTime)
    ensures Matching(q, selectors, Originals(c, f.records)) == []
  {
    OriginalsLength(c, f.records);
    forall i | 0 <= i < |f.records|
      ensures !Matches(q, selectors, Originals(c, f.records)[i])
    {
      OriginalsAt(c, f.records, i);
    }
    NothingMatches(q, selectors, Originals(c, f.records));
  }

  ghost predicate FramesProfiled(c: Code<FramedRecord>, frames: seq<Frame>)
  {
    forall i :: 0 <= i < |frames| ==> TimesWithin(frames[i]) && AllProfiled(c, frames[i].records)
  }

  /** The matching records of some blocks, block by block. */
  ghost function Blockwise(c: Code<FramedRecord>, q: Query, selectors: set<int>, frames: seq<Frame>)
    : seq<FramedRecord>
    requires FramesProfiled(c, frames)
  {
    if frames == [] then []
    else
      var n := |frames| - 1;
      Blockwise(c, q, selectors, frames[..n]) + Matching(q, selectors, Originals(c, frames[n].records))
  }

  /** Filtering block by block is filtering the records of all blocks. */
  lemma {:induction false} BlockwiseIsBrute(c: Code<FramedRecord>, q: Query, selectors: set<int>,
                                            frames: seq<Frame>)
    requires FramesProfiled(c, frames)
    ensures AllProfiled(c, RecordsOf(frames))
    ensures Blockwise(c, q, selectors, frames) == Matching(q, selectors, Originals(c, RecordsOf(frames)))
    decreases |frames|
  {
    if frames != [] {
      var n := |frames| - 1;
      var before := RecordsOf(frames[..n]);
      BlockwiseIsBrute(c, q, selectors, frames[..n]);
      OriginalsConcat(c, before, frames[n].records);
      MatchingConcat(q, selectors, Originals(c, before), Originals(c, frames[n].records));
    }
  }

  lemma {:induction false} BlockwiseSnoc(c: Code<FramedRecord>, q: Query, selectors: set<int>,
                                         frames: seq<Frame>, f: Frame)
    requires FramesProfiled(c, frames) && TimesWithin(f) && AllProfiled(c, f.records)
    ensures FramesProfiled(c, frames + [f])
    ensures Blockwise(c, q, selectors, frames + [f]) ==
            Blockwise(c, q, selectors, frames) + Matching(q, selectors, Originals(c, f.records))
  {
    assert (frames + [f])[..|frames|] == frames;
  }

  /** Within a partition, selecting blocks by time first loses no matching record. */
  lemma {:induction false} SelectionLosesNothing(c: Code<FramedRecord>, q: Query, selectors: set<int>,
                                                 frames: seq<Frame>)
    requires FramesProfiled(c, frames)
    ensures FramesProfiled(c, Selected(q, frames))
    ensures Blockwise(c, q, selectors, Selected(q, frames)) == Blockwise(c, q, selectors, frames)
    decreases |frames|
  {
    if frames != [] {
      var n := |frames| - 1;
      SelectionLosesNothing(c, q, selectors, frames[..n]);
      if Selects(q, frames[n].minTime, frames[n].maxTime) {
        BlockwiseSnoc(c, q, selectors, Selected(q, frames[..n]), frames[n]);
      } else {
        SkippedHoldsNothing(c, q, selectors, frames[n]);
        assert Selected(q, frames) == Selected(q, frames[..n]);
      }
    }
  }

  // ----------------------------------------------------- all partitions

  ghost predicate Increasing(ps: seq<Snapshot>) {
    forall i, j :: 0 <= i < j < |ps| ==> ps[i].header.generation < ps[j].header.generation
  }

  predicate HasFormat(profile: Profile, o: PartitionOptions) {
    o.formatId == profile.id && o.formatVersion == profile.version
  }

  predicate OfGeneration(frames: seq<Frame>, generation: nat) {
    forall i :: 0 <= i < |frames| ==> frames[i].generation == generation
  }

  /** A partition of the domain holds records of this profile only. */
  ghost predicate Suits(profile: Profile, q: Query, p: Snapshot, frames: seq<Frame>) {
    InDomain(q, p.header) && frames != [] ==>
      && HasFormat(profile, p.header.options)
      && FramesProfiled(profile.code, frames) && OfGeneration(frames, p.header.generation)
  }

  ghost predicate AllSuit(profile: Profile, q: Query, ps: seq<Snapshot>, truth: seq<Truth>)
    requires |ps| == |truth|
  {
    forall i {:trigger Suits(profile, q, ps[i], truth[i].frames)} ::
      0 <= i < |ps| ==> Suits(profile, q, ps[i], truth[i].frames)
  }

  lemma {:induction false} OptionsFound(ps: seq<Snapshot>, k: nat, f: Frame)
    requires k < |ps| && f.generation == ps[k].header.generation && Increasing(ps)
    ensures OptionsOf(ps, Data(f)) == ps[k].header.options
    decreases |ps|
  {
    var n := |ps| - 1;
    if k < n {
      OptionsFound(ps[..n], k, f);
    }
  }

  lemma {:induction false} FoundConcat(a: seq<FramedRecord>, b: seq<FramedRecord>)
    ensures FoundAll(a + b) == FoundAll(a) + FoundAll(b)
  {
  }

  lemma {:induction false} FoundInConcat(a: seq<RecordEvent>, b: seq<RecordEvent>)
    ensures FoundIn(a + b) == FoundIn(a) + FoundIn(b)
    decreases |b|
  {
    if b == [] {
      assert a + b == a;
    } else {
      var n := |b| - 1;
      assert (a + b)[..|a| + n] == a + b[..n];
      FoundInConcat(a, b[..n]);
    }
  }

  lemma {:induction false} FoundInAll(records: seq<FramedRecord>)
    ensures FoundIn(FoundAll(records)) == records
    decreases |records|
  {
    if records != [] {
      var n := |records| - 1;
      FoundInAll(records[..n]);
      assert FoundAll(records)[..n] == FoundAll(records[..n]);
    }
  }

  lemma {:induction false} EventYields(profile: Profile, q: Query, selectors: set<int>, ps: seq<Snapshot>, k: nat,
                                       f: Frame)
    requires Delimits(profile.code) && k < |ps| && Increasing(ps)
    requires HasFormat(profile, ps[k].header.options) && f.generation == ps[k].header.generation
    requires AllProfiled(profile.code, f.records)
    ensures Outcome(profile, q, selectors, OptionsOf(ps, Data(f)), Data(f)) ==
            Visit(FoundAll(Matching(q, selectors, Originals(profile.code, f.records))), None)
  {
    OptionsFound(ps, k, f);
    BlockYields(profile, q, selectors, ps[k].header.options, f);
  }

  lemma {:induction false} OutcomesSnoc(profile: Profile, q: Query, selectors: set<int>, ps: seq<Snapshot>,
                                        events: seq<BlockEvent>, e: BlockEvent)
    requires Delimits(profile.code)
    ensures var o := Outcome(profile, q, selectors, OptionsOf(ps, e), e);
            Outcomes(profile, q, selectors, ps, events + [e]) ==
            Outcomes(profile, q, selectors, ps, events) + o.found
  {
    assert (events + [e])[..|events|] == events;
  }

  lemma {:induction false} OutcomesConcat(profile: Profile, q: Query, selectors: set<int>, ps: seq<Snapshot>,
                                          a: seq<BlockEvent>, b: seq<BlockEvent>)
    requires Delimits(profile.code)
    ensures Outcomes(profile, q, selectors, ps, a + b) ==
            Outcomes(profile, q, selectors, ps, a) + Outcomes(profile, q, selectors, ps, b)
    decreases |b|
  {
    if b == [] {
      assert a + b == a;
    } else {
      var n := |b| - 1;
      var o := Outcome(profile, q, selectors, OptionsOf(ps, b[n]), b[n]);
      OutcomesConcat(profile, q, selectors, ps, a, b[..n]);
      OutcomesSnoc(profile, q, selectors, ps, a + b[..n], b[n]);
      assert a + b == (a + b[..n]) + [b[n]];
      Assoc(Outcomes(profile, q, selectors, ps, a), Outcomes(profile, q, selectors, ps, b[..n]),
            o.found);
    }
  }

  /** The data events of blocks of one suitable partition become their matching records. */
  lemma {:induction false} DataYields(profile: Profile, q: Query, selectors: set<int>, ps: seq<Snapshot>, k: nat,
                                      frames: seq<Frame>)
    requires Delimits(profile.code) && k < |ps| && Increasing(ps) && HasFormat(profile, ps[k].header.options)
    requires FramesProfiled(profile.code, frames) && OfGeneration(frames, ps[k].header.generation)
    ensures Outcomes(profile, q, selectors, ps, DataEvents(frames)) ==
            FoundAll(Blockwise(profile.code, q, selectors, frames))
    decreases |frames|
  {
    if frames != [] {
      var n := |frames| - 1;
      DataYields(profile, q, selectors, ps, k, frames[..n]);
      DataEventsSnoc(frames);
      OutcomesSnoc(profile, q, selectors, ps, DataEvents(frames[..n]), Data(frames[n]));
      EventYields(profile, q, selectors, ps, k, frames[n]);
      FoundConcat(Blockwise(profile.code, q, selectors, frames[..n]),
                  Matching(q, selectors, Originals(profile.code, frames[n].records)));
    }
  }

  lemma {:induction false} SelectedOfGeneration(q: Query, frames: seq<Frame>, generation: nat)
    requires OfGeneration(frames, generation)
    ensures OfGeneration(Selected(q, frames), generation)
    decreases |frames|
  {
    if frames != [] {
      SelectedOfGeneration(q, frames[..|frames| - 1], generation);
    }
  }

  /** The gap of a damaged index, as the record query passes it on. */
  function Damage(generation: nat, d: Delivery): seq<RecordEvent> {
    if d.damaged then [Lost(CorruptGap(generation))] else []
  }

  function DamageEvents(generation: nat, d: Delivery): seq<BlockEvent> {
    if d.damaged then [CorruptGap(generation)] else []
  }

  lemma {:induction false} DamageYields(profile: Profile, q: Query, selectors: set<int>, ps: seq<Snapshot>,
                                        generation: nat, d: Delivery)
    requires Delimits(profile.code)
    ensures Outcomes(profile, q, selectors, ps, DamageEvents(generation, d)) == Damage(generation, d)
  {
    if d.damaged {
      OutcomesSnoc(profile, q, selectors, ps, [], CorruptGap(generation));
      assert [] + [CorruptGap(generation)] == DamageEvents(generation, d);
    }
  }

  lemma {:induction false} FinishedContributes(q: Query, p: Snapshot, t: Truth, d: Delivery)
    requires InDomain(q, p.header) && Faithful(q, p, t, d) && d.ending == Finished
    ensures Contribution(q, p, t.frames, d) ==
            DamageEvents(p.header.generation, d) + DataEvents(Selected(q, t.frames))
  {
    var some := Selected(q, t.frames);
    assert some[..d.count] == some;
  }

  /** A suitable partition that lost nothing yields what filtering all its records yields. */
  lemma {:induction false} PartitionYields(profile: Profile, q: Query, selectors: set<int>, ps: seq<Snapshot>, k: nat,
                                           t: Truth, d: Delivery)
    requires Delimits(profile.code) && k < |ps| && Increasing(ps) && InDomain(q, ps[k].header)
    requires Suits(profile, q, ps[k], t.frames) && Faithful(q, ps[k], t, d) && d.ending == Finished
    ensures AllProfiled(profile.code, RecordsOf(t.frames))
    ensures Outcomes(profile, q, selectors, ps, Contribution(q, ps[k], t.frames, d)) ==
            Damage(ps[k].header.generation, d) +
            FoundAll(Matching(q, selectors, Originals(profile.code, RecordsOf(t.frames))))
  {
    var generation := ps[k].header.generation;
    FinishedContributes(q, ps[k], t, d);
    OutcomesConcat(profile, q, selectors, ps, DamageEvents(generation, d), DataEvents(Selected(q, t.frames)));
    DamageYields(profile, q, selectors, ps, generation, d);
    if t.frames != [] {
      SelectionLosesNothing(profile.code, q, selectors, t.frames);
      SelectedOfGeneration(q, t.frames, generation);
      DataYields(profile, q, selectors, ps, k, Selected(q, t.frames));
      BlockwiseIsBrute(profile.code, q, selectors, t.frames);
    }
  }

  /** The records of a domain, filtered; and, when no gap was reported, nothing but those. */
  ghost predicate Yields(q: Query, selectors: set<int>, all: seq<FramedRecord>, noGap: bool, events: seq<RecordEvent>) {
    && FoundIn(events) == Matching(q, selectors, all)
    && (noGap ==> events == FoundAll(Matching(q, selectors, all)))
  }

  lemma {:induction false} YieldsMore(q: Query, selectors: set<int>, all: seq<FramedRecord>, more: seq<FramedRecord>,
                                      noGap: bool, events: seq<RecordEvent>, generation: nat, d: Delivery)
    requires Yields(q, selectors, all, noGap, events) && (noGap ==> !d.damaged)
    ensures var found := Damage(generation, d) + FoundAll(Matching(q, selectors, more));
            Yields(q, selectors, all + more, noGap, events + found)
  {
    var records := Matching(q, selectors, more);
    var gap := Damage(generation, d);
    MatchingConcat(q, selectors, all, more);
    FoundConcat(Matching(q, selectors, all), records);
    FoundInConcat(events, gap + FoundAll(records));
    FoundInConcat(gap, FoundAll(records));
    FoundInAll(records);
    assert FoundIn(gap) == [];
    assert !d.damaged ==> gap + FoundAll(records) == FoundAll(records);
  }

  /** The events are what brute force makes of `all`, the records published. */
  ghost predicate Brute(profile: Profile, q: Query, selectors: set<int>, all: seq<Record>, noGap: bool,
                        events: seq<RecordEvent>)
  {
    forall k {:trigger Unfold(k)} :: Unfold(k) ==>
      AllProfiled(profile.code, all) && Yields(q, selectors, Originals(profile.code, all), noGap, events)
  }

  lemma {:induction false} BruteMeans(profile: Profile, q: Query, selectors: set<int>, all: seq<Record>, noGap: bool,
                                      events: seq<RecordEvent>)
    ensures Brute(profile, q, selectors, all, noGap, events) <==>
              AllProfiled(profile.code, all) && Yields(q, selectors, Originals(profile.code, all), noGap, events)
  {
    assert Unfold(0);
  }

  /** One more partition of the domain. */
  lemma {:induction false} BruteMore(profile: Profile, q: Query, selectors: set<int>, ps: seq<Snapshot>,
                                     k: nat, t: Truth, d: Delivery, before: seq<Record>, noGap: bool,
                                     events: seq<BlockEvent>)
    requires Delimits(profile.code) && k < |ps| && Increasing(ps) && InDomain(q, ps[k].header)
    requires Suits(profile, q, ps[k], t.frames) && Faithful(q, ps[k], t, d) && d.ending == Finished
    requires Brute(profile, q, selectors, before, noGap, Outcomes(profile, q, selectors, ps, events))
    requires noGap ==> !d.damaged
    ensures Brute(profile, q, selectors, before + RecordsOf(t.frames), noGap,
                  Outcomes(profile, q, selectors, ps, events + Contribution(q, ps[k], t.frames, d)))
  {
    var outcomes := Outcomes(profile, q, selectors, ps, events + Contribution(q, ps[k], t.frames, d));
    BruteMeans(profile, q, selectors, before, noGap, Outcomes(profile, q, selectors, ps, events));
    BruteMeans(profile, q, selectors, before + RecordsOf(t.frames), noGap, outcomes);
    OutcomesConcat(profile, q, selectors, ps, events, Contribution(q, ps[k], t.frames, d));
    PartitionYields(profile, q, selectors, ps, k, t, d);
    OriginalsConcat(profile.code, before, RecordsOf(t.frames));
    YieldsMore(q, selectors, Originals(profile.code, before), Originals(profile.code, RecordsOf(t.frames)), noGap,
               Outcomes(profile, q, selectors, ps, events), ps[k].header.generation, d);
  }

  lemma {:induction false} DomainRecordsSnoc(q: Query, ps: seq<Snapshot>, truth: seq<Truth>, n: nat)
    requires n < |ps| == |truth|
    ensures DomainRecords(q, ps[..n + 1], truth[..n + 1]) ==
            DomainRecords(q, ps[..n], truth[..n]) +
            (if InDomain(q, ps[n].header) then RecordsOf(truth[n].frames) else [])
  {
    assert ps[..n + 1][..n] == ps[..n] && truth[..n + 1][..n] == truth[..n];
  }

  /** The last partition by itself, and those before it. */
  lemma {:induction false} LastPartition(profile: Profile, q: Query, ps: seq<Snapshot>, truth: seq<Truth>,
                                         ds: seq<Delivery>)
    requires ds != [] && |ds| <= |ps| == |truth|
    requires AllSuit(profile, q, ps, truth) && AllFaithful(q, ps, truth, ds) && NoLoss(q, ps, ds)
    ensures var n := |ds| - 1;
            && AllFaithful(q, ps, truth, ds[..n]) && NoLoss(q, ps, ds[..n])
            && Suits(profile, q, ps[n], truth[n].frames)
            && (InDomain(q, ps[n].header) ==> Faithful(q, ps[n], truth[n], ds[n]) && ds[n].ending == Finished)
            && (NoGap(q, ps, ds) ==> NoGap(q, ps, ds[..n]) && (InDomain(q, ps[n].header) ==> !ds[n].damaged))
  {
  }

  /** The last of the partitions visited, in its domain or out of it. */
  lemma {:induction false} BruteStep(profile: Profile, q: Query, selectors: set<int>, ps: seq<Snapshot>,
                                     truth: seq<Truth>, ds: seq<Delivery>, noGap: bool)
    requires Delimits(profile.code) && 0 < |ds| <= |ps| == |truth| && Increasing(ps)
    requires var n := |ds| - 1;
             && Suits(profile, q, ps[n], truth[n].frames)
             && (InDomain(q, ps[n].header) ==> Faithful(q, ps[n], truth[n], ds[n]) && ds[n].ending == Finished)
             && (noGap && InDomain(q, ps[n].header) ==> !ds[n].damaged)
             && Brute(profile, q, selectors, DomainRecords(q, ps[..n], truth[..n]), noGap,
                      Outcomes(profile, q, selectors, ps, AllEvents(q, ps, truth, ds[..n])))
    ensures Brute(profile, q, selectors, DomainRecords(q, ps[..|ds|], truth[..|ds|]), noGap,
                  Outcomes(profile, q, selectors, ps, AllEvents(q, ps, truth, ds)))
  {
    var n := |ds| - 1;
    var before, events := DomainRecords(q, ps[..n], truth[..n]), AllEvents(q, ps, truth, ds[..n]);
    DomainRecordsSnoc(q, ps, truth, n);
    if InDomain(q, ps[n].header) {
      BruteMore(profile, q, selectors, ps, n, truth[n], ds[n], before, noGap, events);
    } else {
      assert before + [] == before && events + [] == events;
    }
  }

  /**
    The time index agrees with brute force: where no block was lost a query yields exactly the published
    records of its domain whose time and selector match, in append order; and nothing else but the gaps of
    damaged indexes.
   */
  lemma {:induction false} IndexAgreesWithBruteForce(profile: Profile, q: Query, selectors: set<int>,
                                                     ps: seq<Snapshot>, truth: seq<Truth>, ds: seq<Delivery>,
                                                     noGap: bool)
    requires Delimits(profile.code) && |ds| <= |ps| == |truth| && Increasing(ps)
    requires AllSuit(profile, q, ps, truth) && AllFaithful(q, ps, truth, ds) && NoLoss(q, ps, ds)
    requires noGap ==> NoGap(q, ps, ds)
    ensures Brute(profile, q, selectors, DomainRecords(q, ps[..|ds|], truth[..|ds|]), noGap,
                  Outcomes(profile, q, selectors, ps, AllEvents(q, ps, truth, ds)))
    decreases |ds|
  {
    if ds == [] {
      BruteMeans(profile, q, selectors, [], noGap, []);
    } else {
      var n := |ds| - 1;
      LastPartition(profile, q, ps, truth, ds);
      IndexAgreesWithBruteForce(profile, q, selectors, ps, truth, ds[..n], noGap);
      BruteStep(profile, q, selectors, ps, truth, ds, noGap);
    }
  }

  /** No event of suitable partitions stops a record query. */
  lemma {:induction false} ContributionDecodes(profile: Profile, q: Query, selectors: set<int>, ps: seq<Snapshot>,
                                               k: nat, frames: seq<Frame>, d: Delivery, i: nat)
    requires Delimits(profile.code) && k < |ps| && Increasing(ps) && Suits(profile, q, ps[k], frames)
    requires i < |Contribution(q, ps[k], frames, d)|
    ensures ErrorAt(profile, q, selectors, ps, Contribution(q, ps[k], frames, d)[i]).None?
  {
    var e := Contribution(q, ps[k], frames, d)[i];
    if e.Data? {
      SelectionLosesNothing(profile.code, q, selectors, frames);
      SelectedOfGeneration(q, frames, ps[k].header.generation);
      EventAt(q, ps[k].header.generation, frames, d, i);
      EventYields(profile, q, selectors, ps, k, e.frame);
    }
  }

  lemma {:induction false} AllEventsAt(q: Query, ps: seq<Snapshot>, truth: seq<Truth>, ds: seq<Delivery>, i: nat)
    requires |ds| <= |ps| == |truth| && i < |AllEvents(q, ps, truth, ds)|
    ensures ds != []
    ensures var n := |ds| - 1;
            var before, last := AllEvents(q, ps, truth, ds[..n]), Contribution(q, ps[n], truth[n].frames, ds[n]);
            && i < |before| + |last|
            && AllEvents(q, ps, truth, ds)[i] == if i < |before| then before[i] else last[i - |before|]
  {
  }

  lemma {:induction false} EverythingDecodes(profile: Profile, q: Query, selectors: set<int>, ps: seq<Snapshot>,
                                             truth: seq<Truth>, ds: seq<Delivery>, i: nat)
    requires Delimits(profile.code) && |ds| <= |ps| == |truth| && Increasing(ps) && AllSuit(profile, q, ps, truth)
    requires i < |AllEvents(q, ps, truth, ds)|
    ensures ErrorAt(profile, q, selectors, ps, AllEvents(q, ps, truth, ds)[i]).None?
    decreases |ds|
  {
    var n := |ds| - 1;
    var before := AllEvents(q, ps, truth, ds[..n]);
    AllEventsAt(q, ps, truth, ds, i);
    assert Suits(profile, q, ps[n], truth[n].frames);
    if i < |before| {
      EverythingDecodes(profile, q, selectors, ps, truth, ds[..n], i);
    } else {
      ContributionDecodes(profile, q, selectors, ps, n, truth[n].frames, ds[n], i - |before|);
    }
  }

  /** The domain holds records of the profile only. */
  ghost predicate Holds(profile: Profile, q: Query, ps: seq<Snapshot>, truth: seq<Truth>)
    requires |ps| == |truth|
  {
    forall i, k {:trigger truth[i].frames[k]} ::
      0 <= i < |ps| && InDomain(q, ps[i].header) && 0 <= k < |truth[i].frames| ==>
      HasFormat(profile, ps[i].header.options) && AllProfiled(profile.code, truth[i].frames[k].records)
  }

  lemma {:induction false} WatchedTimes(g: Geometry, issued: set<Issue>, generation: nat, frames: seq<Frame>, k: nat)
    requires ValidGeometry(g) && Ledger(g, issued) && Chained(issued, generation, frames) && k < |frames|
    ensures frames[k].generation == generation && TimesWithin(frames[k])
  {
    assert IssueOk(g, Issue(frames[k], frames[..k]));
  }

  lemma {:induction false} WatchedSuits(g: Geometry, issued: set<Issue>, at: nat -> Image, profile: Profile, q: Query,
                                        ps: seq<Snapshot>, truth: seq<Truth>, i: nat)
    requires ValidGeometry(g) && WatchedAll(g, issued, at, ps, truth) && Holds(profile, q, ps, truth) && i < |ps|
    ensures Suits(profile, q, ps[i], truth[i].frames)
  {
    WatchingMeans(g, issued, at, ps[i], truth[i]);
    forall k | 0 <= k < |truth[i].frames|
      ensures truth[i].frames[k].generation == ps[i].header.generation && TimesWithin(truth[i].frames[k])
    {
      WatchedTimes(g, issued, ps[i].header.generation, truth[i].frames, k);
    }
  }

  lemma {:induction false} AllWatchedSuit(g: Geometry, issued: set<Issue>, at: nat -> Image, profile: Profile, q: Query,
                                          ps: seq<Snapshot>, truth: seq<Truth>)
    requires ValidGeometry(g) && WatchedAll(g, issued, at, ps, truth) && Holds(profile, q, ps, truth)
    ensures AllSuit(profile, q, ps, truth)
  {
    forall i | 0 <= i < |ps|
      ensures Suits(profile, q, ps[i], truth[i].frames)
    {
      WatchedSuits(g, issued, at, profile, q, ps, truth, i);
    }
  }

  lemma {:induction false} HoldsDecodes(g: Geometry, issued: set<Issue>, at: nat -> Image, profile: Profile, q: Query,
                                        selectors: set<int>, ps: seq<Snapshot>, truth: seq<Truth>,
                                        ds: seq<Delivery>, i: nat)
    requires ValidGeometry(g) && WatchedAll(g, issued, at, ps, truth) && Delimits(profile.code) && |ds| <= |ps|
    requires Holds(profile, q, ps, truth) && i < |AllEvents(q, ps, truth, ds)|
    ensures ErrorAt(profile, q, selectors, ps, AllEvents(q, ps, truth, ds)[i]).None?
  {
    AllWatchedSuit(g, issued, at, profile, q, ps, truth);
    EverythingDecodes(profile, q, selectors, ps, truth, ds, i);
  }

  lemma {:induction false} HoldsAgrees(g: Geometry, issued: set<Issue>, at: nat -> Image, profile: Profile, q: Query,
                                       selectors: set<int>, ps: seq<Snapshot>, truth: seq<Truth>,
                                       ds: seq<Delivery>, blocks: seq<BlockEvent>)
    requires ValidGeometry(g) && WatchedAll(g, issued, at, ps, truth) && Delimits(profile.code) && |ds| == |ps|
    requires Holds(profile, q, ps, truth) && AllFaithful(q, ps, truth, ds) && NoLoss(q, ps, ds)
    requires blocks == AllEvents(q, ps, truth, ds)
    ensures Brute(profile, q, selectors, DomainRecords(q, ps, truth), NoGap(q, ps, ds),
                    Outcomes(profile, q, selectors, ps, blocks))
  {
    AllWatchedSuit(g, issued, at, profile, q, ps, truth);
    IndexAgreesWithBruteForce(profile, q, selectors, ps, truth, ds, NoGap(q, ps, ds));
    assert ps[..|ps|] == ps && truth[..|truth|] == truth;
  }

  /** Visits the blocks a query delivered. */
  method VisitDelivered(g: Geometry, ghost issued: set<Issue>, ghost at: nat -> Image, ps: seq<Snapshot>,
                        profile: Profile, q: Query, selectors: set<int>, ghost truth: seq<Truth>,
                        ghost ds: seq<Delivery>, blocks: seq<BlockEvent>)
    returns (events: seq<RecordEvent>, visited: nat, r: Result<()>)
    requires ValidGeometry(g) && WatchedAll(g, issued, at, ps, truth) && Delimits(profile.code)
    requires AllFaithful(q, ps, truth, ds) && blocks == AllEvents(q, ps, truth, ds)
    ensures visited <= |blocks| && events == Outcomes(profile, q, selectors, ps, blocks[..visited])
    ensures r.Ok? ==> visited == |blocks|
    ensures r.Err? ==> visited > 0 && ErrorAt(profile, q, selectors, ps, blocks[visited - 1]) == Some(r.error)
    ensures Holds(profile, q, ps, truth) ==> r.Ok?
    ensures Holds(profile, q, ps, truth) && |ds| == |ps| && NoLoss(q, ps, ds) ==>
              Brute(profile, q, selectors, DomainRecords(q, ps, truth), NoGap(q, ps, ds), events)
  {
    events, visited, r := VisitAll(profile, q, selectors, ps, blocks);
    assert blocks[..|blocks|] == blocks;
    if Holds(profile, q, ps, truth) {
      if r.Err? {
        HoldsDecodes(g, issued, at, profile, q, selectors, ps, truth, ds, visited - 1);
      } else if |ds| == |ps| && NoLoss(q, ps, ds) {
        HoldsAgrees(g, issued, at, profile, q, selectors, ps, truth, ds, blocks);
      }
    }
  }

  /** What brute force picks out of the records published. */
  lemma {:induction false} BrutePicks(profile: Profile, q: Query, selectors: set<int>, all: seq<Record>, noGap: bool,
                                      events: seq<RecordEvent>) returns (picked: seq<nat>)
    requires Brute(profile, q, selectors, all, noGap, events)
    ensures AllProfiled(profile.code, all)
    ensures Picks(q, selectors, Originals(profile.code, all), picked, FoundIn(events))
  {
    BruteMeans(profile, q, selectors, all, noGap, events);
    picked := MatchingPicks(q, selectors, Originals(profile.code, all));
    PickedMeans(q, selectors, Originals(profile.code, all), picked, FoundIn(events));
  }

  /**
    A record query, racing with rotation like the block query it is built on.  It visits the blocks of that
    query, in order, up to the first that cannot be decoded.  Where the domain holds records of the profile
    only, that never happens; and where no block was lost the query then yields exactly what filtering every
    published record of the domain yields, besides a gap for each damaged index.
   */
  method QueryRecords(g: Geometry, ghost issued: set<Issue>, at: nat -> Image, mixture: nat -> Cell, ps: seq<Snapshot>,
                      profile: Profile, q: Query, selectors: set<int>, continueOnGap: bool, ghost truth: seq<Truth>)
    returns (events: seq<RecordEvent>, blocks: seq<BlockEvent>, visited: nat, ds: seq<Delivery>, r: Result<()>,
             ghost picked: seq<nat>)
    requires ValidGeometry(g) && WatchedAll(g, issued, at, ps, truth) && Delimits(profile.code)
    ensures AllFaithful(q, ps, truth, ds) && blocks == AllEvents(q, ps, truth, ds)
    ensures visited <= |blocks| && events == Outcomes(profile, q, selectors, ps, blocks[..visited])
    ensures BadQuery(q) ==> r == Err(InvalidArgument) && blocks == []
    ensures visited < |blocks| ==> r.Err? && visited > 0
    ensures visited < |blocks| ==> ErrorAt(profile, q, selectors, ps, blocks[visited - 1]) == Some(r.error)
    ensures Holds(profile, q, ps, truth) ==> visited == |blocks|
    ensures Holds(profile, q, ps, truth) && r.Err? && !BadQuery(q) ==>
              && !continueOnGap && ds != [] && InDomain(q, ps[|ds| - 1].header)
              && (ds[|ds| - 1].ending == Overtaken ==> r.error == Overwritten)
              && (ds[|ds| - 1].ending != Overtaken ==> ds[|ds| - 1].damaged && r.error == Corrupt)
    ensures Holds(profile, q, ps, truth) && r.Ok? && NoLoss(q, ps, ds) ==>
              Brute(profile, q, selectors, DomainRecords(q, ps, truth), NoGap(q, ps, ds), events)
    ensures OnlyWanted(q, selectors, events)
    ensures Holds(profile, q, ps, truth) && r.Ok? && NoLoss(q, ps, ds) ==>
              var all := DomainRecords(q, ps, truth);
              && AllProfiled(profile.code, all)
              && Picks(q, selectors, Originals(profile.code, all), picked, FoundIn(events))
    ensures Holds(profile, q, ps, truth) && r.Ok? && !continueOnGap ==> NoGap(q, ps, ds)
  {
    var status, decoded, now;
    blocks, ds, status, now := QueryBlocks(g, issued, at, mixture, ps, q, continueOnGap, truth);
    events, visited, decoded :=
      VisitDelivered(g, issued, at, ps, profile, q, selectors, truth, ds, blocks);
    r := if decoded.Err? then decoded else status;
    OutcomesWanted(profile, q, selectors, ps, blocks[..visited]);
    picked := [];
    if Holds(profile, q, ps, truth) && r.Ok? && NoLoss(q, ps, ds) {
      picked := BrutePicks(profile, q, selectors, DomainRecords(q, ps, truth), NoGap(q, ps, ds), events);
    }
  }
}
