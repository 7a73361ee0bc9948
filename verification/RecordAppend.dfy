/** Appending framed records to the ring store. */
module RecordAppend {
  import opened Bytes
  import opened Media
  import opened FramedRecords
  import opened Protocol
  import opened CrashSafety
  import opened RingStore
  import RecordQuery

  /** What the store is given for a framed record. */
  function Stored(record: FramedRecord): Record {
    Record(Encoded(record), record.time)
  }

  /** Whatever is appended this way is found again under its own time. */
  lemma {:induction false} StoredIsProfiled(record: FramedRecord)
    requires Encodable(record)
    ensures RecordQuery.Profiled(RecordCode(), Stored(record))
    ensures RecordQuery.Original(RecordCode(), Stored(record)) == record
  {
    DecodeEncoded(record, []);
    assert Encoded(record) + [] == Encoded(record);
  }

  /** What a framed append demands of its partition. */
  function Demand(timeDomain: nat): Contract {
    Contract(RecordQuery.FRAMED_RECORD_V1, 1, timeDomain)
  }

  /**
    Encodes a record and appends it, bound to the contract of the partition that was active when the
    call began.
   */
  method AppendFramedRecord(store: Store, record: FramedRecord) returns (r: Result<()>)
    requires store.Valid()
    modifies store.storage, store`fault, store`world, store`events, store`dirty, store`undurable, store`metrics,
             store`active, store`builder, store`builderMin, store`builderMax, store`published, store`accepted,
             store`ties
    ensures store.Valid() && old(store.events) <= store.events
    ensures r.Ok? ==> Encodable(record) && store.accepted == old(store.accepted) + [Stored(record)]
    ensures r.Ok? ==>
              store.ties.contracts ==
              old(store.ties.contracts) + [Some(Demand(old(store.active.header.options.timeDomain)))]
    ensures r.Ok? ==> store.active.header.options.formatId == 0x5446444252465631
    ensures r.Ok? ==> store.active.header.options.formatVersion == 1
    ensures old(store.active.header.options.formatId) != 0x5446444252465631 ==> r == Err(InvalidArgument)
    ensures old(store.active.header.options.formatVersion) != 1 ==> r == Err(InvalidArgument)
    ensures r.Ok? ==> store.active.header.options.timeDomain == old(store.active.header.options.timeDomain)
    ensures r.Err? ==> store.accepted == old(store.accepted) && store.ties.contracts == old(store.ties.contracts)
  {
    var options := store.active.header.options;
    if options.formatId != RecordQuery.FRAMED_RECORD_V1 || options.formatVersion != 1 {
      return Err(InvalidArgument);
    }
    var encoded := Encode(record);
    if encoded.Err? {
      return Err(encoded.error);
    }
    r := store.AppendChecked(Record(encoded.value, record.time), Demand(options.timeDomain));
  }

  /**
    A record appended this way and published is in a partition of this profile and of that time domain, and
    stays in it over any continuation of the run and any crash, until the partition's slot is reused.
   */
  lemma {:induction false} FramedRecordLands(store: Store, i: nat, timeDomain: nat, es: seq<Event>, after: Image)
    returns (f: Frame, h: Header)
    requires store.Valid() && store.events <= es && Legal(store.g, es)
    requires CrashImage(Reach(store.g, es).durable, Reach(store.g, es).dirty, after)
    requires i < |RecordsOf(store.published)|
    requires i < |store.ties.contracts| && store.ties.contracts[i] == Some(Demand(timeDomain))
    ensures i < |store.accepted| && f in store.published && store.accepted[i] in f.records
    ensures h.generation == f.generation > 0
    ensures h.options.formatId == 0x5446444252465631 && h.options.formatVersion == 1
    ensures h.options.timeDomain == timeDomain
    ensures Reach(store.g, es).begun < f.generation + store.g.partitions ==>
              HeaderOn(store.g, after, f.generation) == HeaderCell(h)
  {
    f, h := PublishedRecordLands(store, i, es, after);
  }
}
