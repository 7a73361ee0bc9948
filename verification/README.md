# TFDB in Dafny

TFDB is a fixed-size, append-only ring store for flash. This project models its four hard parts and proves what
they promise:

- the ring store and its crash protocol: records are packed into frames, frames are chained by writer incarnation,
  partitions are sealed and reused in a ring, and a reopen rebuilds everything by a validated scan;
- queries that read the media without a lock while the writer rotates, and the record queries built on them;
- the LZ4 and PackBits codecs, CRC32C, the fixed on-media structures and framed records;
- the asynchronous writer with its bounded queue and durability barriers.

`dafny verify dfyconfig.toml` checks the whole project.

## How it is organised

| files | what they hold |
|---|---|
| `Bytes.dfy` | bytes, `Option`, `Result`, status codes |
| `Media.dfy`, `Storage.dfy` | the structures of a volume, volatile and durable images, crashes; the in-memory backend as a class |
| `Recovery.dfy` | the ledger of everything ever issued, the scan, the index, the footer, what a reopen retrieves |
| `Protocol.dfy`, `ProtocolSteps.dfy` | the crash protocol as a state machine, its invariant, and every step that keeps it |
| `CrashSafety.dfy`, `Sealing.dfy`, `Bindings.dfy`, `Retention.dfy` | what holds over whole runs: histories, seals and their indexes, headers and the records bound to them, retention |
| `RingStore.dfy`, `Opening.dfy`, `ReadOnly.dfy` | the store object, `open` for writing, each media operation a step of the protocol; `open` for reading, after any crash |
| `ReaderRace.dfy`, `RotationRely.dfy`, `Catalog.dfy`, `TornSeal.dfy` | queries racing with rotation, why they may rely on what they rely on, the catalog they start from, and how a crash damages one |
| `RecordQuery.dfy`, `RecordAppend.dfy` | record queries and framed appends |
| `Lz4.dfy`, `PackBits.dfy` | the codecs: grammar, reference decoder, bounded decoder, encoder |
| `Crc32c.dfy`, `Layout.dfy`, `Formats.dfy`, `BlockFormat.dfy`, `IndexFormat.dfy`, `FooterFormat.dfy` | checksums and byte formats |
| `Framing.dfy`, `FramedRecords.dfy` | self-delimiting records and FramedRecordV1 |
| `AsyncWriter.dfy`, `AsyncStore.dfy` | the asynchronous writer: its critical sections as a state machine, and the object itself; the writer together with its store |

## Assumptions

- After a crash each structure (frame, partition header, index, footer) written since the last flush is, independently
  of the others, old, new or torn, and a torn structure decodes as corrupt. A write that reports an error may have
  arrived in full, in part or not at all.
- A structure that passes its CRC at its own place was issued by a writer of this volume. The footer's index CRC
  stands for the exact entries it was computed over.
- Tears do not cut inside the 16-byte common prefix, because the version is classified before the CRC.
- Writer IDs are pairwise distinct and not zero; in the model an open is enabled only with an unused ID.
- A store is opened on media with nothing unflushed, as after a crash or a clean close.
- Recovery claims are about the lazy read-only open. A writable open may refuse a damaged header; `OpenWritable`
  says exactly when.
- Replacing a partition header is atomic for readers, and nothing but the writer changes the media. Reads of frames
  and indexes are not atomic: once the header has moved on they may return any mixture.
- Clock values, random IDs, the codec's output size and the calls to the backend that fail are parameters.

Four natural statements are false of the code, and each is given with its exact condition:

- queries never report damage as long as nothing but the writer touched the media: they do exactly where a seal was
  torn (`QueryPartition`, `DamageHappens`, `IndexLoadsExactly`);
- spans fit 32 bits: that needs more than the geometry checks (`SpansFitExactly`, `SpansNeedNotFit`);
- an accepted span covers its frame: the check wraps (`SpanCoversFrame`, `ShortSpanAccepted`);
- LZ4 streams are prefix-free: only for sizes above zero (`PrefixFree`, `PrefixFreeFailsAtZero`,
  `EncodesNothingExactly`).

## Model

| member | source | states |
|---|---|---|
| `Storage.MemoryStorage.WriteAt` | src/memory_storage.cpp:83-131 | a write fails exactly when the fault rules name its call; success puts it in force and records it as unflushed, failure leaves a possible crash image of it |
| `Storage.MemoryStorage.Flush` | src/memory_storage.cpp:133-156 | a flush fails exactly when the fault rules name its call; success makes everything in force durable and leaves nothing unflushed, failure changes neither image |
| `Storage.MemoryStorage.CrashDiscardVolatile` | src/memory_storage.cpp:173-177 | losing all unflushed writes is one of the crashes the store is proved against |
| `Storage.MemoryStorage.CrashMaterialize` | src/memory_storage.cpp:188-218 | fragments of unflushed writes, in any order and any number, yield one of the crashes the store is proved against; a fragment of an unknown write is refused and changes nothing |
| `Storage.MemoryStorage.CrashPersistAllDirty` | src/memory_storage.cpp:179-186 | so does the arrival of all of them, in order |
| `Media.CrashExtends` | src/memory_storage.cpp:188-218 | a further attempted write on a crash image gives a crash image of one more unflushed write |
| `Recovery.AcceptedWasIssuedHere` | src/ring_store.cpp:373-441 | a frame the scan accepts behind a chained list was issued on top of exactly that list |
| `Recovery.ScanIsTrueHistory` | src/ring_store.cpp:361-445 | what a scan returns is a chain: every frame was issued on top of those before it |
| `Recovery.ScanFindsPlaced` | src/ring_store.cpp:361-445 | a scan finds at least what is placed, and exactly that when bounded by its end |
| `Recovery.SealedRetrieved` | src/ring_store.cpp:447-490 | a sealed partition is retrieved exactly, through its index when it loads and by the bounded scan when it does not |
| `Protocol.CrashRecoverable` | src/memory_storage.cpp:173-217 | every crash image of a state that satisfies the invariant satisfies everything recovery relies on |
| `ProtocolSteps.StepKeeps` | src/ring_store.cpp:510-738 | every step of the protocol, successful or failed, keeps the invariant |
| `ProtocolSteps.StepExtends` | src/ring_store.cpp:510-738 | no step forgets an issue, shrinks what is promised of a generation or moves a generation back |
| `CrashSafety.ReachInv` | src/ring_store.cpp:510-738 | the invariant holds after every run of opens, emits, seals, rotations, flushes, failures and crashes |
| `CrashSafety.TrueHistory` | src/ring_store.cpp:373-441 | after any run and any crash, each frame a scan accepts was emitted in that run by a writer whose in-memory list was exactly the frames accepted before it |
| `CrashSafety.IncarnationsInOrder` | src/ring_store.cpp:386-410 | in what a scan accepts, no frame of an older incarnation follows one of a newer incarnation |
| `CrashSafety.Durability` | src/ring_store.cpp:1420-1429 | what was promised of a generation at some point of a run is found by a reopen after any later steps and any crash, unless a header write for its slot's next generation was issued |
| `CrashSafety.SealOrdering` | src/ring_store.cpp:555-609 | if a crash leaves a footer of the current generation, every frame it counts was durable, the scan bounded by its data end returns exactly those, and its index is intact or reported corrupt |
| `CrashSafety.RingRetention` | src/ring_store.cpp:535-549 | after any run and crash the retained generations are contiguous, each in slot (generation - 1) mod partitions, and every one with a successor is returned exactly as sealed |
| `CrashSafety.CatalogExact` | src/ring_store.cpp:361-445 | a scan of the media in force returns exactly the active writer's list; no stale suffix reappears behind it |
| `CrashSafety.WritesStayInRegion` | src/ring_store.cpp:510-738 | in every run each unflushed write lies in its own slot's region: a frame between the region header and the index area with its span covering it, an index within its capacity, headers and footers in their generation's slot |
| `Sealing.ReachIndexed` | src/ring_store.cpp:555-595 | in every run in which no crash fell between a seal's writes and its flush, each retained generation that has a footer is empty or has its index, durably and in force |
| `Sealing.SealedIndexIntact` | src/ring_store.cpp:555-595 | hence every retained generation with a successor is empty or has exactly the index its footer vouches for |
| `Bindings.RunKeepsHeader` | src/ring_store.cpp:510-553 | over any continuation of a run the header of a generation stays as it was, durably and in force, until its slot's next generation is begun |
| `Bindings.HeaderSurvives` | src/ring_store.cpp:510-553 | and so it does in every crash image of that continuation |
| `Bindings.BoundEmit` | src/ring_store.cpp:631-738 | emitting the builder carries what each of its records demanded to the header of the generation that receives the frame |
| `Retention.ReachEven` | src/ring_store.cpp:1252-1318 | after every run without faults, through clean closes and reopens, the lists of all generations are what was emitted, in order |
| `Retention.ReopenRecovers` | src/ring_store.cpp:1252-1301 | a reopen after a clean close recovers exactly the list the closed store held |
| `Retention.RetainedIsSuffix` | src/ring_store.cpp:597-609 | over every run without faults the records of all retained generations are exactly a suffix of the records emitted, cut at a generation boundary |
| `Retention.StoreRetainsSuffix` | src/ring_store.cpp:1353-1396 | for a usable or cleanly closed store on a volume without faults before it was opened: everything emitted by earlier incarnations and accepted by this one is a dropped beginning, then exactly what the retained generations hold, then the RAM builder, with no record split |
| `RingStore.SpansFitExactly` | src/ring_store.cpp:661-673 | every block a valid geometry admits has a 32-bit span if and only if the worst span has |
| `RingStore.SpansNeedNotFit` | src/ring_store.cpp:661-667 | a geometry that passes the checks and admits a block whose span does not fit |
| `RingStore.NextSlot` | src/ring_store.cpp:604-605 | the slot after a generation's slot is the slot of the next generation |
| `RingStore.PromisedFrameSurvives` | src/ring_store.cpp:1420-1429 | a promised frame is returned by a lazy reopen after any continuation and any crash, until its slot is reused |
| `RingStore.RecordSurvives` | src/ring_store.cpp:1420-1429 | every record accepted before a checkpoint that returned Ok is in a frame that a lazy reopen returns after any later steps and any crash, unless a header write for its slot's next generation was issued |
| `RingStore.PublishedRecordLands` | src/ring_store.cpp:1331-1369 | a published record is in a frame whose generation has a header that meets the record's contract, and keeps that header over any continuation and any crash until its slot is reused |
| `RingStore.WaitingRecordBound` | src/ring_store.cpp:1353-1396 | a record still in the builder is bound to the active header, which meets its contract and is the header in force |
| `RingStore.CheckpointedRecordSurvives` | src/ring_store.cpp:1420-1449 | after a checkpoint or close that returned Ok, every accepted record is returned by a lazy reopen after any later steps and any crash, under a header that meets its contract, until its slot is reused |
| `RingStore.TightMeans` | src/ring_store.cpp:631-738 | an emitted frame's times are those of its earliest and its latest record, and its payload is stored as the codec made it exactly when that is shorter |
| `RingStore.RoomExactly` | src/ring_store.cpp:611-629 | there is room exactly when the largest block, aligned, fits before the index and one more entry fits into it |
| `RingStore.Store.SyncMedia` | src/ring_store.cpp:237-275 | a flush step; success with `advancesDurability` equates the counters and clears `dirty`; the store is faulted exactly when a call to the backend has failed |
| `RingStore.Store.EmitBuilder` | src/ring_store.cpp:631-738 | the builder becomes one frame behind the active list and in the index; room was reserved for it, so the only failures are I/O failures |
| `RingStore.Store.SealActiveOnly` | src/ring_store.cpp:555-595 | data flush, index, footer, flush: the active list is promised before its footer is written |
| `RingStore.Store.CreatePartition` | src/ring_store.cpp:510-553 | the next header is written and flushed, and the store holds an empty active partition |
| `RingStore.Store.RotateInternal` | src/ring_store.cpp:597-609 | seal and advance by one generation, or fault; generation exhaustion is reported |
| `RingStore.Store.EnsureEmptyBuilderCapacity` | src/ring_store.cpp:611-629 | before the first record of a block the active partition has room for the largest block; with room, or under a nonempty builder, nothing happens, otherwise the next generation begins with the next options |
| `RingStore.Store.Append` | src/ring_store.cpp:1341-1410 | accepted records are logged whole and in order together with what they demanded; a record that fits joins the builder and nothing is written, any other begins a block after the builder went into the old active generation; an I/O error is returned exactly when a backend call failed during the call, and the only other errors of a usable store are exhausted generations and a broken contract; a closed or faulted store, an empty and an oversized record are refused without touching anything |
| `RingStore.Store.AppendChecked` | src/ring_store.cpp:1331-1339 | a contract with an open part is refused before anything happens; otherwise as Append, and acceptance means that format, version and time domain of the active partition are those of the contract |
| `RingStore.Store.Publish` | src/ring_store.cpp:1412-1418 | Ok means the builder went, as one frame, into the generation that was and still is active; it fails exactly when a backend call fails; a closed or faulted store issues nothing |
| `RingStore.Store.Checkpoint` | src/ring_store.cpp:1420-1429 | Ok means the builder went into the active generation, everything accepted is in frames and every frame is promised, also when the flush is skipped; a usable store returns Ok exactly when no backend call fails |
| `RingStore.Store.Close` | src/ring_store.cpp:1431-1449 | closing makes everything durable and ends the incarnation, and fails exactly when a backend call fails; closing twice is harmless; closing a faulted store reports its fault and issues nothing |
| `RingStore.Store.Rotate` | src/ring_store.cpp:1451-1462 | the builder is emitted into the old generation first, then the next generation begins with the given options; a usable store fails only when a backend call fails or generations are exhausted |
| `RingStore.Store.SetNextPartitionOptions` | src/ring_store.cpp:1464-1473 | options change exactly when the store is usable, the time domain is not zero, and format and version are both given or both not |
| `Opening.ScanPartition` | src/ring_store.cpp:361-445 | the cursor loop computes index, data end and last writer of the scan, and whether it stopped early |
| `Opening.LoadIndexRegion` | src/ring_store.cpp:447-490 | the entry loop accepts exactly the indexes its footer vouches for that form one valid run of entries |
| `Opening.FindNewest` | src/ring_store.cpp:1127-1180 | the greatest generation among the readable headers, and whether a damaged header of this volume makes the order ambiguous |
| `Opening.NewestFound` | src/ring_store.cpp:1280-1301 | on media left by any run, that is the newest generation there is |
| `Opening.OpenWritable` | src/ring_store.cpp:1302-1324 | refuses bad options, exhausted generations, and volumes with a torn header that still shows its identity or has a footer or first block behind it, each exactly then; fails on the media exactly when a backend call fails; otherwise resumes the newest unsealed partition with exactly what the scan finds, or begins the next generation empty, in a state where every invariant holds |
| `ReadOnly.OpenLazily` | src/ring_store.cpp:1127-1287 | opening for reading fails exactly when a header has generation zero or two have the same; otherwise it lists the readable partitions, sealed or scanned, by generation, and sets damaged slots aside |
| `ReadOnly.OnMediaExactly` | src/ring_store.cpp:535-549 | after any run and any crash the generations on the media form one interval |
| `ReadOnly.NeverContradictory` | src/ring_store.cpp:1188-1191 | so opening for reading always succeeds |
| `ReadOnly.CatalogIsRetained` | src/ring_store.cpp:1280-1287 | and its catalog is exactly that interval, in order |
| `ReadOnly.ReopenedWatched` | src/ring_store.cpp:1127-1287 | every entry but the newest is sealed, each describes a list some writer held, with at least what was promised of it, and the catalog meets what queries require |
| `ReadOnly.QueryAfterCrash` | src/ring_store.cpp:854-1003 | opening and querying what any run and crash left behind succeeds, delivers every selected block of every retained generation in order, and reports exactly the partitions whose index does not load |
| `ReaderRace.StillThere` | src/ring_store.cpp:740-852 | a header still in force at a read was in force, with all its blocks, at every earlier read |
| `ReaderRace.ReadBlock` | src/ring_store.cpp:757-852 | under every interleaving, and whatever overtaken reads return, a block read yields exactly the snapshotted block or reports that the partition was replaced |
| `ReaderRace.ReadBlocks` | src/ring_store.cpp:970-1001 | the blocks the query selects, in order, up to the first replaced one, then one gap |
| `ReaderRace.Rescan` | src/ring_store.cpp:361-445 | the cursor walk over a sealed partition whose index does not load, read by read: if the partition is still in force afterwards it found exactly its blocks |
| `ReaderRace.QueryPartition` | src/ring_store.cpp:889-1001 | index, rescan and blocks while the writer rotates: a partition still in force yields its selected blocks, behind one corrupt gap if and only if its index is not intact; otherwise a prefix of that and one overwrite notice |
| `ReaderRace.QueryBlocks` | src/ring_store.cpp:854-1003 | partition by partition as in `QueryPartition`; every block delivered was published in a listed partition of the time domain asked for and has an instant in the half-open range, and of such a partition still in force exactly those blocks are delivered; every corrupt gap names a partition whose index is not intact and every overwrite notice one that was replaced; strictly increasing (generation, sequence) order; bad ranges are refused; stopping at the first gap when asked, and never otherwise |
| `ReaderRace.SelectsExactly` | src/ring_store.cpp:88-92 | a block is selected exactly when some instant lies both in its closed range and in the half-open range asked for |
| `ReaderRace.DataAsked` | src/ring_store.cpp:887-975 | nothing is delivered that was not asked for |
| `ReaderRace.AskedOf` | src/ring_store.cpp:887-975 | and everything that was, of every partition still in force |
| `ReaderRace.ContributionOrdered` | src/ring_store.cpp:970-1001 | in one partition a corrupt gap only first, an overwrite notice only last, and in between blocks of that generation in increasing sequence |
| `ReaderRace.DataInOrder` | src/ring_store.cpp:873-1003 | all data events come in strictly increasing (generation, sequence) order |
| `RotationRely.ActiveEntryConsistent` | src/ring_store.cpp:866-872 | the catalog entry of the active partition describes the media when it is copied |
| `RotationRely.SealedEntryConsistent` | src/ring_store.cpp:866-872 | so does the entry of a sealed one, after every run and whatever became of its index |
| `RotationRely.ConsistentKept` | src/ring_store.cpp:510-738 | every step of a live writer keeps a copied entry consistent until its header is replaced |
| `RotationRely.RaceIsWatched` | src/ring_store.cpp:854-1003 | every interleaving of reads with a legal continuation gives a reader exactly what the query proofs rely on |
| `Catalog.CatalogIsWatched` | src/ring_store.cpp:854-1003 | after every run, whatever the writer goes on to do without faults and whenever the reads fall, the catalog of all retained partitions meets what `QueryBlocks` and `QueryRecords` require |
| `Catalog.SealedEntryOnMedia` | src/ring_store.cpp:447-490 | after any run the footer in a sealed partition's catalog entry is the one read from the media |
| `Catalog.IndexLoadsExactly` | src/ring_store.cpp:447-490 | after any run, crashes inside seals included, a sealed partition's index loads if and only if the partition is empty or its index is intact |
| `Catalog.UninterruptedIntact` | src/ring_store.cpp:555-595 | after every run in which no crash interrupted a seal all its indexes are intact, so no query reports damage |
| `Catalog.SmoothIntact` | src/ring_store.cpp:555-595 | in particular after every run without faults |
| `Catalog.ActiveEntryIsStores` | src/ring_store.cpp:866-872 | the last catalog entry holds the header, the index and the writers of the store's own active partition |
| `TornSeal.SealCanTear` | src/ring_store.cpp:555-595 | every seal of a partition that holds a block can be torn: some continuation of the run ends with a live writer whose catalog lists the partition as sealed, with an index that does not load |
| `TornSeal.DamageHappens` | src/ring_store.cpp:447-490 | on every volume there is a run after which the catalog is not intact |
| `RecordQuery.PayloadParses` | src/record_profile.cpp:68-108 | a block of profiled records decodes to the records it was made of |
| `RecordQuery.SkippedHoldsNothing` | src/ring_store.cpp:88-92 | a block the time index passes over holds no matching record |
| `RecordQuery.SelectionLosesNothing` | src/ring_store.cpp:971-973 | selecting blocks by time first loses no matching record of a partition |
| `RecordQuery.IndexAgreesWithBruteForce` | src/record_profile.cpp:133-180 | where no block was lost a query yields exactly the published records of its domain with a matching time and selector, in append order, and besides them nothing but the gaps of damaged indexes |
| `RecordQuery.QueryRecords` | src/record_profile.cpp:133-180 | the query itself: every record found is in the half-open range and has one of the selectors, if any were given; blocks are visited in order up to the first that cannot be decoded, whose error is the outcome; where the domain holds the profile's records that never happens, and where no block was lost the records found are exactly the published records of the domain that meet this, in append order |
| `RecordQuery.VisitAll` | src/record_profile.cpp:142-179 | blocks are visited in order, each delivering its matching records up to damage; the first error ends the query and is its outcome |
| `RecordQuery.MatchingPicks` | src/record_profile.cpp:160-164 | filtering keeps exactly the records in range with a wanted selector, in order |
| `RecordQuery.OutcomesWanted` | src/record_profile.cpp:160-170 | whatever the blocks hold, nothing unwanted is found |
| `RecordAppend.StoredIsProfiled` | src/record_profile.cpp:110-131 | what is appended as a framed record is found again as that record, under its own time |
| `RecordAppend.AppendFramedRecord` | src/record_profile.cpp:110-131 | an accepted framed record is entered with the demand for this profile and for the time domain active at the call; a partition of another format or version refuses it |
| `RecordAppend.FramedRecordLands` | src/record_profile.cpp:110-131 | once published it is in a partition of this profile and that time domain, and stays so over any continuation and crash until the slot is reused |
| `Lz4.DecoderExact` | src/codec.cpp:332-414 | the reference decoder accepts exactly the streams of the block grammar, with the bytes they stand for |
| `Lz4.EncodesFunctional` | src/codec.cpp:332-414 | a stream stands for at most one output |
| `Lz4.PrefixFree` | src/codec.cpp:348-411 | for sizes above zero no accepted stream is a strict prefix of another accepted one of that size |
| `Lz4.PrefixFreeFailsAtZero` | src/codec.cpp:348-401 | for size zero the empty stream and its continuation by a zero token are both accepted |
| `Lz4.EncodesNothingExactly` | src/codec.cpp:348-401 | for size zero the accepted streams are exactly those two |
| `Lz4.BlockEnds` | src/codec.cpp:401-411 | sequences and closing literals form a block exactly when there is no match, or at least 5 literals close it and its last match begins at least 12 bytes before the end |
| `Lz4.ShortSequence` | src/codec.cpp:200-222 | a short sequence is one token for both lengths, the literals and the two-byte distance |
| `Lz4.LongLength` | src/codec.cpp:182-188 | a longer length saturates its nibble and continues in bytes of 255 and a remainder |
| `Lz4.ReadLengthBounded` | src/codec.cpp:245-255 | the capped length reader agrees with the unbounded one on every length that does not exceed the cap |
| `Lz4.Decompress` | src/codec.cpp:332-414 | success exactly when the stream is in the grammar, decodes to the expected size and meets both end-of-block conditions; every index is in bounds and the cap rejects nothing acceptable |
| `Lz4.EmitMatches` | src/codec.cpp:293-326 | every match found through the hash table is a true repeat, and the sequences emitted so far stand for the input up to the anchor |
| `Lz4.Compress` | src/codec.cpp:280-330 | the output encodes the input and is at most n + n/255 + 16 bytes; five equal bytes in a row never stay literals, except near the end |
| `Lz4.RoundTrip` | src/codec.cpp:280-414 | decompressing a compressed input with its size gives back the input, for every input |
| `PackBits.DecoderExact` | src/codec.cpp:94-125 | the reference decoder accepts exactly the group grammar |
| `PackBits.PrefixFree` | src/codec.cpp:94-125 | for each expected size the accepted streams are prefix-free |
| `PackBits.GroupForm` | src/codec.cpp:45-48 | a control byte up to 127 announces that many literals and one more, any other a run of it less 125 |
| `PackBits.Decompress` | src/codec.cpp:94-125 | success exactly for the streams that encode some output of the expected size |
| `PackBits.Repeated` | src/codec.cpp:128-136 | the longest run at a position, up to 130 |
| `PackBits.Compress` | src/codec.cpp:61-92 | the output encodes the input and is at most n + ceil(n/128) bytes; three equal bytes in a row never stay literals |
| `PackBits.RoundTrip` | src/codec.cpp:53-137 | decompressing a compressed input with its size gives back the input, for every input |
| `Crc32c.CrcBitwise` | rust/tfdb-reader/src/crc32c.rs:5-14 | the bit-by-bit loops compute the CRC |
| `Crc32c.CrcOfNothing` | rust/tfdb-reader/src/crc32c.rs:5-14 | the empty input has checksum zero |
| `Crc32c.CheckValue` | docs/format-v1.md:79-81 | the checksum of "123456789" is 0xe3069283 |
| `Crc32c.TableStepIsByteStep` | src/internal_format.cpp:102-116 | one table lookup does the work of eight single-bit shifts |
| `Crc32c.Update` | src/internal_format.cpp:102-116 | the incremental table-driven form computes what the bitwise form computes, from any state |
| `Crc32c.CrcByTable` | src/internal_format.cpp:118-122 | the one-shot table form equals the bitwise form |
| `Crc32c.CrcWithZeroedField` | src/internal_format.cpp:124-132 | equals the CRC of a copy whose four-byte field is cleared |
| `Crc32c.StateRecovered` | src/internal_format.cpp:114-115 | a byte step is injective in the state |
| `Crc32c.ByteRecovered` | src/internal_format.cpp:114-115 | and in the byte |
| `Crc32c.OneByteDetected` | src/internal_format.cpp:102-122 | no two inputs that differ in exactly one byte have the same CRC |
| `Layout.Put` | src/internal_format.cpp:21-33 | a word is written low byte first at its offset, and nothing else changes |
| `Layout.Get` | src/internal_format.cpp:34-53 | a word is read low byte first |
| `Layout.ReadPacked` | src/internal_format.cpp:342-428 | every field of a layout without holes reads back |
| `Layout.FieldBytes` | src/internal_format.cpp:342-428 | every field of a layout without holes is at its offset, low byte first |
| `Layout.PackRead` | src/internal_format.cpp:342-428 | packing the fields that were read gives back the bytes |
| `Formats.FinishCrc` | src/internal_format.cpp:95-98 | the CRC is taken over the buffer with a zero CRC field and then stored in it |
| `Formats.FinishedPasses` | src/internal_format.cpp:65-93 | what an encoder writes passes the common check, whatever follows it |
| `Formats.PassedIsFinished` | src/internal_format.cpp:65-93 | what passes the common check is what the encoder writes for those fields |
| `Formats.OneByteRefused` | src/internal_format.cpp:65-93 | the common check never accepts two inputs that differ in exactly one byte of the structure |
| `Formats.VolumeHeaderDamage` | src/internal_format.cpp:165-168 | no two volume headers that differ in exactly one byte pass the check |
| `Formats.PartitionHeaderDamage` | src/internal_format.cpp:224-227 | no two partition headers that differ in exactly one byte pass the check |
| `BlockFormat.Encode` | src/internal_format.cpp:342-361 | the buffer holds the block header's encoding |
| `BlockFormat.HeadBytes` | src/internal_format.cpp:342-347 | magic, version, size, generation and sequence, byte for byte |
| `BlockFormat.SizeBytes` | src/internal_format.cpp:346-350 | flags, counts and sizes |
| `BlockFormat.TimeBytes` | src/internal_format.cpp:350-354 | times, codec and payload checksum |
| `BlockFormat.IdentityBytes` | src/internal_format.cpp:354-359 | slot, volume and the two writers |
| `BlockFormat.DecodeEncoded` | src/internal_format.cpp:342-387 | decoding an encoded header gives it back exactly when its sizes and count are positive, it names a writer, its times are in order and its span passes the wrapped comparison |
| `BlockFormat.EncodeDecoded` | src/internal_format.cpp:363-387 | every accepted header is the encoding of what was decoded |
| `BlockFormat.OneByteDamage` | src/internal_format.cpp:363-387 | no two accepted headers differ in exactly one byte |
| `BlockFormat.SpanCoversFrame` | src/internal_format.cpp:380-385 | an accepted span covers its frame if and only if the compared sum fits 32 bits |
| `BlockFormat.ShortSpanAccepted` | src/internal_format.cpp:380-385 | a header accepted although its span is shorter than its frame |
| `IndexFormat.DecodeEncodedEntry` | src/internal_format.cpp:389-408 | decoding an encoded entry gives it back exactly when its frame holds a header and fits its span, it counts a record and its times are in order |
| `IndexFormat.EntryBytes` | src/internal_format.cpp:389-394 | every field of an entry, byte for byte |
| `IndexFormat.EncodeDecodedEntry` | src/internal_format.cpp:389-408 | any 48 bytes are the encoding of the entry read from them |
| `IndexFormat.EncodeIndex` | src/internal_format.cpp:410-415 | the loop writes the entries one after the other |
| `IndexFormat.DecodeIndex` | src/internal_format.cpp:417-428 | success means the entries re-encode to the bytes and are within bounds; failure means no list of entries within bounds encodes to them |
| `IndexFormat.IndexUnambiguous` | src/internal_format.cpp:410-428 | different indexes have different encodings |
| `FooterFormat.Encode` | src/internal_format.cpp:430-444 | the buffer holds the footer's encoding, reserved bytes zero |
| `FooterFormat.HeadBytes` | src/internal_format.cpp:430-435 | magic, version, size and volume, byte for byte |
| `FooterFormat.CountBytes` | src/internal_format.cpp:434-439 | generation, slot, flags, counts, entry size and index offset |
| `FooterFormat.IndexBytes` | src/internal_format.cpp:438-443 | index size, reserve, data end, times and index checksum |
| `FooterFormat.DecodeEncoded` | src/internal_format.cpp:430-466 | decoding an encoded footer gives it back exactly when its index size is that of its blocks and its times are in order |
| `FooterFormat.EncodeDecoded` | src/internal_format.cpp:446-466 | every accepted footer is the encoding of what was decoded |
| `FooterFormat.OneByteDamage` | src/internal_format.cpp:446-466 | no two accepted footers differ in exactly one byte |
| `Framing.ParseConcat` | src/record_profile.cpp:68-108 | for any self-delimiting code, concatenated encodings are read back as the records encoded |
| `Framing.ConcatParse` | src/record_profile.cpp:68-108 | and what is read re-encodes to the bytes it was read from |
| `Framing.AcceptedExactly` | src/record_profile.cpp:68-108 | a block is accepted in full exactly when it is a concatenation of encodings |
| `FramedRecords.Encode` | src/record_profile.cpp:41-66 | the framed encoding, or a refusal exactly when the frame size would not fit 32 bits |
| `FramedRecords.FrameBytes` | src/record_profile.cpp:41-66 | every field of a frame and its payload, byte for byte |
| `FramedRecords.DecodeEncoded` | src/record_profile.cpp:41-108 | an encoded record decodes to itself, for all int64 times, whatever follows it |
| `FramedRecords.NoWrap` | src/record_profile.cpp:79-85 | the size comparison modulo 2^32 admits no wrapped payload size |
| `FramedRecords.EncodeDecoded` | src/record_profile.cpp:68-108 | what decodes is the encoding of what it decodes to |
| `FramedRecords.ParseEncoded` | src/record_profile.cpp:68-108 | a block of encodings holds exactly the records encoded |
| `FramedRecords.EncodeParsed` | src/record_profile.cpp:68-108 | a block accepted in full re-encodes to itself, any other re-encodes to its sound beginning |
| `FramedRecords.DecodeBlock` | src/record_profile.cpp:68-108 | the walk visits exactly those records, up to the one the visitor refuses, and reports corruption exactly when the block is not complete |
| `FramedRecords.OneByteDamage` | src/record_profile.cpp:75-89 | no two blocks that differ in exactly one byte are both accepted in full |
| `AsyncModel.ApplyKeeps` | src/async_writer.cpp:92-343 | every critical section of producers and worker keeps the accounting invariant |
| `AsyncModel.Reachable` | src/async_writer.cpp:92-343 | in every reachable state of a healthy run queued sequences are consecutive, both capacity bounds hold, durable <= processed <= submitted, and the oldest-undurable pair is exact |
| `AsyncModel.CheckpointBarrier` | src/async_writer.cpp:129-144 | if a checkpoint call returns Ok, everything accepted before it was appended in order and a successful store checkpoint followed |
| `AsyncModel.StopBarrier` | src/async_writer.cpp:146-162 | if stop returns Ok, the same holds of everything ever accepted |
| `AsyncModel.FailureSticks` | src/async_writer.cpp:194-203 | after a failure no later barrier call returns Ok |
| `AsyncModel.CoveredMeans` | src/async_writer.cpp:287-294 | covered items are a prefix of the appended ones and a checkpoint comes after the last of them |
| `AsyncModel.AcceptedIsTaken` | src/async_writer.cpp:92-127 | over every interleaving the accepted items are exactly the submissions that were not refused, in order, with their bytes, time, flags and contract |
| `AsyncModel.SubmissionTaken` | src/async_writer.cpp:92-106 | a submission is taken exactly when the writer runs, is not stopping, the record is not empty and one more record of its size fits both capacities |
| `AsyncModel.StopRefuses` | src/async_writer.cpp:146-157 | once a stop was asked for, every submission is refused |
| `AsyncModel.EverythingAsked` | src/async_writer.cpp:129-157 | a checkpoint and a stop ask for everything accepted so far |
| `AsyncModel.BarrierReturns` | src/async_writer.cpp:137-162 | a barrier is over with Ok exactly when nothing failed and what it waits for is durable |
| `AsyncModel.IntervalServed` | src/async_writer.cpp:269-271 | a waiting worker whose interval has passed picks a checkpoint before anything else |
| `AsyncModel.QueueServed` | src/async_writer.cpp:278-285 | without a reason for a checkpoint it takes the oldest item |
| `AsyncModel.CheckpointCounts` | src/async_writer.cpp:296-341 | a successful checkpoint makes everything appended durable and starts the interval anew |
| `AsyncModel.BarrierIsServed` | src/async_writer.cpp:269-285 | a requested barrier never leaves the worker with an empty queue and nothing to do |
| `AsyncWriter.Writer.constructor` | src/async_writer.cpp:44-79 | a started writer: counters reset, nothing accepted, the worker about to wait |
| `AsyncWriter.Writer.Submit` | src/async_writer.cpp:92-127 | the submit section: error exactly as the checks say, else the accepted items grow by one with the bytes, time, flags and contract submitted, queued, numbered and accounted for |
| `AsyncWriter.Writer.RequestCheckpoint` | src/async_writer.cpp:129-136 | the barrier asks for everything accepted so far |
| `AsyncWriter.Writer.AwaitCheckpoint` | src/async_writer.cpp:137-144 | an Ok outcome means what had been accepted is covered |
| `AsyncWriter.Writer.RequestStop` | src/async_writer.cpp:146-157 | stopping closes the queue and asks for everything |
| `AsyncWriter.Writer.AwaitStop` | src/async_writer.cpp:158-162 | an Ok outcome means everything accepted is covered |
| `AsyncWriter.Writer.Pick` | src/async_writer.cpp:236-285 | the worker's first section: timer and barrier checkpoints before the queue, exit only when stopping with an empty queue |
| `AsyncWriter.Writer.Complete` | src/async_writer.cpp:296-341 | the worker's second section: failure clears the queue and ends the run, success publishes progress and durability |
| `AsyncStore.CheckpointSecures` | src/ring_store.cpp:1420-1449 | after a checkpoint every accepted record is in a frame emitted in this run that every continuation and crash leaves readable under a header meeting its contract, until its slot is reused |
| `AsyncStore.SurvivesLater` | src/ring_store.cpp:1420-1449 | what survives from some point of a run on survives from every later one on |
| `AsyncStore.Pipeline.Submit` | src/async_writer.cpp:92-127 | the submissions that were not refused are kept in order |
| `AsyncStore.Pipeline.CallStore` | src/async_writer.cpp:287-294 | the worker's store call on the store itself: the store holds exactly the items logged as appended, those a checkpoint covers survive, and a checkpoint fails exactly when a backend call fails |
| `AsyncStore.Pipeline.AwaitCheckpoint` | src/async_writer.cpp:129-144 | from end to end: if an asynchronous checkpoint returns Ok, every submission taken before it survives any continuation and crash of the store, with its own bytes and time and under its own contract |
| `AsyncStore.Pipeline.AwaitStop` | src/async_writer.cpp:146-162 | if stop returns Ok, so does every submission ever taken |

## Left out

- The fields of volume and partition headers, format(), the partition-header feature directory, strict verification on open, inspect(): more of the same formats, or easy members.
- FileStorage, getrandom, read_exact and write_exact: operating-system calls and retry loops; a structure write is one operation that succeeds or fails.
- I/O errors while reading: reads of the media always succeed in the model, so the paths that return a read error are missing.
- Byte-level tears: a torn structure is one value, whatever mixture of bytes it holds; fragments that together make up a write count as all of it.
- 64-bit sizes and counters: offsets, sizes and sequence numbers are unbounded except where a width is written out; overflow checks that cannot fire within a volume are missing.
- Block and record flags, time anomalies, skew limits: carried through by the byte formats, not by the store.
- Custom codecs, failing codecs, and the choice of codec per partition: the store sees only the stored size of a block, at most its raw size.
- health(), sync durations, byte counters and the other metrics: observation only.
- Damaged slots of a lazy open reported at the start of a query, and rescans of footerless older partitions: `OpenLazily` returns the former, the latter never arise (`ReopenedWatched`), and queries start from the readable entries.
- Visitors of block and record queries always continue; only the visitor of `DecodeBlock` may stop.
- Restarting an asynchronous writer, exceptions escaping the worker, condition variables and real time: one lifetime, with an arbitrary clock value per step.
- Worker progress under an adversarial clock: timer checkpoints take priority over dequeuing, so no termination claim is made.
- IndexFormat.EncodeIndex: appends the encoded entries instead of filling one preallocated buffer.
- ReadOnly.OpenLazily: keeps the catalog sorted as it grows instead of sorting it at the end.
- Layout.PutAll: the sequence of puts of an encoder is driven by the list of fields, in layout order.
- Lz4.Compress: output vectors are sequences that grow; only the hash table is an array.
- The Rust reader's other files: near-duplicates of the C++ predicates.
