/**
  The media the ring store writes: the structures of one volume, what is in force
  (volatile), what survives (durable), and what a crash may leave behind.

  A structure that fails its CRC is `Torn`; a place that never held a structure of
  this volume is `Blank`.
 */
module Media {
  import opened Bytes

  const REGION := 4096          // partition header region and footer region
  const BLOCK_HEADER := 128
  const UINT32_MAX := 0xffff_ffff

  /** What is fixed when a volume is formatted. */
  datatype Geometry = Geometry(partitions: nat, indexBegin: nat, indexCapacity: nat, quantum: nat, maxPayload: nat)

  function AlignUp(value: nat, quantum: nat): (r: nat)
    requires quantum > 0
    ensures value <= r < value + quantum
  {
    if value % quantum == 0 then value else value + (quantum - value % quantum)
  }

  function WorstSpan(g: Geometry): nat
    requires g.quantum > 0
  {
    AlignUp(BLOCK_HEADER + g.maxPayload, g.quantum)
  }

  /** The geometry checks made when a volume is opened. */
  predicate ValidGeometry(g: Geometry) {
    && g.partitions >= 2 && g.indexCapacity >= 1 && g.maxPayload >= 1
    && g.quantum >= 1 && REGION % g.quantum == 0
    && REGION + WorstSpan(g) <= g.indexBegin
  }

  datatype Record = Record(bytes: seq<byte>, time: int)

  datatype PartitionOptions = PartitionOptions(formatId: nat, formatVersion: nat, timeDomain: nat)

  /** What a checked append demands of the partition it lands in. */
  datatype Contract = Contract(formatId: nat, formatVersion: nat, timeDomain: nat)

  predicate Meets(o: PartitionOptions, c: Contract) {
    o.formatId == c.formatId && o.formatVersion == c.formatVersion && o.timeDomain == c.timeDomain
  }

  /** A block frame; `records` is what its payload decodes to, `stored` its encoded payload size. */
  datatype Frame = Frame(generation: nat, slot: nat, sequence: nat, writer: nat, previousWriter: nat,
                         stored: nat, span: nat, records: seq<Record>, minTime: int, maxTime: int)

  datatype Header = Header(generation: nat, slot: nat, options: PartitionOptions)

  /** The serialized part of an index entry. */
  datatype Entry = Entry(offset: nat, frameSize: nat, span: nat, sequence: nat, recordCount: nat,
                         minTime: int, maxTime: int, rawSize: nat)

  /** `index` stands for the index CRC: the exact entries the footer vouches for. */
  datatype Footer = Footer(generation: nat, slot: nat, blockCount: nat, dataEnd: nat, index: seq<Entry>)

  function RawSize(records: seq<Record>): nat {
    if records == [] then 0 else RawSize(records[..|records| - 1]) + |records[|records| - 1].bytes|
  }

  function TotalSpan(frames: seq<Frame>): nat {
    if frames == [] then 0 else TotalSpan(frames[..|frames| - 1]) + frames[|frames| - 1].span
  }

  /** The records of some frames, in order. */
  function RecordsOf(frames: seq<Frame>): seq<Record> {
    if frames == [] then [] else RecordsOf(frames[..|frames| - 1]) + frames[|frames| - 1].records
  }

  /** Where the data of a partition holding `frames` ends. */
  function DataEnd(frames: seq<Frame>): nat {
    REGION + TotalSpan(frames)
  }

  function SlotOf(g: Geometry, generation: nat): nat
    requires g.partitions > 0 && generation > 0
  {
    (generation - 1) % g.partitions
  }

  // ------------------------------------------------------------------ images

  datatype Place = HeaderAt(slot: nat) | FrameAt(slot: nat, offset: nat) | IndexAt(slot: nat) | FooterAt(slot: nat)

  datatype Cell =
    | Blank
    | Torn
    | HeaderCell(header: Header)
    | FrameCell(frame: Frame)
    | IndexCell(entries: seq<Entry>)
    | FooterCell(footer: Footer)

  type Image = map<Place, Cell>

  function Get(image: Image, p: Place): Cell {
    if p in image then image[p] else Blank
  }

  datatype Write = Write(place: Place, cell: Cell)

  /** The bytes a frame occupies; the rest of its span is never written. */
  function Extent(c: Cell): nat {
    if c.FrameCell? then BLOCK_HEADER + c.frame.stored else 0
  }

  /** A write disturbs its own place and every frame whose bytes it overlaps. */
  predicate Touches(w: Write, p: Place, c: Cell) {
    || p == w.place
    || (&& p.FrameAt? && w.place.FrameAt? && p.slot == w.place.slot
        && p.offset < w.place.offset + Extent(w.cell) && w.place.offset < p.offset + Extent(c))
  }

  function Written(image: Image, w: Write): Image {
    map p | p in image.Keys + {w.place} ::
      if p == w.place then w.cell
      else if Touches(w, p, Get(image, p)) then Torn
      else Get(image, p)
  }

  /** One place after a crash: the old structure, one of the new ones, or torn. */
  ghost predicate CrashCell(before: Cell, dirty: seq<Write>, p: Place, after: Cell) {
    || after == before
    || (exists i :: 0 <= i < |dirty| && dirty[i].place == p && dirty[i].cell == after)
    || (after == Torn && exists i :: 0 <= i < |dirty| && Touches(dirty[i], p, before))
  }

  /** Every structure written since the last flush is independently old, new or torn. */
  ghost predicate CrashImage(durable: Image, dirty: seq<Write>, after: Image) {
    forall p :: CrashCell(Get(durable, p), dirty, p, Get(after, p))
  }

  lemma WrittenAt(image: Image, w: Write, p: Place)
    ensures Get(Written(image, w), p) ==
            if p == w.place then w.cell
            else if p in image && Touches(w, p, Get(image, p)) then Torn
            else Get(image, p)
  {
  }

  /** Losing every unflushed write is one of the crashes. */
  lemma CrashLosesAll(durable: Image, dirty: seq<Write>)
    ensures CrashImage(durable, dirty, durable)
  {
  }

  /** A further attempted write, whatever part of it arrived, yields a crash image of more writes. */
  lemma {:induction false} CrashExtends(durable: Image, dirty: seq<Write>, image: Image, w: Write, after: Image)
    requires CrashImage(durable, dirty, image)
    requires CrashImage(image, [w], after)
    ensures CrashImage(durable, dirty + [w], after)
  {
    var more := dirty + [w];
    forall p
      ensures CrashCell(Get(durable, p), more, p, Get(after, p))
    {
      assert CrashCell(Get(image, p), [w], p, Get(after, p));
      assert CrashCell(Get(durable, p), dirty, p, Get(image, p));
      assert more[|dirty|] == w;
      if Get(after, p) == Get(image, p) {
        CrashCellGrows(Get(durable, p), dirty, w, p, Get(after, p));
      } else if p != w.place && Get(durable, p) != Get(image, p) && Get(image, p).FrameCell? {
        var i :| 0 <= i < |dirty| && dirty[i].place == p;
        assert Touches(more[i], p, Get(durable, p));
      }
    }
  }

  lemma CrashCellGrows(before: Cell, dirty: seq<Write>, w: Write, p: Place, after: Cell)
    requires CrashCell(before, dirty, p, after)
    ensures CrashCell(before, dirty + [w], p, after)
  {
    var more := dirty + [w];
    assert forall i :: 0 <= i < |dirty| ==> more[i] == dirty[i];
  }
}
