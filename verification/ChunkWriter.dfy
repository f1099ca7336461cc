/** Both chunk writers print `[header][records][sparse index]`; they differ in how they check partitions. */
module ChunkWriter {
  import opened Wrappers
  import opened Bytes
  import opened Records
  import opened Header
  import opened SparseIndex
  import opened Layout

  datatype SeriesInfo = SeriesInfo(seriesId: u64, timeframeMs: i64, recordType: Kind, schemaId: u32, recordSize: u32)

  datatype WriteOptions = WriteOptions(chunkId: u64, generation: u32, relativePath: string, sparseIndexEvery: u32)

  /** The catalog entry handed back by a writer; the checksum and the sidecar list are not modelled. */
  datatype ChunkMeta = ChunkMeta(
    chunkId: u64,
    monthKey: int,
    startTs: i64,
    endTs: i64,
    count: u64,
    layoutVersion: u32,
    headerLen: u32,
    sparseIndexEvery: u32,
    sparseIndexOffset: u64,
    sparseIndexLen: nat,
    generation: u32,
    relativePath: string)

  datatype Written = Written(meta: ChunkMeta, bytes: seq<byte>)

  /** Maps a timestamp to its calendar partition; fails outside the calendar's range. */
  type PartitionKey = i64 -> Option<int>

  /** A vector of `n` records and `entries` index entries can exist (Rust vectors never exceed `isize::MAX` bytes). */
  predicate FitsInMemory(kind: Kind, n: nat, entries: nat) {
    SIZE_V2 + n * kind.Size() + entries * ENTRY_SIZE <= ISIZE_MAX
  }

  /** The buffer the writers build can be allocated; otherwise the process aborts. */
  predicate FileFits(kind: Kind, rs: seq<Record>, opts: WriteOptions) {
    FitsInMemory(kind, |rs|, 0) && FitsInMemory(kind, |rs|, |SampleFrom(rs, Every(opts), 0)|)
  }

  function Every(opts: WriteOptions): (every: u32)
    ensures every >= 1
  {
    if opts.sparseIndexEvery < 1 then 1 else opts.sparseIndexEvery
  }

  function HeaderFor(kind: Kind, info: SeriesInfo, rs: seq<Record>, opts: WriteOptions, indexLen: u64): (h: ChunkHeader)
    requires rs != [] && FitsInMemory(kind, |rs|, 0)
  {
    ChunkHeader(
      MAGIC, V2, SIZE_V2, kind.Size(), kind.SchemaId(), info.seriesId, opts.chunkId, opts.generation,
      info.timeframeMs, rs[0].ts, rs[|rs| - 1].ts, |rs|, FLAG_HAS_SPARSE_INDEX,
      SIZE_V2 + |rs| * kind.Size(), indexLen, Every(opts))
  }

  function MetaFor(h: ChunkHeader, monthKey: int, opts: WriteOptions): ChunkMeta {
    ChunkMeta(opts.chunkId, monthKey, h.startTs, h.endTs, h.count, h.version, h.headerSize,
              Every(opts), h.indexOffset, TruncateU32(h.indexLen), opts.generation, opts.relativePath)
  }

  ghost function FileBytes(h: ChunkHeader, rs: seq<Record>, es: seq<Entry>): seq<byte>
    requires h.headerSize >= 8
  {
    Encoding(h) + EncodeAll(rs) + IndexBytes(es)
  }

  /** What both writers promise about a chunk they accept. */
  ghost predicate WritesChunk(kind: Kind, info: SeriesInfo, rs: seq<Record>, opts: WriteOptions, w: Written) {
    rs != [] && FileFits(kind, rs, opts) &&
    var es := SampleFrom(rs, Every(opts), 0);
    var h := HeaderFor(kind, info, rs, opts, |es|);
    && ParseLayout(w.bytes) == Ok(ChunkLayout(h, es))
    && Stores(w.bytes, ChunkLayout(h, es), kind, rs, Every(opts))
    && w.meta == MetaFor(h, w.meta.monthKey, opts)
  }

  /** The stored header identifies the chunk, its series and its records. */
  ghost predicate HeaderIdentifies(h: ChunkHeader, kind: Kind, info: SeriesInfo, rs: seq<Record>, opts: WriteOptions) {
    && rs != []
    && h.version == 2 && h.headerSize == 128 && h.recordSize == kind.Size() && h.schemaId == kind.SchemaId()
    && h.seriesId == info.seriesId && h.timeframeMs == info.timeframeMs
    && h.chunkId == opts.chunkId && h.generation == opts.generation
    && h.startTs == rs[0].ts && h.endTs == rs[|rs| - 1].ts && h.count == |rs|
    && h.indexOffset == 128 + |rs| * kind.Size()
  }

  /** The catalog entry says what the file says: its bounds, row count, identity and index. */
  ghost predicate EntryDescribes(m: ChunkMeta, h: ChunkHeader, rs: seq<Record>, opts: WriteOptions) {
    && rs != []
    && m.startTs == rs[0].ts && m.endTs == rs[|rs| - 1].ts && m.count == |rs|
    && m.chunkId == opts.chunkId && m.generation == opts.generation && m.relativePath == opts.relativePath
    && m.layoutVersion == h.version && m.headerLen == h.headerSize
    && m.sparseIndexOffset == h.indexOffset && m.sparseIndexLen == h.indexLen % 0x1_0000_0000
    && m.sparseIndexEvery == h.sparseIndexEvery
    && m.sparseIndexEvery == if opts.sparseIndexEvery == 0 then 1 else opts.sparseIndexEvery
  }

  /** Header and catalog entry of every written chunk describe its records. */
  lemma {:induction false} WrittenIsDescribed(
      kind: Kind, info: SeriesInfo, rs: seq<Record>, opts: WriteOptions, w: Written)
    requires WritesChunk(kind, info, rs, opts, w)
    ensures var layout := ParseLayout(w.bytes);
            && layout.Ok?
            && HeaderIdentifies(layout.value.header, kind, info, rs, opts)
            && EntryDescribes(w.meta, layout.value.header, rs, opts)
  {
  }

  /** Where the three parts of the file lie. */
  lemma {:induction false} FileParts(kind: Kind, h: ChunkHeader, rs: seq<Record>, es: seq<Entry>)
    requires OfKind(kind, rs)
    requires h.headerSize == SIZE_V2 && |Encoding(h)| == SIZE_V2
    ensures var bytes, split := FileBytes(h, rs, es), SIZE_V2 + |rs| * kind.Size();
            && |bytes| == split + |es| * ENTRY_SIZE
            && bytes[SIZE_V2..split] == EncodeAll(rs)
            && bytes[split..split + |es| * ENTRY_SIZE] == IndexBytes(es)
            && bytes == Encoding(h) + (EncodeAll(rs) + IndexBytes(es))
  {
    EncodeAllSlice(kind, rs, 0, |rs|);
    var x, y, z := Encoding(h), EncodeAll(rs), IndexBytes(es);
    SliceMiddle(x, y, z);
    SliceLast(x, y, z);
    PlusAssociates(x, y, z);
  }

  lemma {:induction false} HeaderValidates(
      kind: Kind, info: SeriesInfo, rs: seq<Record>, opts: WriteOptions, indexLen: u64)
    requires rs != [] && Ordered(kind, rs) && FitsInMemory(kind, |rs|, 0)
    ensures Validates(HeaderFor(kind, info, rs, opts, indexLen))
  {
    OrderedIsNonDecreasing(kind, rs);
    assert rs[0].ts <= rs[|rs| - 1].ts;
  }

  lemma {:induction false} ParseParts(bytes: seq<byte>, h: ChunkHeader, es: seq<Entry>)
    requires Header.ReadFrom(bytes) == Ok(h)
    requires DeclaresIndex(h) && h.indexLen == |es| && |es| * ENTRY_SIZE < TWO_64
    requires h.indexOffset + |es| * ENTRY_SIZE <= |bytes|
    requires bytes[h.indexOffset..h.indexOffset + |es| * ENTRY_SIZE] == IndexBytes(es)
    ensures ParseLayout(bytes) == Ok(ChunkLayout(h, es))
  {
    DecodeIndexBytes(es);
  }

  lemma {:induction false} WrittenHeader(
      kind: Kind, info: SeriesInfo, rs: seq<Record>, opts: WriteOptions, h: ChunkHeader, es: seq<Entry>)
    requires rs != [] && OfKind(kind, rs) && Ordered(kind, rs) && FitsInMemory(kind, |rs|, |es|)
    requires h == HeaderFor(kind, info, rs, opts, |es|)
    ensures |Encoding(h)| == SIZE_V2
    ensures Header.ReadFrom(FileBytes(h, rs, es)) == Ok(h)
  {
    HeaderValidates(kind, info, rs, opts, |es|);
    ReadWrittenV2(h, EncodeAll(rs) + IndexBytes(es));
    FileParts(kind, h, rs, es);
  }

  lemma {:induction false} WrittenParses(
      kind: Kind, info: SeriesInfo, rs: seq<Record>, opts: WriteOptions, h: ChunkHeader, es: seq<Entry>)
    requires rs != [] && OfKind(kind, rs) && Ordered(kind, rs) && FitsInMemory(kind, |rs|, |es|)
    requires es != [] && h == HeaderFor(kind, info, rs, opts, |es|)
    ensures |Encoding(h)| == SIZE_V2
    ensures ParseLayout(FileBytes(h, rs, es)) == Ok(ChunkLayout(h, es))
  {
    WrittenHeader(kind, info, rs, opts, h, es);
    FileParts(kind, h, rs, es);
    assert DeclaresIndex(h) && h.indexLen == |es| && h.indexOffset == SIZE_V2 + |rs| * kind.Size();
    ParseParts(FileBytes(h, rs, es), h, es);
  }

  /** The printed file parses back to its header and anchors and holds the records. */
  lemma {:induction false} WrittenIsStored(
      kind: Kind, info: SeriesInfo, rs: seq<Record>, opts: WriteOptions, h: ChunkHeader, es: seq<Entry>)
    requires rs != [] && OfKind(kind, rs) && Ordered(kind, rs) && FileFits(kind, rs, opts)
    requires es == SampleFrom(rs, Every(opts), 0)
    requires h == HeaderFor(kind, info, rs, opts, |es|)
    ensures ParseLayout(FileBytes(h, rs, es)) == Ok(ChunkLayout(h, es))
    ensures Stores(FileBytes(h, rs, es), ChunkLayout(h, es), kind, rs, Every(opts))
  {
    WrittenParses(kind, info, rs, opts, h, es);
    SampleAnchors(rs, Every(opts), 0);
    FileParts(kind, h, rs, es);
  }

  /** The part the two writers share once the input is accepted. */
  method PrintChunk(
      kind: Kind, info: SeriesInfo, rs: seq<Record>, opts: WriteOptions, monthKey: int)
    returns (w: Written)
    requires rs != [] && OfKind(kind, rs) && Ordered(kind, rs) && FileFits(kind, rs, opts)
    ensures WritesChunk(kind, info, rs, opts, w) && w.meta.monthKey == monthKey
  {
    var sparse := SampleFrom(rs, Every(opts), 0);
    var indexBytes := EncodeEntries(sparse);
    var header := HeaderFor(kind, info, rs, opts, |sparse|);
    var headerBytes := ToLeBytes(header);
    var recordBytes := EncodeRecords(rs);
    WrittenIsStored(kind, info, rs, opts, header, sparse);
    w := Written(MetaFor(header, monthKey, opts), headerBytes + recordBytes + indexBytes);
  }

  method EncodeRecords(rs: seq<Record>) returns (bytes: seq<byte>)
    ensures bytes == EncodeAll(rs)
  {
    bytes := [];
    for i := 0 to |rs|
      invariant bytes == EncodeAll(rs[..i])
    {
      EncodeAllSnoc(rs, i);
      bytes := bytes + Encode(rs[i]);
    }
    assert rs[..|rs|] == rs;
  }

  /** All records fall into one partition the calendar knows. */
  ghost predicate OnePartition(key: PartitionKey, rs: seq<Record>) {
    rs != [] ==> key(rs[0].ts).Some? && forall i :: 0 <= i < |rs| ==> key(rs[i].ts) == key(rs[0].ts)
  }

  /** What the kline writer asks of its input. */
  ghost predicate KlineAccepts(rs: seq<Record>, opts: WriteOptions, key: PartitionKey) {
    && rs != [] && Ordered(KlineKind, rs)
    && key(rs[0].ts).Some? && key(rs[|rs| - 1].ts) == key(rs[0].ts)
    && !Blank(opts.relativePath)
  }

  /** `kline_writer::write_chunk`: only the first and last month are compared. */
  method WriteKlineChunk(
      info: SeriesInfo, rs: seq<Record>, opts: WriteOptions, key: PartitionKey)
    returns (r: Result<Written>)
    requires OfKind(KlineKind, rs) && FileFits(KlineKind, rs, opts)
    ensures r.Ok? <==> KlineAccepts(rs, opts, key)
    ensures r.Ok? ==> WritesChunk(KlineKind, info, rs, opts, r.value) && key(rs[0].ts) == Some(r.value.meta.monthKey)
    ensures r.Ok? ==>
              var layout := ParseLayout(r.value.bytes);
              && layout.Ok?
              && HeaderIdentifies(layout.value.header, KlineKind, info, rs, opts)
              && EntryDescribes(r.value.meta, layout.value.header, rs, opts)
  {
    var _ :- ValidateOrder(KlineKind, rs);
    var first, last := key(rs[0].ts), key(rs[|rs| - 1].ts);
    if first.None? || last.None? || first != last {
      return Err(InvalidInput);
    }
    if Blank(opts.relativePath) {
      return Err(InvalidInput);
    }
    var w := PrintChunk(KlineKind, info, rs, opts, first.value);
    WrittenIsDescribed(KlineKind, info, rs, opts, w);
    return Ok(w);
  }

  /** What the generic writer asks of its input. */
  ghost predicate FixedAccepts(kind: Kind, info: SeriesInfo, rs: seq<Record>, opts: WriteOptions, key: PartitionKey) {
    && rs != [] && Ordered(kind, rs)
    && info.recordType == kind && info.schemaId == kind.SchemaId() && info.recordSize == kind.Size()
    && !Blank(opts.relativePath)
    && OnePartition(key, rs)
  }

  /** `fixed_writer::write_chunk`: every record's partition is compared with the first one's. */
  method WriteFixedChunk(
      kind: Kind, info: SeriesInfo, rs: seq<Record>, opts: WriteOptions, key: PartitionKey)
    returns (r: Result<Written>)
    requires OfKind(kind, rs) && FileFits(kind, rs, opts)
    ensures r.Ok? <==> FixedAccepts(kind, info, rs, opts, key)
    ensures r.Ok? ==> WritesChunk(kind, info, rs, opts, r.value) && key(rs[0].ts) == Some(r.value.meta.monthKey)
    ensures r.Ok? ==>
              var layout := ParseLayout(r.value.bytes);
              && layout.Ok?
              && HeaderIdentifies(layout.value.header, kind, info, rs, opts)
              && EntryDescribes(r.value.meta, layout.value.header, rs, opts)
  {
    var _ :- ValidateOrder(kind, rs);
    if info.recordType != kind || info.schemaId != kind.SchemaId() || info.recordSize != kind.Size() {
      return Err(InvalidData);
    }
    if Blank(opts.relativePath) {
      return Err(InvalidInput);
    }
    var partition := key(rs[0].ts);
    if partition.None? {
      return Err(InvalidInput);
    }
    for i := 1 to |rs|
      invariant forall k :: 0 <= k < i ==> key(rs[k].ts) == partition
    {
      if key(rs[i].ts) != partition {
        return Err(InvalidInput);
      }
    }
    var w := PrintChunk(kind, info, rs, opts, partition.value);
    WrittenIsDescribed(kind, info, rs, opts, w);
    return Ok(w);
  }

  /** Calendar partitions grow with time, and the calendar's range has no holes. */
  ghost predicate MonotoneKey(key: PartitionKey) {
    && (forall a: i64, b: i64 :: a <= b && key(a).Some? && key(b).Some? ==> key(a).value <= key(b).value)
    && (forall a: i64, b: i64, c: i64 :: a <= b <= c && key(a).Some? && key(c).Some? ==> key(b).Some?)
  }

  /** Comparing only the first and last partition is as strict as comparing every record's. */
  lemma EndpointsDecidePartition(key: PartitionKey, kind: Kind, rs: seq<Record>)
    requires MonotoneKey(key) && Ordered(kind, rs) && rs != []
    ensures OnePartition(key, rs) <==> key(rs[0].ts).Some? && key(rs[|rs| - 1].ts) == key(rs[0].ts)
  {
    OrderedIsNonDecreasing(kind, rs);
    if key(rs[0].ts).Some? && key(rs[|rs| - 1].ts) == key(rs[0].ts) {
      forall i | 0 <= i < |rs|
        ensures key(rs[i].ts) == key(rs[0].ts)
      {
        var a, b, c := rs[0].ts, rs[i].ts, rs[|rs| - 1].ts;
        assert a <= b <= c;
        assert key(b).Some?;
      }
    }
  }
}
