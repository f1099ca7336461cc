/** A chunk's parsed layout, and what it means for a file to store a record sequence. */
module Layout {
  import opened Wrappers
  import opened Bytes
  import opened Records
  import opened Header
  import opened SparseIndex
  import opened ChunkFiles

  datatype ChunkLayout = ChunkLayout(header: ChunkHeader, sparse: seq<Entry>)

  predicate DeclaresIndex(h: ChunkHeader) {
    h.version >= V2 && HasSparseFlag(h) && h.indexLen != 0
  }

  function ParseIndex(bytes: seq<byte>, h: ChunkHeader): Result<seq<Entry>> {
    if !DeclaresIndex(h) then Ok([])
    else if h.indexLen * ENTRY_SIZE >= TWO_64 then Err(InvalidData)
    else if h.indexOffset + h.indexLen * ENTRY_SIZE > |bytes| then Err(UnexpectedEof)
    else Ok(DecodeIndex(bytes[h.indexOffset..h.indexOffset + h.indexLen * ENTRY_SIZE]))
  }

  /** The layout a file determines, independent of how it is read. */
  function ParseLayout(bytes: seq<byte>): Result<ChunkLayout> {
    var header :- Header.ReadFrom(bytes);
    var sparse :- ParseIndex(bytes, header);
    Ok(ChunkLayout(header, sparse))
  }

  method ReadHeader(file: ChunkFile) returns (r: Result<ChunkHeader>)
    requires file.Valid() && file.offset == 0
    modifies file
    ensures r.Ok? ==> r == Header.ReadFrom(file.bytes)
    ensures old(file.Healthy()) ==> file.Healthy() && r == Header.ReadFrom(file.bytes)
  {
    var prefix :- file.ReadExact(24);
    assert prefix == file.bytes[..24];
    assert prefix[..8] == file.bytes[..8] && prefix[8..16] == file.bytes[8..16] && prefix[16..24] == file.bytes[16..24];
    var version := TruncateU32(ReadWord(prefix[8..16]));
    if prefix[..8] != MAGIC {
      return Err(InvalidData);
    }
    var expected := SizeOfVersion(version);
    if expected.None? || ReadWord(prefix[16..24]) != expected.value {
      return Err(InvalidData);
    }
    var rest :- file.ReadExact(expected.value - 24);
    var bytes := prefix + rest;
    assert bytes == file.bytes[..expected.value];
    assert bytes[8..16] == prefix[8..16] && bytes[..8] == prefix[..8];
    var header := Header.Parse(bytes);
    if !Validates(header) {
      return Err(InvalidData);
    }
    return Ok(header);
  }

  method ReadIndex(file: ChunkFile, h: ChunkHeader) returns (r: Result<seq<Entry>>)
    requires file.Valid()
    modifies file
    ensures r.Ok? ==> r == ParseIndex(file.bytes, h)
    ensures old(file.Healthy()) ==> file.Healthy() && r == ParseIndex(file.bytes, h)
  {
    if h.version < V2 || !HasSparseFlag(h) || h.indexLen == 0 {
      return Ok([]);
    }
    if h.indexLen * ENTRY_SIZE >= TWO_64 {
      return Err(InvalidData);
    }
    file.SeekTo(h.indexOffset);
    var bytes :- file.ReadExact(h.indexLen * ENTRY_SIZE);
    r := DecodeEntries(bytes);
  }

  /** Loading through any sequence of short and interrupted reads yields the layout the bytes determine. */
  method Load(file: ChunkFile) returns (r: Result<ChunkLayout>)
    requires file.Valid()
    modifies file
    ensures r.Ok? ==> r == ParseLayout(file.bytes)
    ensures old(file.Healthy()) ==> file.Healthy() && r == ParseLayout(file.bytes)
  {
    file.SeekTo(0);
    var header :- ReadHeader(file);
    var sparse :- ReadIndex(file, header);
    return Ok(ChunkLayout(header, sparse));
  }

  function RegionEnd(h: ChunkHeader): nat {
    h.headerSize + h.count * h.recordSize
  }

  /**
   * `bytes` holds the ordered records `rs` behind a header `h`; the layout either has no
   * index (legacy files) or anchors sampled every `every` records.
   */
  ghost predicate Stores(bytes: seq<byte>, layout: ChunkLayout, kind: Kind, rs: seq<Record>, every: nat) {
    var h := layout.header;
    && |bytes| < TWO_63
    && OfKind(kind, rs) && Ordered(kind, rs)
    && h.count == |rs| && h.recordSize == kind.Size() && h.schemaId == kind.SchemaId()
    && RegionEnd(h) <= |bytes|
    && bytes[h.headerSize..RegionEnd(h)] == EncodeAll(rs)
    && (rs != [] ==> h.startTs == rs[0].ts && h.endTs == rs[|rs| - 1].ts)
    && (layout.sparse == [] || Anchors(rs, layout.sparse, every))
  }

  lemma OrderedIsNonDecreasing(kind: Kind, rs: seq<Record>)
    requires Ordered(kind, rs)
    ensures NonDecreasing(rs)
    ensures !kind.AllowsEqualTimestamps() ==> Strict(rs)
  {
    forall i, j | 0 <= i <= j < |rs|
      ensures rs[i].ts <= rs[j].ts
    {
      assert i < j ==> Precedes(kind, rs[i].ts, rs[j].ts);
    }
    if !kind.AllowsEqualTimestamps() {
      forall i, j | 0 <= i < j < |rs|
        ensures rs[i].ts < rs[j].ts
      {
        assert Precedes(kind, rs[i].ts, rs[j].ts);
      }
    }
  }
}
