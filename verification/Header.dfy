/** The chunk header: version 2 is written and read, version 1 is only read. */
module Header {
  import opened Wrappers
  import opened Bytes

  const MAGIC: seq<byte> := [70, 65, 83, 84, 75, 48, 48, 49] // "FASTK001"
  const V1: u32 := 1
  const V2: u32 := 2
  const SIZE_V1: nat := 88
  const SIZE_V2: nat := 128
  const FLAG_HAS_SPARSE_INDEX: u64 := 1

  datatype ChunkHeader = ChunkHeader(
    magic: seq<byte>,
    version: u32,
    headerSize: u32,
    recordSize: u32,
    schemaId: u32,
    seriesId: u64,
    chunkId: u64,
    generation: u64,
    timeframeMs: i64,
    startTs: i64,
    endTs: i64,
    count: u64,
    flags: u64,
    indexOffset: u64,
    indexLen: u64,
    sparseIndexEvery: u64)

  /** The only defined flag is bit 0. */
  predicate HasSparseFlag(h: ChunkHeader) {
    h.flags % 2 == 1
  }

  function SizeOfVersion(version: u32): Option<nat> {
    if version == V1 then Some(SIZE_V1) else if version == V2 then Some(SIZE_V2) else None
  }

  predicate Validates(h: ChunkHeader) {
    && h.magic == MAGIC
    && SizeOfVersion(h.version) == Some(h.headerSize)
    && !(h.count > 0 && h.startTs > h.endTs)
    && !(h.version >= V2 && HasSparseFlag(h) && h.sparseIndexEvery == 0)
  }

  function Words(h: ChunkHeader): (ws: seq<u64>)
    ensures |ws| == 15
  {
    [h.version, h.headerSize, h.recordSize, h.schemaId, h.seriesId, h.chunkId, h.generation,
     I64ToU64(h.timeframeMs), I64ToU64(h.startTs), I64ToU64(h.endTs), h.count, h.flags,
     h.indexOffset, h.indexLen, h.sparseIndexEvery]
  }

  /** How many words fit behind the magic before the buffer ends. */
  function WordsThatFit(size: nat): nat
    requires size >= 8
  {
    var n := (size - 8) / 8;
    if n < 15 then n else 15
  }

  function ZeroBytes(n: nat): (bs: seq<byte>)
    ensures |bs| == n
  {
    seq(n, i => 0)
  }

  /** What `to_le_bytes` leaves in its zeroed buffer. */
  ghost function Encoding(h: ChunkHeader): (bs: seq<byte>)
    requires h.headerSize >= 8
  {
    var n := WordsThatFit(h.headerSize);
    h.magic + EncodeWords(Words(h)[..n]) + ZeroBytes(h.headerSize - 8 - 8 * n)
  }

  method ToLeBytes(h: ChunkHeader) returns (buf: seq<byte>)
    requires |h.magic| == 8 && h.headerSize >= 8
    ensures buf == Encoding(h)
    ensures |buf| == h.headerSize
  {
    buf := ZeroBytes(h.headerSize);
    buf := h.magic + buf[8..];
    var words := Words(h);
    var n := 0;
    EncodeWordsSize([]);
    assert words[..0] == [];
    while n < 15 && 8 + 8 * n + 8 <= |buf|
      invariant 0 <= n <= WordsThatFit(h.headerSize)
      invariant |buf| == h.headerSize
      invariant |EncodeWords(words[..n])| == 8 * n
      invariant buf == h.magic + EncodeWords(words[..n]) + ZeroBytes(h.headerSize - 8 - 8 * n)
    {
      var offset := 8 + 8 * n;
      EncodeWordsSnoc(words, n);
      buf := buf[..offset] + Word(words[n]) + buf[offset + 8..];
      n := n + 1;
    }
    assert n == WordsThatFit(h.headerSize);
  }

  lemma {:induction false} EncodeWordsSnoc(ws: seq<u64>, n: nat)
    requires n < |ws|
    ensures EncodeWords(ws[..n + 1]) == EncodeWords(ws[..n]) + Word(ws[n])
    ensures |EncodeWords(ws[..n])| == 8 * n
    ensures |EncodeWords(ws[..n + 1])| == 8 * n + 8
  {
    var a := seq(n, i requires 0 <= i < n => Word(ws[..n][i]));
    var b := seq(n + 1, i requires 0 <= i < n + 1 => Word(ws[..n + 1][i]));
    assert b == a + [Word(ws[n])];
    ConcatSnoc(a, Word(ws[n]));
    EncodeWordsSize(ws[..n]);
  }

  function WordAt(bs: seq<byte>, i: nat): u64
    requires 8 + 8 * i + 8 <= |bs|
  {
    ReadWord(bs[8 + 8 * i..8 + 8 * i + 8])
  }

  function Parse(bs: seq<byte>): ChunkHeader
    requires |bs| == SIZE_V1 || |bs| == SIZE_V2
    requires TruncateU32(WordAt(bs, 0)) >= V2 ==> |bs| == SIZE_V2
  {
    var version, headerSize := TruncateU32(WordAt(bs, 0)), TruncateU32(WordAt(bs, 1));
    var recordSize, schemaId := TruncateU32(WordAt(bs, 2)), TruncateU32(WordAt(bs, 3));
    if version >= V2 then
      ChunkHeader(bs[..8], version, headerSize, recordSize, schemaId, WordAt(bs, 4), WordAt(bs, 5), WordAt(bs, 6),
                  U64ToI64(WordAt(bs, 7)), U64ToI64(WordAt(bs, 8)), U64ToI64(WordAt(bs, 9)),
                  WordAt(bs, 10), WordAt(bs, 11), WordAt(bs, 12), WordAt(bs, 13), WordAt(bs, 14))
    else
      ChunkHeader(bs[..8], version, headerSize, recordSize, schemaId, WordAt(bs, 4), 0, 0,
                  U64ToI64(WordAt(bs, 5)), U64ToI64(WordAt(bs, 6)), U64ToI64(WordAt(bs, 7)),
                  WordAt(bs, 8), WordAt(bs, 9), headerSize, 0, 0)
  }

  lemma SliceOfPrefix(bs: seq<byte>, n: nat, i: nat, j: nat)
    requires i <= j <= n <= |bs|
    ensures bs[..n][i..j] == bs[i..j]
  {
  }

  /** `ChunkHeader::read_from`: version and size are settled on the first 24 bytes. */
  function ReadFrom(bs: seq<byte>): (r: Result<ChunkHeader>)
    ensures r.Ok? ==> Validates(r.value) && r.value.headerSize <= |bs|
    ensures r.Ok? ==> r.value.headerSize == SIZE_V1 || r.value.headerSize == SIZE_V2
  {
    if |bs| < 24 then Err(UnexpectedEof)
    else if bs[..8] != MAGIC then Err(InvalidData)
    else match SizeOfVersion(TruncateU32(WordAt(bs, 0)))
      case None => Err(InvalidData)
      case Some(expected) =>
        if WordAt(bs, 1) != expected then Err(InvalidData)
        else if |bs| < expected then Err(UnexpectedEof)
        else
          SliceOfPrefix(bs, expected, 0, 8);
          SliceOfPrefix(bs, expected, 8, 16);
          SliceOfPrefix(bs, expected, 16, 24);
          var h := Parse(bs[..expected]);
          if Validates(h) then Ok(h) else Err(InvalidData)
  }

  /** What a reader may rely on in any header it is given. */
  lemma {:induction false} ReturnedHeader(bs: seq<byte>)
    requires ReadFrom(bs).Ok?
    ensures var h := ReadFrom(bs).value;
            && bs[..8] == [70, 65, 83, 84, 75, 48, 48, 49] == h.magic
            && ((h.version == 1 && h.headerSize == 88) || (h.version == 2 && h.headerSize == 128))
            && h.headerSize <= |bs|
            && (h.count > 0 ==> h.startTs <= h.endTs)
            && (h.version == 2 && h.flags % 2 == 1 ==> h.sparseIndexEvery > 0)
  {
  }

  // Round trips

  lemma {:induction false} EncodedWord(h: ChunkHeader, i: nat, rest: seq<byte>)
    requires |h.magic| == 8 && h.headerSize >= 8
    requires i < WordsThatFit(h.headerSize)
    ensures |Encoding(h)| == h.headerSize
    ensures 8 + 8 * i + 8 <= h.headerSize
    ensures WordAt(Encoding(h) + rest, i) == Words(h)[i]
  {
    var ws := Words(h)[..WordsThatFit(h.headerSize)];
    EncodeWordsAt(ws, i);
    var zeros := ZeroBytes(h.headerSize - 8 - |EncodeWords(ws)|);
    SliceWithin(h.magic, EncodeWords(ws), zeros + rest, 8 * i, 8 * i + 8);
    assert Encoding(h) + rest == h.magic + EncodeWords(ws) + (zeros + rest);
  }

  lemma {:induction false} EncodedWords(h: ChunkHeader, rest: seq<byte>)
    requires |h.magic| == 8 && h.headerSize >= 8
    requires WordsThatFit(h.headerSize) > 0
    ensures |Encoding(h)| == h.headerSize && (Encoding(h) + rest)[..8] == h.magic
    ensures forall i :: 0 <= i < WordsThatFit(h.headerSize) ==>
              8 + 8 * i + 8 <= h.headerSize && WordAt(Encoding(h) + rest, i) == Words(h)[i]
  {
    EncodedWord(h, 0, rest);
    forall i | 0 <= i < WordsThatFit(h.headerSize)
      ensures 8 + 8 * i + 8 <= h.headerSize && WordAt(Encoding(h) + rest, i) == Words(h)[i]
    {
      EncodedWord(h, i, rest);
    }
  }

  /** Where each field of a version 2 header lies in the file. */
  lemma {:induction false} FieldOffsets(h: ChunkHeader)
    requires Validates(h) && h.version == V2
    ensures |Encoding(h)| == SIZE_V2
    ensures var bs := Encoding(h);
            && bs[..8] == MAGIC
            && ReadWord(bs[8..16]) == 2 && ReadWord(bs[16..24]) == 128
            && ReadWord(bs[24..32]) == h.recordSize && ReadWord(bs[32..40]) == h.schemaId
            && ReadWord(bs[40..48]) == h.seriesId && ReadWord(bs[48..56]) == h.chunkId
            && ReadWord(bs[56..64]) == h.generation
            && U64ToI64(ReadWord(bs[64..72])) == h.timeframeMs
            && U64ToI64(ReadWord(bs[72..80])) == h.startTs && U64ToI64(ReadWord(bs[80..88])) == h.endTs
            && ReadWord(bs[88..96]) == h.count && ReadWord(bs[96..104]) == h.flags
            && ReadWord(bs[104..112]) == h.indexOffset && ReadWord(bs[112..120]) == h.indexLen
            && ReadWord(bs[120..128]) == h.sparseIndexEvery
  {
    EncodedWords(h, []);
    var bs := Encoding(h);
    assert bs + [] == bs;
    forall i | 0 <= i < 15
      ensures ReadWord(bs[8 + 8 * i..8 + 8 * i + 8]) == Words(h)[i]
    {
      assert WordAt(bs, i) == Words(h)[i];
    }
    assert WordAt(bs, 0) == h.version && WordAt(bs, 1) == h.headerSize && WordAt(bs, 2) == h.recordSize;
    assert WordAt(bs, 3) == h.schemaId && WordAt(bs, 4) == h.seriesId && WordAt(bs, 5) == h.chunkId;
    assert WordAt(bs, 6) == h.generation && WordAt(bs, 10) == h.count && WordAt(bs, 11) == h.flags;
    assert WordAt(bs, 12) == h.indexOffset && WordAt(bs, 13) == h.indexLen && WordAt(bs, 14) == h.sparseIndexEvery;
    assert U64ToI64(WordAt(bs, 7)) == h.timeframeMs && U64ToI64(WordAt(bs, 8)) == h.startTs;
    assert U64ToI64(WordAt(bs, 9)) == h.endTs;
  }

  /** Headers whose V1 encoding happens to survive: the encoder wrote the V2 word order. */
  predicate BlankV1(h: ChunkHeader) {
    && h.version == V1
    && h.chunkId == 0 && h.generation == 0 && h.timeframeMs == 0
    && h.startTs == 0 && h.endTs == 0 && h.count == 0 && h.flags == 0
    && h.indexOffset == SIZE_V1 && h.indexLen == 0 && h.sparseIndexEvery == 0
  }

  lemma {:induction false} ParseEncoded(h: ChunkHeader)
    requires Validates(h) && h.version == V2
    ensures |Encoding(h)| == SIZE_V2
    ensures TruncateU32(WordAt(Encoding(h), 0)) == V2
    ensures Parse(Encoding(h)) == h
  {
    EncodedWords(h, []);
    assert Encoding(h) + [] == Encoding(h);
  }

  /** Reading back what was written, with any bytes behind it. */
  lemma {:induction false} ReadWrittenV2(h: ChunkHeader, rest: seq<byte>)
    requires Validates(h) && h.version == V2
    ensures |Encoding(h)| == SIZE_V2
    ensures ReadFrom(Encoding(h) + rest) == Ok(h)
  {
    ParseEncoded(h);
    EncodedWord(h, 1, []);
    assert Encoding(h) + [] == Encoding(h);
    ReadFromHead(Encoding(h), rest, h);
  }

  /** Only the header's own bytes matter to the reader. */
  lemma {:induction false} ReadFromHead(head: seq<byte>, rest: seq<byte>, h: ChunkHeader)
    requires |head| == SIZE_V1 || |head| == SIZE_V2
    requires SizeOfVersion(TruncateU32(WordAt(head, 0))) == Some(|head|) && WordAt(head, 1) == |head|
    requires Parse(head) == h && Validates(h)
    ensures ReadFrom(head + rest) == Ok(h)
  {
    var bs := head + rest;
    assert bs[..|head|] == head;
    assert bs[..8] == head[..8] && bs[8..16] == head[8..16] && bs[16..24] == head[16..24];
  }

  /**
   * The header codec undoes itself exactly on version 2; a version 1 header
   * comes back only in the degenerate all-zero case.
   */
  lemma {:induction false} HeaderRoundTripExactly(h: ChunkHeader)
    requires Validates(h)
    ensures ReadFrom(Encoding(h)) == Ok(h) <==> h.version == V2 || BlankV1(h)
  {
    assert Encoding(h) + [] == Encoding(h);
    if h.version == V2 {
      ReadWrittenV2(h, []);
    } else {
      EncodedWords(h, []);
      var bs := Encoding(h);
      assert bs[..SIZE_V1] == bs;
      assert Parse(bs).timeframeMs == U64ToI64(h.chunkId);
      assert Parse(bs).count == I64ToU64(h.startTs) && Parse(bs).flags == I64ToU64(h.endTs);
    }
  }

  /** The layout legacy files carry: no chunk identity and no index words. */
  ghost function LegacyEncoding(h: ChunkHeader): seq<byte> {
    MAGIC + EncodeWords(LegacyWords(h))
  }

  function LegacyWords(h: ChunkHeader): (ws: seq<u64>)
    ensures |ws| == 10
  {
    [h.version, h.headerSize, h.recordSize, h.schemaId, h.seriesId,
     I64ToU64(h.timeframeMs), I64ToU64(h.startTs), I64ToU64(h.endTs), h.count, h.flags]
  }

  lemma {:induction false} LegacyWord(h: ChunkHeader, i: nat, rest: seq<byte>)
    requires i < 10
    ensures |LegacyEncoding(h)| == SIZE_V1
    ensures WordAt(LegacyEncoding(h) + rest, i) == LegacyWords(h)[i]
  {
    EncodeWordsAt(LegacyWords(h), i);
    SliceWithin(MAGIC, EncodeWords(LegacyWords(h)), rest, 8 * i, 8 * i + 8);
  }

  function LegacyDefaults(h: ChunkHeader): ChunkHeader {
    h.(chunkId := 0, generation := 0, indexOffset := SIZE_V1, indexLen := 0, sparseIndexEvery := 0)
  }

  lemma {:induction false} LegacyWordsRead(h: ChunkHeader)
    ensures |LegacyEncoding(h)| == SIZE_V1 && LegacyEncoding(h)[..8] == MAGIC
    ensures forall i :: 0 <= i < 10 ==> WordAt(LegacyEncoding(h), i) == LegacyWords(h)[i]
  {
    var bs := LegacyEncoding(h);
    assert bs + [] == bs;
    LegacyWord(h, 0, []);
    forall i | 0 <= i < 10
      ensures WordAt(bs, i) == LegacyWords(h)[i]
    {
      LegacyWord(h, i, []);
    }
  }

  lemma {:induction false} ParseLegacy(h: ChunkHeader)
    requires Validates(h) && h.version == V1
    ensures |LegacyEncoding(h)| == SIZE_V1
    ensures TruncateU32(WordAt(LegacyEncoding(h), 0)) == V1
    ensures Parse(LegacyEncoding(h)) == LegacyDefaults(h)
  {
    LegacyWordsRead(h);
    var bs := LegacyEncoding(h);
    assert WordAt(bs, 0) == h.version && WordAt(bs, 1) == h.headerSize && WordAt(bs, 2) == h.recordSize;
    assert WordAt(bs, 3) == h.schemaId && WordAt(bs, 4) == h.seriesId;
    assert WordAt(bs, 8) == h.count && WordAt(bs, 9) == h.flags;
    assert WordAt(bs, 5) == I64ToU64(h.timeframeMs) && WordAt(bs, 6) == I64ToU64(h.startTs);
    assert WordAt(bs, 7) == I64ToU64(h.endTs);
  }

  /** Decoding a legacy header gives its fields back and fills the rest with the documented defaults. */
  lemma {:induction false} ReadLegacy(h: ChunkHeader, rest: seq<byte>)
    requires Validates(h) && h.version == V1
    ensures |LegacyEncoding(h)| == SIZE_V1
    ensures ReadFrom(LegacyEncoding(h) + rest) == Ok(LegacyDefaults(h))
  {
    ParseLegacy(h);
    LegacyWord(h, 1, []);
    assert LegacyEncoding(h) + [] == LegacyEncoding(h);
    ReadFromHead(LegacyEncoding(h), rest, LegacyDefaults(h));
  }
}
