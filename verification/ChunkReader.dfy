/** Offset arithmetic, span reads and on-disk searches shared by the kline and the generic reader. */
module ChunkReader {
  import opened Wrappers
  import opened Bytes
  import opened Records
  import opened Header
  import opened Bounds
  import opened SparseIndex
  import opened ChunkFiles
  import opened Layout

  function Max(a: int, b: int): int {
    if a < b then b else a
  }

  const DEFAULT_RECORD := Kline(0, 0, 0, 0, 0, 0)

  /** The caller's growing output vector. */
  class RecordVec {
    var rows: seq<Record>

    constructor ()
      ensures rows == []
    {
      rows := [];
    }

    method Resize(n: nat)
      requires n >= |rows|
      modifies this
      ensures |rows| == n && rows[..old(|rows|)] == old(rows)
    {
      rows := rows + seq(n - |rows|, i => DEFAULT_RECORD);
    }

    method Truncate(n: nat)
      modifies this
      ensures rows == if n < old(|rows|) then old(rows)[..n] else old(rows)
    {
      if n < |rows| {
        rows := rows[..n];
      }
    }

    /** Moves rows `lo..hi` to `dest`, overlapping ranges included. */
    method CopyWithin(lo: nat, hi: nat, dest: nat)
      requires lo <= hi <= |rows| && dest + (hi - lo) <= |rows|
      modifies this
      ensures rows == old(rows)[..dest] + old(rows)[lo..hi] + old(rows)[dest + (hi - lo)..]
    {
      rows := rows[..dest] + rows[lo..hi] + rows[dest + (hi - lo)..];
    }

    method Append(more: seq<Record>)
      modifies this
      ensures rows == old(rows) + more
    {
      rows := rows + more;
    }

    /** Overwrites the tail that `Resize` made with decoded rows. */
    method Overwrite(at: nat, decoded: seq<Record>)
      requires at + |decoded| == |rows|
      modifies this
      ensures rows == old(rows)[..at] + decoded
    {
      rows := rows[..at] + decoded;
    }
  }

  /** The slice of records a span request names. */
  function Span(rs: seq<Record>, start: nat, count: nat): seq<Record>
    requires count == 0 || start + count <= |rs|
  {
    if count == 0 then [] else rs[start..start + count]
  }

  /** The reader's view of a chunk: an open file that stores `rs` under the cached layout. */
  ghost predicate Views(file: ChunkFile, layout: ChunkLayout, kind: Kind, rs: seq<Record>, every: nat) {
    file.Valid() && Stores(file.bytes, layout, kind, rs, every)
  }

  /** `validate_header`: the file holds records of this kind. */
  predicate HeaderFits(h: ChunkHeader, kind: Kind) {
    h.schemaId == kind.SchemaId() && h.recordSize == kind.Size()
  }

  /** `header_size + index * record_size`; the readers compute it without overflow checks. */
  function Offset(h: ChunkHeader, i: nat): nat {
    h.headerSize + i * h.recordSize
  }

  lemma SliceOfSlice<T>(s: seq<T>, a: nat, b: nat, i: nat, j: nat)
    requires a <= b <= |s| && i <= j <= b - a
    ensures s[a..b][i..j] == s[a + i..a + j]
  {
    var mid := s[a..b];
    assert |mid[i..j]| == |s[a + i..a + j]|;
    forall k | 0 <= k < j - i
      ensures mid[i..j][k] == s[a + i..a + j][k]
    {
      assert mid[i..j][k] == mid[i + k] == s[a + (i + k)];
    }
  }

  lemma RegionSlice(bytes: seq<byte>, at: nat, region: seq<byte>, i: nat, j: nat)
    requires at + |region| <= |bytes| && bytes[at..at + |region|] == region
    requires i <= j <= |region|
    ensures bytes[at + i..at + j] == region[i..j]
  {
    SliceOfSlice(bytes, at, at + |region|, i, j);
  }

  /** A span inside the row count lies inside the record region, with no overflow on the way. */
  lemma {:induction false} SpanInRegion(
      bytes: seq<byte>, layout: ChunkLayout, kind: Kind, rs: seq<Record>, every: nat, start: nat, count: nat)
    requires Stores(bytes, layout, kind, rs, every)
    requires start + count <= |rs|
    ensures Offset(layout.header, start) == layout.header.headerSize + start * kind.Size()
    ensures Offset(layout.header, start) + count * kind.Size() <= RegionEnd(layout.header) <= |bytes| < TWO_63
    ensures RegionEnd(layout.header) == layout.header.headerSize + |rs| * kind.Size()
  {
  }

  lemma {:induction false} SpanBytes(
      bytes: seq<byte>, layout: ChunkLayout, kind: Kind, rs: seq<Record>, every: nat, start: nat, count: nat)
    requires Stores(bytes, layout, kind, rs, every)
    requires start + count <= |rs|
    ensures Offset(layout.header, start) + count * kind.Size() <= |bytes| < TWO_63
    ensures Exactly(bytes, Offset(layout.header, start), count * kind.Size()) == EncodeAll(rs[start..start + count])
  {
    SpanInRegion(bytes, layout, kind, rs, every, start, count);
    EncodeAllSlice(kind, rs, start, start + count);
    RegionSlice(bytes, layout.header.headerSize, EncodeAll(rs), start * kind.Size(), (start + count) * kind.Size());
  }

  lemma {:induction false} SpanDecodes(
      bytes: seq<byte>, layout: ChunkLayout, kind: Kind, rs: seq<Record>, every: nat, start: nat, count: nat)
    requires Stores(bytes, layout, kind, rs, every)
    requires start + count <= |rs|
    ensures Offset(layout.header, start) + count * kind.Size() <= |bytes| < TWO_63
    ensures DecodeAll(kind, Exactly(bytes, Offset(layout.header, start), count * kind.Size())) ==
              Ok(rs[start..start + count])
  {
    SpanBytes(bytes, layout, kind, rs, every, start, count);
    DecodeAllEncodeAll(kind, rs[start..start + count]);
  }

  method ReadRecordSpan(
      file: ChunkFile, layout: ChunkLayout, kind: Kind, start: u64, count: u64, ghost rs: seq<Record>,
      ghost every: nat)
    returns (r: Result<seq<Record>>)
    requires Views(file, layout, kind, rs, every)
    modifies file
    ensures r.Ok? ==> (count == 0 || start + count <= |rs|) && r.value == Span(rs, start, count)
    ensures old(file.Healthy()) ==> file.Healthy() && (r.Ok? <==> count == 0 || start + count <= |rs|)
  {
    if count == 0 {
      return Ok([]);
    }
    if start + count >= TWO_64 || start + count > layout.header.count {
      return Err(InvalidData);
    }
    SpanDecodes(file.bytes, layout, kind, rs, every, start, count);
    file.SeekTo(Offset(layout.header, start));
    var bytes :- file.ReadExact(count * kind.Size());
    r := DecodeAll(kind, bytes);
  }

  lemma {:induction false} RecordBytes(
      bytes: seq<byte>, layout: ChunkLayout, kind: Kind, rs: seq<Record>, every: nat, i: nat)
    requires Stores(bytes, layout, kind, rs, every)
    requires i < |rs|
    ensures Offset(layout.header, i) + kind.Size() <= |bytes| < TWO_63
    ensures bytes[Offset(layout.header, i)..Offset(layout.header, i) + kind.Size()] == Encode(rs[i])
  {
    SpanBytes(bytes, layout, kind, rs, every, i, 1);
    assert rs[i..i + 1] == [rs[i]];
    EncodeOne(rs[i]);
  }

  lemma EncodeOne(r: Record)
    ensures EncodeAll([r]) == Encode(r)
  {
    var blocks := Blocks([r]);
    assert blocks == [Encode(r)] && blocks[1..] == [];
    assert Concat(blocks) == Encode(r) + Concat<byte>([]);
  }

  lemma {:induction false} TimestampBytes(
      bytes: seq<byte>, layout: ChunkLayout, kind: Kind, rs: seq<Record>, every: nat, i: nat)
    requires Stores(bytes, layout, kind, rs, every)
    requires i < |rs|
    ensures Offset(layout.header, i) + 8 <= |bytes| < TWO_63
    ensures U64ToI64(ReadWord(Exactly(bytes, Offset(layout.header, i), 8))) == rs[i].ts
  {
    RecordBytes(bytes, layout, kind, rs, every, i);
    RegionSlice(bytes, Offset(layout.header, i), Encode(rs[i]), 0, 8);
    TimestampFirst(rs[i]);
  }

  method ReadTimestampAt(
      file: ChunkFile, layout: ChunkLayout, kind: Kind, i: u64, ghost rs: seq<Record>, ghost every: nat)
    returns (r: Result<i64>)
    requires Views(file, layout, kind, rs, every) && i < |rs|
    modifies file
    ensures r.Ok? ==> r.value == rs[i].ts
    ensures old(file.Healthy()) ==> file.Healthy() && r.Ok?
  {
    TimestampBytes(file.bytes, layout, kind, rs, every, i);
    file.SeekTo(Offset(layout.header, i));
    var bytes :- file.ReadExact(8);
    return Ok(U64ToI64(ReadWord(bytes)));
  }

  // Binary search on disk, one timestamp read per probe

  method LowerBoundOnDisk(
      file: ChunkFile, layout: ChunkLayout, kind: Kind, t: i64, ghost rs: seq<Record>, ghost every: nat)
    returns (r: Result<u64>)
    requires Views(file, layout, kind, rs, every)
    modifies file
    ensures r.Ok? ==> r.value == LowerBound(rs, t)
    ensures old(file.Healthy()) ==> file.Healthy() && r.Ok?
  {
    OrderedIsNonDecreasing(kind, rs);
    var left: u64, right: u64 := 0, layout.header.count;
    while left < right
      invariant 0 <= left <= right <= |rs|
      invariant forall i :: 0 <= i < left ==> rs[i].ts < t
      invariant forall i :: right <= i < |rs| ==> rs[i].ts >= t
      invariant old(file.Healthy()) ==> file.Healthy()
    {
      var mid := left + (right - left) / 2;
      var ts :- ReadTimestampAt(file, layout, kind, mid, rs, every);
      if ts < t {
        left := mid + 1;
      } else {
        right := mid;
      }
    }
    LowerBoundIs(rs, t, left);
    return Ok(left);
  }

  method UpperBoundOnDisk(
      file: ChunkFile, layout: ChunkLayout, kind: Kind, t: i64, ghost rs: seq<Record>, ghost every: nat)
    returns (r: Result<u64>)
    requires Views(file, layout, kind, rs, every)
    modifies file
    ensures r.Ok? ==> r.value == UpperBound(rs, t)
    ensures old(file.Healthy()) ==> file.Healthy() && r.Ok?
  {
    OrderedIsNonDecreasing(kind, rs);
    var left: u64, right: u64 := 0, layout.header.count;
    while left < right
      invariant 0 <= left <= right <= |rs|
      invariant forall i :: 0 <= i < left ==> rs[i].ts <= t
      invariant forall i :: right <= i < |rs| ==> rs[i].ts > t
      invariant old(file.Healthy()) ==> file.Healthy()
    {
      var mid := left + (right - left) / 2;
      var ts :- ReadTimestampAt(file, layout, kind, mid, rs, every);
      if ts <= t {
        left := mid + 1;
      } else {
        right := mid;
      }
    }
    UpperBoundIs(rs, t, left);
    return Ok(left);
  }

  // Searches that read one sparse window

  /** Where the sparse search starts: the chosen anchor, or the beginning without an index. */
  function AnchorFor(layout: ChunkLayout, rs: seq<Record>, every: nat, t: int): nat {
    if layout.sparse == [] || every == 0 then 0 else ChosenAnchor(rs, every, t)
  }

  /** The first record the sparse lower bound can still see. */
  function SparseLowerBound(layout: ChunkLayout, rs: seq<Record>, every: nat, t: int): int {
    Max(LowerBound(rs, t), AnchorFor(layout, rs, every, t))
  }

  /** Inside a window starting at an anchor, the local search yields the later of true bound and anchor. */
  lemma {:induction false} WindowLowerBound(rs: seq<Record>, t: int, lo: nat, hi: nat, local: nat)
    requires NonDecreasing(rs) && IsWindow(rs, t, lo, hi)
    requires SplitsBelow(rs[lo..hi], t, local)
    ensures lo + local == Max(LowerBound(rs, t), lo)
    ensures Strict(rs) ==> lo + local == LowerBound(rs, t)
  {
    if lo == 0 || rs[lo - 1].ts < t {
      LowerBoundInWindow(rs, t, lo, hi, local);
    } else {
      LowerBoundSplits(rs, t);
      assert LowerBound(rs, t) <= lo - 1;
      assert rs[lo - 1].ts <= rs[lo].ts <= t;
      assert lo < hi ==> rs[lo..hi][0] == rs[lo];
      assert local == 0;
    }
  }

  lemma {:induction false} WindowUpperBound(rs: seq<Record>, t: int, lo: nat, hi: nat, local: nat)
    requires NonDecreasing(rs) && IsWindow(rs, t, lo, hi)
    requires SplitsAtOrBelow(rs[lo..hi], t, local)
    ensures lo + local == UpperBound(rs, t)
  {
    if lo > 0 {
      assert rs[lo - 1].ts <= rs[lo].ts;
    }
    UpperBoundInWindow(rs, t, lo, hi, local);
  }

  lemma {:induction false} StoredInOrder(
      bytes: seq<byte>, layout: ChunkLayout, kind: Kind, rs: seq<Record>, every: nat)
    requires Stores(bytes, layout, kind, rs, every)
    ensures NonDecreasing(rs) && layout.header.count == |rs|
    ensures layout.sparse != [] ==> Anchors(rs, layout.sparse, every)
  {
    OrderedIsNonDecreasing(kind, rs);
  }

  /** The window the sparse index names for `t`, and its records. */
  method ReadWindow(
      file: ChunkFile, layout: ChunkLayout, kind: Kind, t: i64, ghost rs: seq<Record>, ghost every: nat)
    returns (r: Result<seq<Record>>, lo: u64, ghost hi: nat)
    requires Views(file, layout, kind, rs, every) && layout.sparse != []
    modifies file
    ensures NonDecreasing(rs) && IsWindow(rs, t, lo, hi) && lo == ChosenAnchor(rs, every, t)
    ensures r.Ok? ==> lo <= hi <= |rs| && r.value == rs[lo..hi] && NonDecreasing(r.value)
    ensures old(file.Healthy()) ==> file.Healthy() && r.Ok?
  {
    StoredInOrder(file.bytes, layout, kind, rs, every);
    var window := LookupWindow(layout.header.count, layout.sparse, t, rs, every);
    lo, hi := window.value.0, window.value.1; // sampled anchors never fail the bounds check
    r := ReadRecordSpan(file, layout, kind, lo, window.value.1 - lo, rs, every);
  }

  /** Exact on strictly ordered records; in general never before the chosen anchor. */
  method LowerBoundViaSparse(
      file: ChunkFile, layout: ChunkLayout, kind: Kind, t: i64, ghost rs: seq<Record>, ghost every: nat)
    returns (r: Result<u64>)
    requires Views(file, layout, kind, rs, every)
    modifies file
    ensures r.Ok? ==> r.value == SparseLowerBound(layout, rs, every, t)
    ensures r.Ok? && Strict(rs) ==> r.value == LowerBound(rs, t)
    ensures old(file.Healthy()) ==> file.Healthy() && r.Ok?
  {
    if layout.sparse == [] {
      r := LowerBoundOnDisk(file, layout, kind, t, rs, every);
      return;
    }
    var records, lo, hi := ReadWindow(file, layout, kind, t, rs, every);
    if records.Err? {
      return Err(records.error);
    }
    var local := LowerBoundInRecords(records.value, t);
    WindowLowerBound(rs, t, lo, hi, local);
    return Ok(lo + local);
  }

  /** Exact for every record type. */
  method UpperBoundViaSparse(
      file: ChunkFile, layout: ChunkLayout, kind: Kind, t: i64, ghost rs: seq<Record>, ghost every: nat)
    returns (r: Result<u64>)
    requires Views(file, layout, kind, rs, every)
    modifies file
    ensures r.Ok? ==> r.value == UpperBound(rs, t)
    ensures old(file.Healthy()) ==> file.Healthy() && r.Ok?
  {
    if layout.sparse == [] {
      r := UpperBoundOnDisk(file, layout, kind, t, rs, every);
      return;
    }
    var records, lo, hi := ReadWindow(file, layout, kind, t, rs, every);
    if records.Err? {
      return Err(records.error);
    }
    var local := UpperBoundInRecords(records.value, t);
    WindowUpperBound(rs, t, lo, hi, local);
    return Ok(lo + local);
  }
}
