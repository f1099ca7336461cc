/** Kline range, point and planned reads. All routes answer the same question: filter by timestamp. */
module KlineReader {
  import opened Wrappers
  import opened Bytes
  import opened Records
  import opened Header
  import opened Bounds
  import opened SparseIndex
  import opened ChunkFiles
  import opened Layout
  import opened ChunkReader

  const SHORT_RANGE_MAX_RECORDS: nat := 2048

  datatype ReadPath = FullScan | ShortRange

  /** Appends a span in place; on any failure the vector is what it was. */
  method AppendRecordSpan(
      file: ChunkFile, layout: ChunkLayout, start: u64, count: u64, out: RecordVec, ghost rs: seq<Record>,
      ghost every: nat)
    returns (r: Result<()>)
    requires Views(file, layout, KlineKind, rs, every)
    modifies file, out
    ensures r.Ok? ==> (count == 0 || start + count <= |rs|) && out.rows == old(out.rows) + Span(rs, start, count)
    ensures r.Err? ==> out.rows == old(out.rows)
    ensures old(file.Healthy()) ==> file.Healthy() && (r.Ok? <==> count == 0 || start + count <= |rs|)
  {
    if count == 0 {
      return Ok(());
    }
    if start + count >= TWO_64 || start + count > layout.header.count {
      return Err(InvalidData);
    }
    SpanDecodes(file.bytes, layout, KlineKind, rs, every, start, count);
    file.SeekTo(Offset(layout.header, start));
    var initialLen := |out.rows|;
    out.Resize(initialLen + count);
    var bytes := file.ReadExact(count * KlineKind.Size());
    if bytes.Err? {
      out.Truncate(initialLen);
      return Err(bytes.error);
    }
    var decoded := DecodeAll(KlineKind, bytes.value);
    out.Overwrite(initialLen, decoded.value);
    return Ok(());
  }

  function SaturatingSub(a: i64, b: i64): i64 {
    if a - b >= TWO_63 then TWO_63 - 1 else if a - b < -TWO_63 then -TWO_63 else a - b
  }

  /** A guess from the bar width; only the choice of route depends on it. */
  predicate IsShortRange(h: ChunkHeader, start: i64, end: i64)
    requires start <= end
  {
    && h.timeframeMs > 0
    && var estimated := SaturatingSub(end, start) / h.timeframeMs + 1;
       estimated <= SHORT_RANGE_MAX_RECORDS
  }

  /** The rows a merged window holds, cut to the range, are the answer. */
  lemma {:induction false} MergedWindows(
      rs: seq<Record>, start: int, end: int, first: (nat, nat), last: (nat, nat), lo: nat, hi: nat)
    requires Strict(rs) && NonDecreasing(rs) && start <= end
    requires IsWindow(rs, start, first.0, first.1) && IsWindow(rs, end, last.0, last.1)
    requires first.0 <= last.1
    requires SplitsBelow(rs[first.0..last.1], start, lo) && SplitsAtOrBelow(rs[first.0..last.1], end, hi)
    ensures lo <= hi
    ensures rs[first.0..last.1][lo..hi] == InRange(rs, start, end)
  {
    MergedBounds(rs, start, end, first, last, lo, hi);
    InRangeIsSlice(rs, start, end);
    BoundsInOrder(rs, start, end);
    SliceOfSlice(rs, first.0, last.1, lo, hi);
  }

  lemma {:induction false} MergedBounds(
      rs: seq<Record>, start: int, end: int, first: (nat, nat), last: (nat, nat), lo: nat, hi: nat)
    requires Strict(rs) && NonDecreasing(rs) && start <= end
    requires IsWindow(rs, start, first.0, first.1) && IsWindow(rs, end, last.0, last.1)
    requires first.0 <= last.1
    requires SplitsBelow(rs[first.0..last.1], start, lo) && SplitsAtOrBelow(rs[first.0..last.1], end, hi)
    ensures first.0 + lo == LowerBound(rs, start)
    ensures first.0 + hi == UpperBound(rs, end)
  {
    assert first.0 > 0 ==> rs[first.0 - 1].ts < rs[first.0].ts <= start <= end;
    LowerBoundInWindow(rs, start, first.0, last.1, lo);
    UpperBoundInWindow(rs, end, first.0, last.1, hi);
  }

  lemma {:induction false} WindowsInOrder(rs: seq<Record>, start: int, end: int, first: (nat, nat), last: (nat, nat))
    requires NonDecreasing(rs) && start <= end
    requires IsWindow(rs, start, first.0, first.1) && IsWindow(rs, end, last.0, last.1)
    ensures first.0 <= last.1
  {
  }

  /** Shifts rows `lo..hi` of the tail down to where the tail starts and drops the rest, in place. */
  method CompactTail(out: RecordVec, keep: nat, lo: nat, hi: nat)
    requires lo <= hi && keep + hi <= |out.rows|
    modifies out
    ensures out.rows == old(out.rows)[..keep] + old(out.rows)[keep + lo..keep + hi]
  {
    out.CopyWithin(keep + lo, keep + hi, keep);
    out.Truncate(keep + hi - lo);
  }

  /** Cuts the freshly read tail down to the range. */
  method CutTailToRange(
      out: RecordVec, keep: nat, start: i64, end: i64, ghost rs: seq<Record>, ghost first: (nat, nat),
      ghost last: (nat, nat))
    requires Strict(rs) && NonDecreasing(rs) && start <= end
    requires IsWindow(rs, start, first.0, first.1) && IsWindow(rs, end, last.0, last.1)
    requires first.0 <= last.1
    requires keep <= |out.rows| && out.rows[keep..] == rs[first.0..last.1]
    modifies out
    ensures out.rows == old(out.rows)[..keep] + InRange(rs, start, end)
  {
    var rows := out.rows[keep..];
    var lo := LowerBoundInRecords(rows, start);
    var hi := UpperBoundInRecords(rows, end);
    MergedWindows(rs, start, end, first, last, lo, hi);
    SliceOfSlice(out.rows, keep, |out.rows|, lo, hi);
    CompactTail(out, keep, lo, hi);
  }

  /** Reads adjacent sparse windows straight into the output, then compacts it in place. */
  method AppendMergedWindows(
      file: ChunkFile, layout: ChunkLayout, start: i64, end: i64, first: (u64, u64), last: (u64, u64),
      out: RecordVec, ghost rs: seq<Record>, ghost every: nat)
    returns (r: Result<()>)
    requires Views(file, layout, KlineKind, rs, every) && Strict(rs) && NonDecreasing(rs) && start <= end
    requires IsWindow(rs, start, first.0, first.1) && IsWindow(rs, end, last.0, last.1)
    modifies file, out
    ensures r.Ok? ==> out.rows == old(out.rows) + InRange(rs, start, end)
    ensures r.Err? ==> out.rows == old(out.rows)
    ensures old(file.Healthy()) ==> file.Healthy() && r.Ok?
  {
    WindowsInOrder(rs, start, end, first, last);
    var initialLen := |out.rows|;
    var count := last.1 - first.0;
    var _ :- AppendRecordSpan(file, layout, first.0, count, out, rs, every);
    assert out.rows[initialLen..] == rs[first.0..last.1] && out.rows[..initialLen] == old(out.rows);
    CutTailToRange(out, initialLen, start, end, rs, first, last);
    return Ok(());
  }

  /** Appends the records between two bounds found separately. */
  method AppendBetween(
      file: ChunkFile, layout: ChunkLayout, start: i64, end: i64, lo: u64, hi: u64, out: RecordVec,
      ghost rs: seq<Record>, ghost every: nat)
    returns (r: Result<()>)
    requires Views(file, layout, KlineKind, rs, every) && NonDecreasing(rs)
    requires lo == LowerBound(rs, start) && hi == UpperBound(rs, end)
    modifies file, out
    ensures r.Ok? ==> out.rows == old(out.rows) + InRange(rs, start, end)
    ensures r.Err? ==> out.rows == old(out.rows)
    ensures old(file.Healthy()) ==> file.Healthy() && r.Ok?
  {
    InRangeIsSlice(rs, start, end);
    if hi <= lo {
      assert InRange(rs, start, end) == [];
      return Ok(());
    }
    r := AppendRecordSpan(file, layout, lo, hi - lo, out, rs, every);
  }

  /**
   * Whichever route runs, success appends exactly the records with `start <= ts <= end`
   * behind what the caller already had; failure needs a hard fault and changes nothing.
   */
  method AppendRangeInFile(
      file: ChunkFile, layout: ChunkLayout, start: i64, end: i64, out: RecordVec, ghost rs: seq<Record>,
      ghost every: nat)
    returns (r: Result<ReadPath>)
    requires Views(file, layout, KlineKind, rs, every)
    modifies file, out
    ensures r.Ok? ==> out.rows == old(out.rows) + InRange(rs, start, end)
    ensures r.Err? ==> out.rows == old(out.rows)
    ensures old(file.Healthy()) ==> file.Healthy() && r.Ok?
  {
    var h := layout.header;
    HeaderDecides(file.bytes, layout, rs, every, start, end);
    if start > end || end < h.startTs || start > h.endTs || h.count == 0 {
      return Ok(ShortRange);
    }
    if start <= h.startTs && end >= h.endTs {
      assert rs[0..|rs|] == rs;
      var _ :- AppendRecordSpan(file, layout, 0, h.count, out, rs, every);
      return Ok(FullScan);
    }
    if IsShortRange(h, start, end) {
      r := AppendShortRange(file, layout, start, end, out, rs, every);
      return;
    }
    r := AppendLongRange(file, layout, start, end, out, rs, every);
  }

  /** The cases the header settles: nothing in range, or everything. */
  lemma {:induction false} HeaderDecides(
      bytes: seq<byte>, layout: ChunkLayout, rs: seq<Record>, every: nat, start: int, end: int)
    requires Stores(bytes, layout, KlineKind, rs, every)
    ensures Strict(rs) && NonDecreasing(rs) && layout.header.count == |rs|
    ensures start > end || end < layout.header.startTs || start > layout.header.endTs || rs == [] ==>
              InRange(rs, start, end) == []
    ensures start <= layout.header.startTs && end >= layout.header.endTs ==> InRange(rs, start, end) == rs
  {
    OrderedIsNonDecreasing(KlineKind, rs);
    if start > end || end < layout.header.startTs || start > layout.header.endTs || rs == [] {
      InRangeNone(rs, start, end);
    }
    if start <= layout.header.startTs && end >= layout.header.endTs {
      InRangeAll(rs, start, end);
    }
  }

  /** Both bounds by probing records on disk. */
  method AppendLongRange(
      file: ChunkFile, layout: ChunkLayout, start: i64, end: i64, out: RecordVec, ghost rs: seq<Record>,
      ghost every: nat)
    returns (r: Result<ReadPath>)
    requires Views(file, layout, KlineKind, rs, every) && NonDecreasing(rs)
    modifies file, out
    ensures r.Ok? ==> out.rows == old(out.rows) + InRange(rs, start, end)
    ensures r.Err? ==> out.rows == old(out.rows)
    ensures old(file.Healthy()) ==> file.Healthy() && r.Ok?
  {
    var lo :- LowerBoundOnDisk(file, layout, KlineKind, start, rs, every);
    if lo >= layout.header.count {
      InRangeIsSlice(rs, start, end);
      assert InRange(rs, start, end) == [];
      return Ok(FullScan);
    }
    var hi :- UpperBoundOnDisk(file, layout, KlineKind, end, rs, every);
    var _ :- AppendBetween(file, layout, start, end, lo, hi, out, rs, every);
    return Ok(FullScan);
  }

  method AppendShortRange(
      file: ChunkFile, layout: ChunkLayout, start: i64, end: i64, out: RecordVec, ghost rs: seq<Record>,
      ghost every: nat)
    returns (r: Result<ReadPath>)
    requires Views(file, layout, KlineKind, rs, every) && Strict(rs) && NonDecreasing(rs) && start <= end
    modifies file, out
    ensures r.Ok? ==> out.rows == old(out.rows) + InRange(rs, start, end)
    ensures r.Err? ==> out.rows == old(out.rows)
    ensures old(file.Healthy()) ==> file.Healthy() && r.Ok?
  {
    if layout.sparse != [] {
      var first := LookupWindow(layout.header.count, layout.sparse, start, rs, every);
      var last := LookupWindow(layout.header.count, layout.sparse, end, rs, every);
      if last.value.0 <= first.value.1 {
        var _ :- AppendMergedWindows(file, layout, start, end, first.value, last.value, out, rs, every);
        return Ok(ShortRange);
      }
    }
    var lo :- LowerBoundViaSparse(file, layout, KlineKind, start, rs, every);
    if lo >= layout.header.count {
      InRangeIsSlice(rs, start, end);
      assert InRange(rs, start, end) == [];
      return Ok(ShortRange);
    }
    var hi :- UpperBoundViaSparse(file, layout, KlineKind, end, rs, every);
    var _ :- AppendBetween(file, layout, start, end, lo, hi, out, rs, every);
    return Ok(ShortRange);
  }

  /** From the bare file: load the layout, check the schema, answer the range. */
  method AppendRangeInChunk(
      file: ChunkFile, start: i64, end: i64, out: RecordVec, ghost layout: ChunkLayout, ghost rs: seq<Record>,
      ghost every: nat)
    returns (r: Result<ReadPath>)
    requires file.Valid()
    requires ParseLayout(file.bytes) == Ok(layout) && Stores(file.bytes, layout, KlineKind, rs, every)
    modifies file, out
    ensures r.Ok? ==> out.rows == old(out.rows) + InRange(rs, start, end)
    ensures r.Err? ==> out.rows == old(out.rows)
    ensures old(file.Healthy()) ==> r.Ok?
  {
    var loaded :- Load(file);
    if !HeaderFits(loaded.header, KlineKind) {
      return Err(InvalidData);
    }
    r := AppendRangeInFile(file, loaded, start, end, out, rs, every);
  }

  // Point lookups

  lemma {:induction false} PointAt(rs: seq<Record>, ts: int, k: nat)
    requires Strict(rs) && NonDecreasing(rs) && k == LowerBound(rs, ts)
    ensures InRange(rs, ts, ts) == if k < |rs| && rs[k].ts == ts then [rs[k]] else []
  {
    LowerBoundSplits(rs, ts);
    UpperBoundIs(rs, ts, if k < |rs| && rs[k].ts == ts then k + 1 else k);
    InRangeIsSlice(rs, ts, ts);
  }

  function ToOption(rows: seq<Record>): Option<Record> {
    if rows == [] then None else Some(rows[0])
  }

  /** Finds the unique record with this timestamp, or none. */
  method FindByTsInFile(file: ChunkFile, layout: ChunkLayout, ts: i64, ghost rs: seq<Record>, ghost every: nat)
    returns (r: Result<Option<Record>>)
    requires Views(file, layout, KlineKind, rs, every)
    modifies file
    ensures r.Ok? ==> r.value == ToOption(InRange(rs, ts, ts)) && |InRange(rs, ts, ts)| <= 1
    ensures old(file.Healthy()) ==> r.Ok?
  {
    OrderedIsNonDecreasing(KlineKind, rs);
    if ts < layout.header.startTs || ts > layout.header.endTs {
      InRangeNone(rs, ts, ts);
      return Ok(None);
    }
    if layout.sparse == [] {
      r := FindByTsDense(file, layout, ts, rs, every);
      return;
    }
    var window := LookupWindow(layout.header.count, layout.sparse, ts, rs, every);
    var (lo, hi) := window.value;
    var records :- ReadRecordSpan(file, layout, KlineKind, lo, hi - lo, rs, every);
    assert records == rs[lo..hi];
    var found := FindInWindow(records, ts, lo, hi, rs);
    return Ok(found);
  }

  method FindInWindow(
      records: seq<Record>, ts: i64, ghost lo: nat, ghost hi: nat, ghost rs: seq<Record>)
    returns (r: Option<Record>)
    requires Strict(rs) && NonDecreasing(rs) && IsWindow(rs, ts, lo, hi)
    requires records == rs[lo..hi]
    ensures r == ToOption(InRange(rs, ts, ts)) && |InRange(rs, ts, ts)| <= 1
  {
    var local := LowerBoundInRecords(records, ts);
    PointInWindow(rs, ts, lo, hi, local);
    if local < |records| && records[local].ts == ts {
      return Some(records[local]);
    }
    return None;
  }

  lemma {:induction false} PointInWindow(rs: seq<Record>, ts: int, lo: nat, hi: nat, local: nat)
    requires Strict(rs) && NonDecreasing(rs) && IsWindow(rs, ts, lo, hi)
    requires SplitsBelow(rs[lo..hi], ts, local)
    ensures InRange(rs, ts, ts) == if local < hi - lo && rs[lo..hi][local].ts == ts then [rs[lo..hi][local]] else []
  {
    WindowLowerBound(rs, ts, lo, hi, local);
    PointAt(rs, ts, lo + local);
    if local == hi - lo && hi < |rs| {
      assert rs[hi].ts > ts;
    }
  }

  method FindByTsDense(file: ChunkFile, layout: ChunkLayout, ts: i64, ghost rs: seq<Record>, ghost every: nat)
    returns (r: Result<Option<Record>>)
    requires Views(file, layout, KlineKind, rs, every) && Strict(rs) && NonDecreasing(rs)
    modifies file
    ensures r.Ok? ==> r.value == ToOption(InRange(rs, ts, ts)) && |InRange(rs, ts, ts)| <= 1
    ensures old(file.Healthy()) ==> r.Ok?
  {
    PointAt(rs, ts, LowerBound(rs, ts));
    var idx :- LowerBoundOnDisk(file, layout, KlineKind, ts, rs, every);
    if idx >= layout.header.count {
      return Ok(None);
    }
    var record :- ReadRecordSpan(file, layout, KlineKind, idx, 1, rs, every);
    return Ok(if record[0].ts == ts then Some(record[0]) else None);
  }

  // Plan first, read later

  datatype ReadSpan = ReadSpan(offset: u64, rows: nat)

  /** What a plan stands for: `rows` records from index `first` on. */
  ghost predicate Plans(span: ReadSpan, layout: ChunkLayout, rs: seq<Record>, first: nat) {
    && span.rows + first <= |rs|
    && span.offset == Offset(layout.header, first)
  }

  /** Both ends of a range; an end outside the chunk needs no search. */
  method RangeBounds(
      file: ChunkFile, layout: ChunkLayout, start: i64, end: i64, ghost rs: seq<Record>, ghost every: nat)
    returns (r: Result<(u64, u64)>)
    requires Views(file, layout, KlineKind, rs, every) && Strict(rs) && NonDecreasing(rs)
    modifies file
    ensures r.Ok? ==> r.value == (LowerBound(rs, start), UpperBound(rs, end))
    ensures old(file.Healthy()) ==> file.Healthy() && r.Ok?
  {
    var lo: u64, hi: u64 := 0, layout.header.count;
    if start > layout.header.startTs {
      lo :- LowerBoundViaSparse(file, layout, KlineKind, start, rs, every);
    } else {
      LowerBoundIs(rs, start, 0);
    }
    if end < layout.header.endTs {
      hi :- UpperBoundViaSparse(file, layout, KlineKind, end, rs, every);
    } else {
      UpperBoundIs(rs, end, |rs|);
    }
    return Ok((lo, hi));
  }

  method PlanRange(file: ChunkFile, layout: ChunkLayout, start: i64, end: i64, ghost rs: seq<Record>, ghost every: nat)
    returns (r: Result<ReadSpan>, ghost first: nat)
    requires Views(file, layout, KlineKind, rs, every)
    modifies file
    ensures r.Ok? ==> Plans(r.value, layout, rs, first) && rs[first..first + r.value.rows] == InRange(rs, start, end)
    ensures old(file.Healthy()) ==> file.Healthy() && r.Ok?
  {
    first := 0;
    OrderedIsNonDecreasing(KlineKind, rs);
    var bounds := RangeBounds(file, layout, start, end, rs, every);
    if bounds.Err? {
      return Err(bounds.error), first;
    }
    var (lo, hi) := bounds.value;
    InRangeIsSlice(rs, start, end);
    SpanInRegion(file.bytes, layout, KlineKind, rs, every, lo, 0);
    var offset := lo * layout.header.recordSize + layout.header.headerSize;
    return Ok(ReadSpan(offset, if hi >= lo then hi - lo else 0)), lo;
  }

  method PlanTail(file: ChunkFile, layout: ChunkLayout, take: nat, ghost rs: seq<Record>, ghost every: nat)
    returns (r: ReadSpan, ghost first: nat)
    requires Views(file, layout, KlineKind, rs, every)
    ensures Plans(r, layout, rs, first)
    ensures r.rows == Min(take, |rs|) && first + r.rows == |rs|
  {
    var rows := Min(take, layout.header.count);
    first := layout.header.count - rows;
    SpanInRegion(file.bytes, layout, KlineKind, rs, every, first, 0);
    var offset := (layout.header.count - rows) * layout.header.recordSize + layout.header.headerSize;
    return ReadSpan(offset, rows), first;
  }

  /** Fills a destination of exactly the planned size from a private copy of the cursor. */
  method ReadPlanned(
      file: ChunkFile, layout: ChunkLayout, span: ReadSpan, out: array<Record>, ghost first: nat,
      ghost rs: seq<Record>, ghost every: nat)
    returns (r: Result<()>)
    requires Views(file, layout, KlineKind, rs, every) && Plans(span, layout, rs, first)
    modifies out
    ensures r.Ok? ==> out.Length == span.rows && out[..] == rs[first..first + span.rows]
    ensures out.Length != span.rows ==> r == Err(InvalidData)
    ensures file.Healthy() && out.Length == span.rows ==> r.Ok?
  {
    if out.Length != span.rows {
      return Err(InvalidData);
    }
    SpanDecodes(file.bytes, layout, KlineKind, rs, every, first, span.rows);
    var reader := new ChunkFile(file.bytes, file.outcomes);
    reader.SeekTo(span.offset);
    var bytes :- reader.ReadExact(out.Length * KlineKind.Size());
    Fill(out, DecodeAll(KlineKind, bytes).value);
    return Ok(());
  }

  method Fill(out: array<Record>, decoded: seq<Record>)
    requires out.Length == |decoded|
    modifies out
    ensures out[..] == decoded
  {
    for i := 0 to out.Length
      invariant out[..i] == decoded[..i]
    {
      out[i] := decoded[i];
    }
  }
}
