/** Writing a chunk and querying the file it leaves behind. */
module ChunkStore {
  import opened Wrappers
  import opened Bytes
  import opened Records
  import opened Bounds
  import opened ChunkFiles
  import opened Layout
  import opened ChunkWriter
  import opened ChunkReader
  import KlineReader
  import FixedReader

  /** A file a kline writer accepted, opened under any kernel behaviour, answers every range exactly. */
  method WriteThenQueryKlines(info: SeriesInfo, rs: seq<Record>, opts: WriteOptions, key: PartitionKey,
                              start: i64, end: i64, outcomes: seq<Outcome>, out: RecordVec)
    returns (r: Result<()>)
    requires OfKind(KlineKind, rs) && FileFits(KlineKind, rs, opts)
    modifies out
    ensures r.Ok? ==> out.rows == old(out.rows) + InRange(rs, start, end)
    ensures r.Err? ==> out.rows == old(out.rows)
    ensures Fault !in outcomes && KlineAccepts(rs, opts, key) ==> r.Ok?
  {
    var written :- WriteKlineChunk(info, rs, opts, key);
    var file := new ChunkFile(written.bytes, outcomes);
    ghost var layout := ParseLayout(written.bytes).value;
    var _ :- KlineReader.AppendRangeInChunk(file, start, end, out, layout, rs, Every(opts));
    return Ok(());
  }

  /**
   * A file the generic writer accepted, of any kind: a range query appends exactly the records in
   * range, unless a sampled position lies inside the run of records that share the range's start.
   */
  method WriteThenQueryFixed(kind: Kind, info: SeriesInfo, rs: seq<Record>, opts: WriteOptions, key: PartitionKey,
                             start: i64, end: i64, outcomes: seq<Outcome>, out: RecordVec)
    returns (r: Result<()>)
    requires OfKind(kind, rs) && FileFits(kind, rs, opts)
    modifies out
    ensures r.Ok? && start > end ==> out.rows == old(out.rows)
    ensures r.Ok? && start <= end ==>
              (out.rows == old(out.rows) + InRange(rs, start, end) <==>
                 !FixedReader.SampleInsideRun(rs, Every(opts), start))
    ensures r.Ok? && !kind.AllowsEqualTimestamps() ==> out.rows == old(out.rows) + InRange(rs, start, end)
    ensures r.Err? ==> out.rows == old(out.rows)
    ensures Fault !in outcomes && FixedAccepts(kind, info, rs, opts, key) ==> r.Ok?
  {
    var written :- WriteFixedChunk(kind, info, rs, opts, key);
    var file := new ChunkFile(written.bytes, outcomes);
    ghost var layout := ParseLayout(written.bytes).value;
    var _ :- FixedReader.AppendRangeInChunk(file, kind, start, end, out, layout, rs, Every(opts));
    FixedAnswer(kind, layout, rs, Every(opts), start, end);
    SameAppended(old(out.rows), FixedReader.Visible(layout, rs, Every(opts), start, end), InRange(rs, start, end));
    return Ok(());
  }

  /** What the generic reader makes visible of a sampled chunk, against the filter. */
  lemma {:induction false} FixedAnswer(
      kind: Kind, layout: ChunkLayout, rs: seq<Record>, every: nat, start: int, end: int)
    requires Ordered(kind, rs) && layout.sparse != [] && every > 0
    ensures var seen := FixedReader.Visible(layout, rs, every, start, end);
            && (start > end ==> seen == [])
            && (start <= end ==> (seen == InRange(rs, start, end) <==> !FixedReader.SampleInsideRun(rs, every, start)))
            && (!kind.AllowsEqualTimestamps() ==> seen == InRange(rs, start, end))
  {
    OrderedIsNonDecreasing(kind, rs);
    if start <= end {
      FixedReader.RangeReadExactly(layout, rs, every, start, end);
      FixedReader.HiddenMeansSampleInsideRun(layout, rs, every, start);
    }
    if !kind.AllowsEqualTimestamps() {
      FixedReader.StrictTypesAreExact(layout, rs, every, start, end);
    }
  }

  lemma SameAppended<T>(a: seq<T>, x: seq<T>, y: seq<T>)
    ensures a + x == a + y <==> x == y
  {
    if a + x == a + y {
      assert x == (a + x)[|a|..] == (a + y)[|a|..] == y;
    }
  }

  /** Planning a range and reading the plan agrees with appending the range. */
  method PlanThenRead(
      file: ChunkFile, layout: ChunkLayout, start: i64, end: i64, ghost rs: seq<Record>, ghost every: nat)
    returns (r: Result<array<Record>>)
    requires Views(file, layout, KlineKind, rs, every)
    modifies file
    ensures r.Ok? ==> r.value[..] == InRange(rs, start, end)
    ensures old(file.Healthy()) ==> r.Ok?
  {
    var plan, first := KlineReader.PlanRange(file, layout, start, end, rs, every);
    if plan.Err? {
      return Err(plan.error);
    }
    var out := new Record[plan.value.rows](i => DEFAULT_RECORD);
    var _ :- KlineReader.ReadPlanned(file, layout, plan.value, out, first, rs, every);
    return Ok(out);
  }

  /** A planned tail is the last `take` records, or all of them. */
  method PlanThenReadTail(file: ChunkFile, layout: ChunkLayout, take: nat, ghost rs: seq<Record>, ghost every: nat)
    returns (r: Result<array<Record>>)
    requires Views(file, layout, KlineKind, rs, every)
    ensures r.Ok? ==> r.value[..] == rs[|rs| - Min(take, |rs|)..]
    ensures file.Healthy() ==> r.Ok?
  {
    var plan, first := KlineReader.PlanTail(file, layout, take, rs, every);
    var out := new Record[plan.rows](i => DEFAULT_RECORD);
    var _ :- KlineReader.ReadPlanned(file, layout, plan, out, first, rs, every);
    return Ok(out);
  }
}
