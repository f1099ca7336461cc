/** The generic reader, also used for record types that allow equal timestamps. */
module FixedReader {
  import opened Wrappers
  import opened Bytes
  import opened Records
  import opened Bounds
  import opened SparseIndex
  import opened ChunkFiles
  import opened Layout
  import opened ChunkReader

  /** What the generic range read returns: everything up to the upper bound, from the sparse lower bound on. */
  function Visible(layout: ChunkLayout, rs: seq<Record>, every: nat, start: int, end: int): seq<Record> {
    var lo, hi := SparseLowerBound(layout, rs, every, start), UpperBound(rs, end);
    if start <= end && 0 <= lo <= hi then rs[lo..hi] else []
  }

  /** Appends the visible records; for strict types these are exactly the records in range. */
  method AppendRangeInFile(
      file: ChunkFile, layout: ChunkLayout, kind: Kind, start: i64, end: i64, out: RecordVec,
      ghost rs: seq<Record>, ghost every: nat)
    returns (r: Result<()>)
    requires Views(file, layout, kind, rs, every)
    modifies file, out
    ensures r.Ok? ==> out.rows == old(out.rows) + Visible(layout, rs, every, start, end)
    ensures r.Ok? && !kind.AllowsEqualTimestamps() ==> out.rows == old(out.rows) + InRange(rs, start, end)
    ensures r.Err? ==> out.rows == old(out.rows)
    ensures old(file.Healthy()) ==> file.Healthy() && r.Ok?
  {
    OrderedIsNonDecreasing(kind, rs);
    if !kind.AllowsEqualTimestamps() {
      StrictTypesAreExact(layout, rs, every, start, end);
    }
    var h := layout.header;
    if start > end || end < h.startTs || start > h.endTs || h.count == 0 {
      NothingVisible(layout, kind, rs, every, start, end);
      return Ok(());
    }
    var lo :- LowerBoundViaSparse(file, layout, kind, start, rs, every);
    if lo >= h.count {
      assert Visible(layout, rs, every, start, end) == [];
      return Ok(());
    }
    var hi :- UpperBoundViaSparse(file, layout, kind, end, rs, every);
    if hi <= lo {
      assert Visible(layout, rs, every, start, end) == [];
      return Ok(());
    }
    var rows :- ReadRecordSpan(file, layout, kind, lo, hi - lo, rs, every);
    out.Append(rows);
    return Ok(());
  }

  /** From the bare file: load the layout, check the schema, answer the range. */
  method AppendRangeInChunk(
      file: ChunkFile, kind: Kind, start: i64, end: i64, out: RecordVec,
      ghost layout: ChunkLayout, ghost rs: seq<Record>, ghost every: nat)
    returns (r: Result<()>)
    requires file.Valid()
    requires ParseLayout(file.bytes) == Ok(layout) && Stores(file.bytes, layout, kind, rs, every)
    modifies file, out
    ensures r.Ok? ==> out.rows == old(out.rows) + Visible(layout, rs, every, start, end)
    ensures r.Err? ==> out.rows == old(out.rows)
    ensures old(file.Healthy()) ==> r.Ok?
  {
    var loaded :- Load(file);
    if !HeaderFits(loaded.header, kind) {
      return Err(InvalidData);
    }
    r := AppendRangeInFile(file, loaded, kind, start, end, out, rs, every);
  }

  lemma {:induction false} NothingVisible(
      layout: ChunkLayout, kind: Kind, rs: seq<Record>, every: nat, start: int, end: int)
    requires NonDecreasing(rs)
    requires start > end || rs == [] || end < rs[0].ts || start > rs[|rs| - 1].ts
    ensures Visible(layout, rs, every, start, end) == []
  {
    if rs != [] && start <= end {
      if end < rs[0].ts {
        UpperBoundIs(rs, end, 0);
      } else {
        LowerBoundIs(rs, start, |rs|);
      }
    }
  }

  method ReadTail(file: ChunkFile, layout: ChunkLayout, kind: Kind, n: nat, ghost rs: seq<Record>, ghost every: nat)
    returns (r: Result<seq<Record>>)
    requires Views(file, layout, kind, rs, every)
    modifies file
    ensures r.Ok? ==> r.value == rs[|rs| - Min(n, |rs|)..]
    ensures old(file.Healthy()) ==> file.Healthy() && r.Ok?
  {
    if n == 0 {
      assert rs[|rs|..] == [];
      return Ok([]);
    }
    var count := layout.header.count;
    var start := if count > n then count - n else 0;
    r := ReadRecordSpan(file, layout, kind, start, count - start, rs, every);
  }

  // When the generic range read is the filter

  /** The chosen anchor lies behind a record that still belongs to the answer. */
  predicate AnchorHidesEqual(layout: ChunkLayout, rs: seq<Record>, every: nat, start: int) {
    var a := AnchorFor(layout, rs, every, start);
    0 < a <= |rs| && rs[a - 1].ts == start
  }

  lemma {:induction false} AnchorAtOrBefore(layout: ChunkLayout, rs: seq<Record>, every: nat, start: int)
    requires NonDecreasing(rs)
    ensures AnchorFor(layout, rs, every, start) > 0 ==>
              && AnchorFor(layout, rs, every, start) < UpperBound(rs, start)
              && rs[AnchorFor(layout, rs, every, start)].ts <= start
  {
    UpperBoundSplits(rs, start);
  }

  /** The sparse lower bound is exact unless a record equal to the target sits before the chosen anchor. */
  lemma {:induction false} SparseLowerBoundExactly(layout: ChunkLayout, rs: seq<Record>, every: nat, start: int)
    requires NonDecreasing(rs)
    ensures SparseLowerBound(layout, rs, every, start) == LowerBound(rs, start) <==>
              !AnchorHidesEqual(layout, rs, every, start)
  {
    var a := AnchorFor(layout, rs, every, start);
    AnchorAtOrBefore(layout, rs, every, start);
    LowerBoundSplits(rs, start);
    if a > 0 {
      assert rs[a - 1].ts <= rs[a].ts;
    }
  }

  /** The generic range read equals the filter exactly when no equal record is hidden. */
  lemma {:induction false} RangeReadExactly(layout: ChunkLayout, rs: seq<Record>, every: nat, start: int, end: int)
    requires NonDecreasing(rs) && start <= end
    ensures Visible(layout, rs, every, start, end) == InRange(rs, start, end) <==>
              !AnchorHidesEqual(layout, rs, every, start)
  {
    SparseLowerBoundExactly(layout, rs, every, start);
    InRangeIsSlice(rs, start, end);
    BoundsInOrder(rs, start, end);
    AnchorAtOrBefore(layout, rs, every, start);
    LowerBoundSplits(rs, start);
    UpperBoundSplits(rs, start);
    UpperBoundSplits(rs, end);
    var a, lo, hi := AnchorFor(layout, rs, every, start), LowerBound(rs, start), UpperBound(rs, end);
    if AnchorHidesEqual(layout, rs, every, start) {
      assert lo < a <= hi;
      assert |rs[a..hi]| < |rs[lo..hi]|;
    }
  }

  /** Strictly ordered record types never lose a record. */
  lemma {:induction false} StrictTypesAreExact(layout: ChunkLayout, rs: seq<Record>, every: nat, start: int, end: int)
    requires Strict(rs) && NonDecreasing(rs)
    ensures Visible(layout, rs, every, start, end) == InRange(rs, start, end)
  {
    if start <= end {
      AnchorAtOrBefore(layout, rs, every, start);
      var a := AnchorFor(layout, rs, every, start);
      assert a > 0 ==> rs[a - 1].ts < rs[a].ts;
      RangeReadExactly(layout, rs, every, start, end);
    } else {
      InRangeNone(rs, start, end);
    }
  }

  /** Some sampled position lies strictly inside the run of records with this timestamp. */
  ghost predicate SampleInsideRun(rs: seq<Record>, every: nat, ts: int)
    requires every > 0
  {
    exists m: nat :: m % every == 0 && LowerBound(rs, ts) < m < UpperBound(rs, ts)
  }

  /** The condition on the records and the sampling rate alone. */
  lemma {:induction false} HiddenMeansSampleInsideRun(layout: ChunkLayout, rs: seq<Record>, every: nat, start: int)
    requires NonDecreasing(rs) && layout.sparse != [] && every > 0
    ensures AnchorHidesEqual(layout, rs, every, start) <==> SampleInsideRun(rs, every, start)
  {
    var lo, ub := LowerBound(rs, start), UpperBound(rs, start);
    var a := AnchorFor(layout, rs, every, start);
    SparseLowerBoundExactly(layout, rs, every, start);
    if ub > 0 {
      LargestMultiple(ub - 1, every);
    }
    forall m: nat | m % every == 0 && lo < m < ub
      ensures a > lo
    {
      MultiplesBelow(m, ub - 1, every);
    }
    if AnchorHidesEqual(layout, rs, every, start) {
      assert a % every == 0 && lo < a < ub;
    }
  }

  lemma LargestMultiple(x: nat, every: nat)
    requires every > 0
    ensures (x - x % every) % every == 0 && x - x % every <= x
  {
    var q := x / every;
    assert x - x % every == q * every;
    ModOfProduct(q, every, 0);
  }

  lemma MultiplesBelow(m: nat, x: nat, every: nat)
    requires every > 0 && m % every == 0 && m <= x
    ensures m <= x - x % every
  {
    var q, p := m / every, x / every;
    assert m == q * every && x == p * every + x % every;
    assert (p + 1) * every == p * every + every;
    if q > p {
      MulOrder(p + 1, q, every);
    } else {
      MulOrder(q, p, every);
    }
  }

  /** Two trades in the same millisecond, both sampled: the first one is lost. */
  lemma EqualTimestampsCanBeLost(a: Record, b: Record, layout: ChunkLayout)
    requires a.Trade? && b.Trade? && a.ts == b.ts
    requires layout.sparse == SampleFrom([a, b], 1, 0)
    ensures Ordered(TradeKind, [a, b]) && Anchors([a, b], layout.sparse, 1)
    ensures InRange([a, b], a.ts, a.ts) == [a, b]
    ensures Visible(layout, [a, b], 1, a.ts, a.ts) == [b]
  {
    var rs := [a, b];
    SampleAnchors(rs, 1, 0);
    InRangeAll(rs, a.ts, a.ts);
    UpperBoundIs(rs, a.ts, 2);
    LowerBoundIs(rs, a.ts, 0);
    assert layout.sparse != [];
    assert rs[1..2] == [b];
  }
}
