/** Sampled timestamp anchors: building, storing and searching them. */
module SparseIndex {
  import opened Wrappers
  import opened Bytes
  import opened Records
  import opened Bounds

  datatype Entry = Entry(ts: i64, recordIdx: u64)

  const ENTRY_SIZE: nat := 16

  /** Every `every`-th record from position `from` on. */
  function SampleFrom(rs: seq<Record>, every: nat, from: nat): (es: seq<Entry>)
    requires |rs| < TWO_64 && every > 0
    decreases |rs| - from
  {
    if from >= |rs| then [] else [Entry(rs[from].ts, from)] + SampleFrom(rs, every, from + every)
  }

  /** Anchors point at their records, start at `from`, and step by `every` until the records run out. */
  ghost predicate AnchorsFrom(rs: seq<Record>, es: seq<Entry>, every: nat, from: nat) {
    && (es == [] <==> from >= |rs|)
    && (es != [] ==> es[0].recordIdx == from && es[|es| - 1].recordIdx + every >= |rs|)
    && (forall k :: 0 <= k < |es| ==> es[k].recordIdx < |rs| && es[k].ts == rs[es[k].recordIdx].ts)
    && (forall k :: 0 <= k < |es| - 1 ==> es[k + 1].recordIdx == es[k].recordIdx + every)
  }

  lemma {:induction false} SampleAnchors(rs: seq<Record>, every: nat, from: nat)
    requires |rs| < TWO_64 && every > 0
    ensures AnchorsFrom(rs, SampleFrom(rs, every, from), every, from)
    decreases |rs| - from
  {
    if from < |rs| {
      SampleAnchors(rs, every, from + every);
      var es, rest := SampleFrom(rs, every, from), SampleFrom(rs, every, from + every);
      forall k | 0 <= k < |es| - 1
        ensures es[k + 1].recordIdx == es[k].recordIdx + every
      {
        assert es[k + 1] == rest[k];
        if k > 0 {
          assert es[k] == rest[k - 1];
          assert rest[k - 1 + 1].recordIdx == rest[k - 1].recordIdx + every;
        }
      }
    }
  }

  ghost predicate Anchors(rs: seq<Record>, es: seq<Entry>, every: nat) {
    every > 0 && AnchorsFrom(rs, es, every, 0)
  }

  lemma {:induction false} AnchorsIncrease(rs: seq<Record>, es: seq<Entry>, every: nat, i: nat, j: nat)
    requires Anchors(rs, es, every)
    requires i <= j < |es|
    ensures es[i].recordIdx <= es[j].recordIdx
    ensures es[j].recordIdx % every == 0
    decreases j
  {
    if i < j {
      AnchorsIncrease(rs, es, every, i, j - 1);
      assert es[j - 1 + 1].recordIdx == es[j - 1].recordIdx + every;
      AddMod(es[j - 1].recordIdx, every);
    } else if j > 0 {
      AnchorsIncrease(rs, es, every, j - 1, j - 1);
      assert es[j - 1 + 1].recordIdx == es[j - 1].recordIdx + every;
      AddMod(es[j - 1].recordIdx, every);
    }
  }

  lemma {:induction false} AddMod(a: nat, d: nat)
    requires d > 0 && a % d == 0
    ensures (a + d) % d == 0
  {
    var q := a / d;
    assert a == q * d;
    assert a + d == (q + 1) * d;
    ModOfProduct(q + 1, d, 0);
  }

  lemma {:induction false} ModOfProduct(q: nat, d: nat, r: nat)
    requires r < d
    ensures (q * d + r) % d == r
  {
    var x := q * d + r;
    var q', r' := x / d, x % d;
    assert x == q' * d + r';
    if q < q' {
      MulOrder(q + 1, q', d);
    } else if q' < q {
      MulOrder(q' + 1, q, d);
    }
  }

  ghost predicate EntriesSorted(es: seq<Entry>) {
    forall i, j :: 0 <= i <= j < |es| ==> es[i].ts <= es[j].ts
  }

  lemma {:induction false} AnchorsSorted(rs: seq<Record>, es: seq<Entry>, every: nat)
    requires Anchors(rs, es, every) && NonDecreasing(rs)
    ensures EntriesSorted(es)
  {
    forall i, j | 0 <= i <= j < |es|
      ensures es[i].ts <= es[j].ts
    {
      AnchorsIncrease(rs, es, every, i, j);
    }
  }

  // Storage of the index

  function EncodeEntry(e: Entry): (bs: seq<byte>)
    ensures |bs| == ENTRY_SIZE
  {
    Word(I64ToU64(e.ts)) + Word(e.recordIdx)
  }

  function DecodeEntry(bs: seq<byte>): Entry
    requires |bs| == ENTRY_SIZE
  {
    Entry(U64ToI64(ReadWord(bs[..8])), ReadWord(bs[8..16]))
  }

  lemma {:induction false} EntryRoundTrip(e: Entry)
    ensures DecodeEntry(EncodeEntry(e)) == e
  {
    WordRoundTrip(I64ToU64(e.ts));
    WordRoundTrip(e.recordIdx);
    assert EncodeEntry(e)[..8] == Word(I64ToU64(e.ts));
    assert EncodeEntry(e)[8..16] == Word(e.recordIdx);
  }

  function EntryBlocks(es: seq<Entry>): (blocks: seq<seq<byte>>)
    ensures |blocks| == |es| && AllSized(blocks, ENTRY_SIZE)
    ensures forall i {:trigger blocks[i]} :: 0 <= i < |es| ==> blocks[i] == EncodeEntry(es[i])
  {
    seq(|es|, i requires 0 <= i < |es| => EncodeEntry(es[i]))
  }

  ghost function IndexBytes(es: seq<Entry>): (bs: seq<byte>)
    ensures |bs| == ENTRY_SIZE * |es|
  {
    ConcatSize(EntryBlocks(es), ENTRY_SIZE);
    Concat(EntryBlocks(es))
  }

  method EncodeEntries(es: seq<Entry>) returns (bytes: seq<byte>)
    ensures bytes == IndexBytes(es)
  {
    bytes := [];
    for i := 0 to |es|
      invariant bytes == IndexBytes(es[..i])
    {
      bytes := bytes + EncodeEntry(es[i]);
      assert EntryBlocks(es[..i + 1]) == EntryBlocks(es[..i]) + [EncodeEntry(es[i])];
      ConcatSnoc(EntryBlocks(es[..i]), EncodeEntry(es[i]));
    }
    assert es[..|es|] == es;
  }

  function DecodeIndex(bytes: seq<byte>): (es: seq<Entry>)
    ensures |es| == |bytes| / ENTRY_SIZE
  {
    seq(|bytes| / ENTRY_SIZE, i requires 0 <= i < |bytes| / ENTRY_SIZE =>
      DecodeEntry(bytes[ENTRY_SIZE * i..ENTRY_SIZE * i + ENTRY_SIZE]))
  }

  /** Fails exactly on a ragged length. */
  method DecodeEntries(bytes: seq<byte>) returns (r: Result<seq<Entry>>)
    ensures r == if |bytes| % ENTRY_SIZE != 0 then Err(InvalidData) else Ok(DecodeIndex(bytes))
  {
    if |bytes| % ENTRY_SIZE != 0 {
      return Err(InvalidData);
    }
    var entries: seq<Entry> := [];
    for i := 0 to |bytes| / ENTRY_SIZE
      invariant entries == DecodeIndex(bytes)[..i]
    {
      entries := entries + [DecodeEntry(bytes[ENTRY_SIZE * i..ENTRY_SIZE * i + ENTRY_SIZE])];
    }
    assert DecodeIndex(bytes)[..|bytes| / ENTRY_SIZE] == DecodeIndex(bytes);
    return Ok(entries);
  }

  /** Any stored index comes back entry for entry. */
  lemma {:induction false} DecodeIndexBytes(es: seq<Entry>)
    ensures DecodeIndex(IndexBytes(es)) == es
  {
    forall i | 0 <= i < |es|
      ensures DecodeIndex(IndexBytes(es))[i] == es[i]
    {
      ConcatSlice(EntryBlocks(es), ENTRY_SIZE, i, i + 1);
      assert EntryBlocks(es)[i..i + 1] == [EncodeEntry(es[i])];
      assert Concat([EncodeEntry(es[i])]) == EncodeEntry(es[i]) + Concat<byte>([]);
      EntryRoundTrip(es[i]);
      assert IndexBytes(es)[ENTRY_SIZE * i..ENTRY_SIZE * i + ENTRY_SIZE] == EncodeEntry(es[i]);
    }
  }

  // Searching the index

  /** `partition_point(|entry| entry.ts <= t)`. */
  method PartitionPoint(es: seq<Entry>, t: i64) returns (left: nat)
    ensures left <= |es|
    ensures EntriesSorted(es) ==> forall i :: 0 <= i < |es| ==> (i < left <==> es[i].ts <= t)
  {
    left := 0;
    var right := |es|;
    while left < right
      invariant 0 <= left <= right <= |es|
      invariant EntriesSorted(es) ==> forall i :: 0 <= i < left ==> es[i].ts <= t
      invariant EntriesSorted(es) ==> forall i :: right <= i < |es| ==> es[i].ts > t
    {
      var mid := left + (right - left) / 2;
      if es[mid].ts <= t {
        left := mid + 1;
      } else {
        right := mid;
      }
    }
  }

  /** `lo..hi` starts at an anchor at or before `t` (or at the very first record) and ends before a later one. */
  ghost predicate IsWindow(rs: seq<Record>, t: int, lo: nat, hi: nat) {
    && lo <= hi <= |rs|
    && (lo > 0 ==> lo < |rs| && rs[lo].ts <= t)
    && (hi < |rs| ==> rs[hi].ts > t)
  }

  /** The anchor position the window search settles on, from the data alone. */
  function ChosenAnchor(rs: seq<Record>, every: nat, t: int): (a: nat)
    requires every > 0
  {
    var ub := UpperBound(rs, t);
    if ub == 0 then 0 else (ub - 1) - (ub - 1) % every
  }

  /** Never leaves the chunk, whatever index the file holds; on sampled anchors it succeeds. */
  method LookupWindow(count: u64, es: seq<Entry>, t: i64, ghost rs: seq<Record>, ghost every: nat)
    returns (r: Result<(u64, u64)>)
    ensures r.Ok? ==> r.value.0 <= r.value.1 <= count
    ensures |rs| == count && NonDecreasing(rs) && Anchors(rs, es, every) ==>
              && r.Ok?
              && IsWindow(rs, t, r.value.0, r.value.1)
              && r.value.0 == ChosenAnchor(rs, every, t)
  {
    if count == 0 || es == [] {
      return Ok((0, count));
    }
    var point := PartitionPoint(es, t);
    var index := if point == 0 then 0 else point - 1;
    var start := es[index].recordIdx;
    var end := if index + 1 < |es| then es[index + 1].recordIdx else count;
    if |rs| == count && NonDecreasing(rs) && Anchors(rs, es, every) {
      WindowIsSound(rs, es, every, t, point);
    }
    if start > end || end > count {
      return Err(InvalidData);
    }
    return Ok((start, end));
  }

  lemma {:induction false} WindowIsSound(rs: seq<Record>, es: seq<Entry>, every: nat, t: int, point: nat)
    requires NonDecreasing(rs) && Anchors(rs, es, every) && es != [] && |rs| < TWO_64
    requires point <= |es|
    requires EntriesSorted(es) ==> forall i :: 0 <= i < |es| ==> (i < point <==> es[i].ts <= t)
    ensures var index := if point == 0 then 0 else point - 1;
            var end := if index + 1 < |es| then es[index + 1].recordIdx else |rs|;
            IsWindow(rs, t, es[index].recordIdx, end) && es[index].recordIdx == ChosenAnchor(rs, every, t)
  {
    AnchorsSorted(rs, es, every);
    var index := if point == 0 then 0 else point - 1;
    var start := es[index].recordIdx;
    var end := if index + 1 < |es| then es[index + 1].recordIdx else |rs|;
    AnchorsIncrease(rs, es, every, index, index);
    assert start < end <= start + every;
    UpperBoundSplits(rs, t);
    var ub := UpperBound(rs, t);
    if point == 0 {
      assert es[0].ts > t;
      assert rs[0].ts > t;
    } else {
      assert es[index].ts <= t;
      assert start < ub <= end;
      AnchorOf(start, ub - 1, every);
    }
  }

  lemma {:induction false} AnchorOf(start: nat, i: nat, every: nat)
    requires every > 0 && start % every == 0 && start <= i < start + every
    ensures i - i % every == start
  {
    var q := start / every;
    assert start == q * every;
    ModOfProduct(q, every, i - start);
  }
}
