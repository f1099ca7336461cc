/** The series catalog: chunk validation and the two-key searches over chunk bounds. */
module SeriesMeta {
  import opened Wrappers
  import opened Bytes
  import opened Records
  import opened Bounds
  import opened Layout
  import opened ChunkWriter

  datatype Series = Series(
    symbol: string, category: string, name: string, recordSize: u32, chunkUnit: string, chunks: seq<ChunkMeta>)

  predicate ChunkValidates(c: ChunkMeta) {
    && !(c.count > 0 && c.startTs > c.endTs)
    && !Blank(c.relativePath)
    && c.sparseIndexEvery != 0
  }

  predicate TimeBased(unit: string) {
    unit in {"month", "day", "hour"}
  }

  /** Each chunk starts after its predecessor ends. */
  ghost predicate NeighboursDisjoint(cs: seq<ChunkMeta>) {
    forall i :: 0 < i < |cs| ==> cs[i - 1].endTs < cs[i].startTs
  }

  ghost predicate Validates(s: Series) {
    && !Blank(s.symbol) && !Blank(s.category) && !Blank(s.name)
    && s.recordSize != 0
    && TimeBased(s.chunkUnit)
    && (forall i :: 0 <= i < |s.chunks| ==> ChunkValidates(s.chunks[i]))
    && NeighboursDisjoint(s.chunks)
  }

  /** What a single chunk can be refused for. */
  predicate FaultyChunk(c: ChunkMeta) {
    || (c.count > 0 && c.endTs < c.startTs)
    || (forall i :: 0 <= i < |c.relativePath| ==> c.relativePath[i] in " \t\n\r")
    || c.sparseIndexEvery == 0
  }

  /** A series is refused exactly for its identity, its layout, a faulty chunk or neighbours out of order. */
  lemma RefusedExactly(s: Series)
    ensures !Validates(s) <==>
              || Blank(s.symbol) || Blank(s.category) || Blank(s.name)
              || s.recordSize == 0 || (s.chunkUnit != "month" && s.chunkUnit != "day" && s.chunkUnit != "hour")
              || (exists i :: 0 <= i < |s.chunks| && FaultyChunk(s.chunks[i]))
              || (exists i :: 0 < i < |s.chunks| && s.chunks[i].startTs <= s.chunks[i - 1].endTs)
  {
    forall i | 0 <= i < |s.chunks|
      ensures FaultyChunk(s.chunks[i]) <==> !ChunkValidates(s.chunks[i])
    {
      BlankMeans(s.chunks[i].relativePath);
    }
  }

  lemma BlankMeans(text: string)
    ensures Blank(text) <==> forall i :: 0 <= i < |text| ==> text[i] in " \t\n\r"
  {
    var white := " \t\n\r";
    assert white[0] == ' ' && white[1] == '\t' && white[2] == '\n' && white[3] == '\r';
  }

  method Validate(s: Series) returns (r: Result<()>)
    ensures r.Ok? <==> Validates(s)
  {
    if Blank(s.symbol) || Blank(s.category) || Blank(s.name) || s.recordSize == 0 || !TimeBased(s.chunkUnit) {
      return Err(InvalidData);
    }
    var prevEnd: Option<i64> := None;
    for i := 0 to |s.chunks|
      invariant prevEnd == if i == 0 then None else Some(s.chunks[i - 1].endTs)
      invariant forall k :: 0 <= k < i ==> ChunkValidates(s.chunks[k])
      invariant forall k :: 0 < k < i ==> s.chunks[k - 1].endTs < s.chunks[k].startTs
    {
      if !ChunkValidates(s.chunks[i]) {
        return Err(InvalidData);
      }
      if prevEnd.Some? && s.chunks[i].startTs <= prevEnd.value {
        return Err(InvalidData);
      }
      prevEnd := Some(s.chunks[i].endTs);
    }
    return Ok(());
  }

  // The order of chunk bounds

  ghost predicate Nonempty(cs: seq<ChunkMeta>) {
    forall i :: 0 <= i < |cs| ==> cs[i].count > 0
  }

  ghost predicate StartsAscend(cs: seq<ChunkMeta>) {
    forall i, j :: 0 <= i < j < |cs| ==> cs[i].startTs <= cs[j].startTs
  }

  ghost predicate EndsAscend(cs: seq<ChunkMeta>) {
    forall i, j :: 0 <= i < j < |cs| ==> cs[i].endTs <= cs[j].endTs
  }

  lemma {:induction false} LaterStartsAfter(cs: seq<ChunkMeta>, i: nat, j: nat)
    requires NeighboursDisjoint(cs) && i < j < |cs|
    requires forall k :: i < k < j ==> cs[k].startTs <= cs[k].endTs
    ensures cs[i].endTs < cs[j].startTs
    decreases j
  {
    if i < j - 1 {
      LaterStartsAfter(cs, i, j - 1);
    }
  }

  /** Without empty chunks the neighbour check orders all bounds. */
  lemma {:induction false} ValidatedBoundsAscend(s: Series)
    requires Validates(s) && Nonempty(s.chunks)
    ensures StartsAscend(s.chunks) && EndsAscend(s.chunks)
    ensures forall i, j :: 0 <= i < j < |s.chunks| ==> s.chunks[i].endTs < s.chunks[j].startTs
  {
    var cs := s.chunks;
    assert forall i :: 0 <= i < |cs| ==> ChunkValidates(cs[i]);
    forall i, j | 0 <= i < j < |cs|
      ensures cs[i].startTs <= cs[i].endTs < cs[j].startTs <= cs[j].endTs
    {
      LaterStartsAfter(cs, i, j);
    }
  }

  // The searches, on any chunk list

  predicate Contains(c: ChunkMeta, ts: int) {
    c.startTs <= ts <= c.endTs
  }

  predicate Overlaps(c: ChunkMeta, start: int, end: int) {
    c.startTs <= end && c.endTs >= start
  }

  function Middle(left: nat, right: nat): (mid: nat)
    requires left < right
    ensures left <= mid < right
  {
    left + (right - left) / 2
  }

  /** Where halving `left..right` ends, going right at every probe whose end lies before `ts`. */
  function EndSearch(cs: seq<ChunkMeta>, ts: i64, left: nat, right: nat): (r: nat)
    requires left <= right <= |cs|
    ensures left <= r <= right
    decreases right - left
  {
    if left == right then left
    else
      var mid := Middle(left, right);
      if cs[mid].endTs < ts then EndSearch(cs, ts, mid + 1, right) else EndSearch(cs, ts, left, mid)
  }

  /** The same for probes whose start is at most `ts`. */
  function StartSearch(cs: seq<ChunkMeta>, ts: i64, left: nat, right: nat): (r: nat)
    requires left <= right <= |cs|
    ensures left <= r <= right
    decreases right - left
  {
    if left == right then left
    else
      var mid := Middle(left, right);
      if cs[mid].startTs <= ts then StartSearch(cs, ts, mid + 1, right) else StartSearch(cs, ts, left, mid)
  }

  ghost predicate SplitsEnds(cs: seq<ChunkMeta>, ts: i64, k: nat) {
    forall i :: 0 <= i < |cs| ==> (i < k <==> cs[i].endTs < ts)
  }

  ghost predicate SplitsStarts(cs: seq<ChunkMeta>, ts: i64, k: nat) {
    forall i :: 0 <= i < |cs| ==> (i < k <==> cs[i].startTs <= ts)
  }

  /** Some index has exactly the chunks that end before `ts` in front of it. */
  ghost predicate EndsSeparable(cs: seq<ChunkMeta>, ts: i64) {
    exists k: nat :: SplitsEnds(cs, ts, k)
  }

  ghost predicate StartsSeparable(cs: seq<ChunkMeta>, ts: i64) {
    exists k: nat :: SplitsStarts(cs, ts, k)
  }

  ghost predicate EndSearchRight(cs: seq<ChunkMeta>, ts: i64) {
    SplitsEnds(cs, ts, EndSearch(cs, ts, 0, |cs|))
  }

  ghost predicate StartSearchRight(cs: seq<ChunkMeta>, ts: i64) {
    SplitsStarts(cs, ts, StartSearch(cs, ts, 0, |cs|))
  }

  method FirstChunkWithEndGe(cs: seq<ChunkMeta>, ts: i64) returns (left: nat)
    ensures left == EndSearch(cs, ts, 0, |cs|)
    ensures EndsAscend(cs) ==> SplitsEnds(cs, ts, left)
  {
    if EndsAscend(cs) {
      EndSearchSplits(cs, ts, 0, |cs|);
    }
    left := 0;
    var right := |cs|;
    while left < right
      invariant 0 <= left <= right <= |cs|
      invariant EndSearch(cs, ts, left, right) == EndSearch(cs, ts, 0, |cs|)
    {
      var mid := Middle(left, right);
      if cs[mid].endTs < ts {
        left := mid + 1;
      } else {
        right := mid;
      }
    }
  }

  method FirstChunkWithStartGt(cs: seq<ChunkMeta>, ts: i64) returns (left: nat)
    ensures left == StartSearch(cs, ts, 0, |cs|)
    ensures StartsAscend(cs) ==> SplitsStarts(cs, ts, left)
  {
    if StartsAscend(cs) {
      StartSearchSplits(cs, ts, 0, |cs|);
    }
    left := 0;
    var right := |cs|;
    while left < right
      invariant 0 <= left <= right <= |cs|
      invariant StartSearch(cs, ts, left, right) == StartSearch(cs, ts, 0, |cs|)
    {
      var mid := Middle(left, right);
      if cs[mid].startTs <= ts {
        left := mid + 1;
      } else {
        right := mid;
      }
    }
  }

  lemma {:induction false} EndSearchSplits(cs: seq<ChunkMeta>, ts: i64, left: nat, right: nat)
    requires left <= right <= |cs| && EndsAscend(cs)
    requires forall i :: 0 <= i < left ==> cs[i].endTs < ts
    requires forall i :: right <= i < |cs| ==> cs[i].endTs >= ts
    ensures SplitsEnds(cs, ts, EndSearch(cs, ts, left, right))
    decreases right - left
  {
    if left < right {
      var mid := Middle(left, right);
      if cs[mid].endTs < ts {
        EndSearchSplits(cs, ts, mid + 1, right);
      } else {
        EndSearchSplits(cs, ts, left, mid);
      }
    }
  }

  lemma {:induction false} StartSearchSplits(cs: seq<ChunkMeta>, ts: i64, left: nat, right: nat)
    requires left <= right <= |cs| && StartsAscend(cs)
    requires forall i :: 0 <= i < left ==> cs[i].startTs <= ts
    requires forall i :: right <= i < |cs| ==> cs[i].startTs > ts
    ensures SplitsStarts(cs, ts, StartSearch(cs, ts, left, right))
    decreases right - left
  {
    if left < right {
      var mid := Middle(left, right);
      if cs[mid].startTs <= ts {
        StartSearchSplits(cs, ts, mid + 1, right);
      } else {
        StartSearchSplits(cs, ts, left, mid);
      }
    }
  }

  /** Some index separates the ends for every timestamp exactly when they ascend, and then the search finds it. */
  lemma {:induction false} EndSearchRightExactly(cs: seq<ChunkMeta>)
    ensures EndsAscend(cs) <==> forall ts: i64 :: EndSearchRight(cs, ts)
    ensures EndsAscend(cs) <==> forall ts: i64 :: EndsSeparable(cs, ts)
  {
    if EndsAscend(cs) {
      forall ts: i64
        ensures EndSearchRight(cs, ts) && EndsSeparable(cs, ts)
      {
        EndSearchSplits(cs, ts, 0, |cs|);
      }
    }
    if (forall ts: i64 :: EndSearchRight(cs, ts)) || (forall ts: i64 :: EndsSeparable(cs, ts)) {
      forall i, j | 0 <= i < j < |cs|
        ensures cs[i].endTs <= cs[j].endTs
      {
        assert EndSearchRight(cs, cs[i].endTs) || EndsSeparable(cs, cs[i].endTs);
      }
    }
  }

  /** Some index separates the starts for every timestamp exactly when they ascend, and then the search finds it. */
  lemma {:induction false} StartSearchRightExactly(cs: seq<ChunkMeta>)
    ensures StartsAscend(cs) <==> forall ts: i64 :: StartSearchRight(cs, ts)
    ensures StartsAscend(cs) <==> forall ts: i64 :: StartsSeparable(cs, ts)
  {
    if StartsAscend(cs) {
      forall ts: i64
        ensures StartSearchRight(cs, ts) && StartsSeparable(cs, ts)
      {
        StartSearchSplits(cs, ts, 0, |cs|);
      }
    }
    if (forall ts: i64 :: StartSearchRight(cs, ts)) || (forall ts: i64 :: StartsSeparable(cs, ts)) {
      forall i, j | 0 <= i < j < |cs|
        ensures cs[i].startTs <= cs[j].startTs
      {
        assert StartSearchRight(cs, cs[j].startTs) || StartsSeparable(cs, cs[j].startTs);
      }
    }
  }

  // Finding the chunk of a timestamp

  function FoundChunk(cs: seq<ChunkMeta>, ts: i64): (r: Option<nat>)
    ensures r.Some? ==> r.value < |cs| && Contains(cs[r.value], ts)
  {
    var left := StartSearch(cs, ts, 0, |cs|);
    if left > 0 && Contains(cs[left - 1], ts) then Some(left - 1) else None
  }

  /** The answer is the only chunk that contains the timestamp, or none does. */
  ghost predicate FoundRight(cs: seq<ChunkMeta>, ts: i64) {
    forall i :: 0 <= i < |cs| ==> (Contains(cs[i], ts) <==> FoundChunk(cs, ts) == Some(i))
  }

  /** Every probe of a search for chunk `j` turns towards it, for all timestamps the chunk contains. */
  predicate ProbesLeadTo(cs: seq<ChunkMeta>, j: nat, left: nat, right: nat)
    requires left <= right <= |cs| && j < |cs|
    decreases right - left
  {
    left == right ||
    var mid := Middle(left, right);
    if mid <= j then cs[mid].startTs <= cs[j].startTs && ProbesLeadTo(cs, j, mid + 1, right)
    else cs[mid].startTs > cs[j].endTs && ProbesLeadTo(cs, j, left, mid)
  }

  /** Every chunk with its bounds in order can be reached by the search. */
  predicate AllReachable(cs: seq<ChunkMeta>) {
    forall j :: 0 <= j < |cs| && cs[j].startTs <= cs[j].endTs ==> ProbesLeadTo(cs, j, 0, |cs|)
  }

  /** The returned chunk is the unique containing one exactly when the searched bounds allow it. */
  method FindChunkForTs(cs: seq<ChunkMeta>, ts: i64) returns (r: Option<nat>)
    ensures r == FoundChunk(cs, ts)
    ensures r.Some? ==> r.value < |cs| && Contains(cs[r.value], ts)
    ensures AllReachable(cs) ==> forall i :: 0 <= i < |cs| ==> (Contains(cs[i], ts) <==> r == Some(i))
  {
    FindRightExactly(cs);
    assert AllReachable(cs) ==> FoundRight(cs, ts);
    if cs == [] {
      return None;
    }
    var left := FirstChunkWithStartGt(cs, ts);
    if left == 0 {
      return None;
    }
    var index := left - 1;
    if cs[index].startTs <= ts && cs[index].endTs >= ts {
      return Some(index);
    }
    return None;
  }

  lemma {:induction false} ProbesReach(cs: seq<ChunkMeta>, j: nat, ts: i64, left: nat, right: nat)
    requires left <= j + 1 <= right <= |cs| && j < |cs|
    requires ProbesLeadTo(cs, j, left, right) && Contains(cs[j], ts)
    ensures StartSearch(cs, ts, left, right) == j + 1
    decreases right - left
  {
    if left < right {
      var mid := Middle(left, right);
      if mid <= j {
        ProbesReach(cs, j, ts, mid + 1, right);
      } else {
        ProbesReach(cs, j, ts, left, mid);
      }
    }
  }

  lemma {:induction false} ProbeTurns(cs: seq<ChunkMeta>, ts: i64, j: nat, left: nat, right: nat)
    requires left < right <= |cs| && StartSearch(cs, ts, left, right) == j + 1
    ensures var mid := Middle(left, right);
            if mid <= j then cs[mid].startTs <= ts && StartSearch(cs, ts, mid + 1, right) == j + 1
            else cs[mid].startTs > ts && StartSearch(cs, ts, left, mid) == j + 1
  {
  }

  /** A search that reaches chunk `j` from both of its bounds has led there at every probe. */
  lemma {:induction false} ReachedByProbes(cs: seq<ChunkMeta>, j: nat, left: nat, right: nat)
    requires left <= j + 1 <= right <= |cs| && j < |cs|
    requires StartSearch(cs, cs[j].startTs, left, right) == j + 1
    requires StartSearch(cs, cs[j].endTs, left, right) == j + 1
    ensures ProbesLeadTo(cs, j, left, right)
    decreases right - left
  {
    if left < right {
      var mid := Middle(left, right);
      ProbeTurns(cs, cs[j].startTs, j, left, right);
      ProbeTurns(cs, cs[j].endTs, j, left, right);
      if mid <= j {
        ReachedByProbes(cs, j, mid + 1, right);
      } else {
        ReachedByProbes(cs, j, left, mid);
      }
    }
  }

  /** For any chunk list: the search is right for every timestamp exactly when all its chunks are reachable. */
  lemma {:induction false} FindRightExactly(cs: seq<ChunkMeta>)
    ensures AllReachable(cs) <==> forall ts: i64 :: FoundRight(cs, ts)
  {
    if AllReachable(cs) {
      forall ts: i64, i | 0 <= i < |cs| && Contains(cs[i], ts)
        ensures FoundChunk(cs, ts) == Some(i)
      {
        ProbesReach(cs, i, ts, 0, |cs|);
      }
    }
    if forall ts: i64 :: FoundRight(cs, ts) {
      forall j | 0 <= j < |cs| && cs[j].startTs <= cs[j].endTs
        ensures ProbesLeadTo(cs, j, 0, |cs|)
      {
        assert FoundRight(cs, cs[j].startTs) && FoundRight(cs, cs[j].endTs);
        assert Contains(cs[j], cs[j].startTs) && Contains(cs[j], cs[j].endTs);
        ReachedByProbes(cs, j, 0, |cs|);
      }
    }
  }

  /** In a validated series ascending starts make every chunk reachable. */
  lemma {:induction false} AscendingStartsReachable(cs: seq<ChunkMeta>)
    requires NeighboursDisjoint(cs) && StartsAscend(cs)
    ensures AllReachable(cs)
  {
    forall j | 0 <= j < |cs| && cs[j].startTs <= cs[j].endTs
      ensures ProbesLeadTo(cs, j, 0, |cs|)
    {
      AscendingProbes(cs, j, 0, |cs|);
    }
  }

  lemma {:induction false} AscendingProbes(cs: seq<ChunkMeta>, j: nat, left: nat, right: nat)
    requires NeighboursDisjoint(cs) && StartsAscend(cs)
    requires left <= right <= |cs| && j < |cs|
    ensures ProbesLeadTo(cs, j, left, right)
    decreases right - left
  {
    if left < right {
      var mid := Middle(left, right);
      if mid <= j {
        AscendingProbes(cs, j, mid + 1, right);
      } else {
        assert cs[j].endTs < cs[j + 1].startTs <= cs[mid].startTs;
        AscendingProbes(cs, j, left, mid);
      }
    }
  }

  // Finding the chunks of a range

  /** An empty answer is always `0..0`. */
  function FoundRange(cs: seq<ChunkMeta>, start: i64, end: i64): (r: (nat, nat))
    ensures r.0 < r.1 <= |cs| || r == (0, 0)
  {
    var lo, hi := EndSearch(cs, start, 0, |cs|), StartSearch(cs, end, 0, |cs|);
    if start <= end && lo < hi then (lo, hi) else (0, 0)
  }

  /** The answer is exactly the chunks whose bounds overlap the range. */
  ghost predicate RangeRight(cs: seq<ChunkMeta>, start: i64, end: i64) {
    var r := FoundRange(cs, start, end);
    forall i :: 0 <= i < |cs| ==> (start <= end && Overlaps(cs[i], start, end) <==> r.0 <= i < r.1)
  }

  method FindChunksForRange(cs: seq<ChunkMeta>, start: i64, end: i64) returns (lo: nat, hi: nat)
    ensures (lo, hi) == FoundRange(cs, start, end)
    ensures StartsAscend(cs) && EndsAscend(cs) ==>
              forall i :: 0 <= i < |cs| ==> (start <= end && Overlaps(cs[i], start, end) <==> lo <= i < hi)
  {
    RangeRightExactly(cs);
    assert StartsAscend(cs) && EndsAscend(cs) ==> RangeRight(cs, start, end);
    if start > end || cs == [] {
      return 0, 0;
    }
    lo := FirstChunkWithEndGe(cs, start);
    if lo >= |cs| {
      return 0, 0;
    }
    hi := FirstChunkWithStartGt(cs, end);
    if lo >= hi {
      return 0, 0;
    }
  }

  lemma {:induction false} FromTheFirst(cs: seq<ChunkMeta>, left: nat, right: nat)
    requires left <= right <= |cs|
    ensures EndSearch(cs, I64_MIN, left, right) == left && StartSearch(cs, I64_MAX, left, right) == right
    decreases right - left
  {
    if left < right {
      var mid := Middle(left, right);
      FromTheFirst(cs, left, mid);
      FromTheFirst(cs, mid + 1, right);
    }
  }

  /** For any chunk list: range selection is right for every range exactly when starts and ends ascend. */
  lemma {:induction false} RangeRightExactly(cs: seq<ChunkMeta>)
    ensures StartsAscend(cs) && EndsAscend(cs) <==> forall start: i64, end: i64 :: RangeRight(cs, start, end)
  {
    if StartsAscend(cs) && EndsAscend(cs) {
      forall start: i64, end: i64
        ensures RangeRight(cs, start, end)
      {
        EndSearchSplits(cs, start, 0, |cs|);
        StartSearchSplits(cs, end, 0, |cs|);
      }
    }
    if forall start: i64, end: i64 :: RangeRight(cs, start, end) {
      FromTheFirst(cs, 0, |cs|);
      forall i, j | 0 <= i < j < |cs|
        ensures cs[i].startTs <= cs[j].startTs && cs[i].endTs <= cs[j].endTs
      {
        assert RangeRight(cs, I64_MIN, cs[j].startTs);
        assert RangeRight(cs, cs[i].endTs, I64_MAX);
      }
    }
  }

  /** An empty chunk with inverted bounds between two others. */
  function InvertedBetween(): Series {
    Series("s", "c", "n", 48, "month", [
             ChunkMeta(1, 0, 0, 10, 1, 2, 128, 128, 176, 1, 1, "a"),
             ChunkMeta(2, 0, 20, 15, 0, 2, 128, 128, 128, 0, 1, "e"),
             ChunkMeta(3, 0, 16, 30, 1, 2, 128, 128, 176, 1, 1, "b")])
  }

  lemma NamesAreNotBlank()
    ensures !Blank("s") && !Blank("c") && !Blank("n") && !Blank("a") && !Blank("e") && !Blank("b")
  {
    assert "s"[0] == 's' && "c"[0] == 'c' && "n"[0] == 'n' && "a"[0] == 'a' && "e"[0] == 'e' && "b"[0] == 'b';
  }

  lemma InvertedBetweenValidates()
    ensures Validates(InvertedBetween())
  {
    NamesAreNotBlank();
    assert forall i :: 0 <= i < 3 ==> ChunkValidates(InvertedBetween().chunks[i]);
  }

  /** That series validates and its last chunk contains 17, yet neither search finds it. */
  lemma EmptyChunkHidesAnother()
    ensures var cs := InvertedBetween().chunks;
            && Validates(InvertedBetween()) && cs[2].count > 0 && Contains(cs[2], 17)
            && FoundChunk(cs, 17) == None && FoundRange(cs, 17, 17) == (0, 0)
  {
    InvertedBetweenValidates();
    var cs := InvertedBetween().chunks;
    assert StartSearch(cs, 17, 0, 3) == StartSearch(cs, 17, 0, 1) == StartSearch(cs, 17, 1, 1);
    assert EndSearch(cs, 17, 0, 3) == EndSearch(cs, 17, 2, 3) == 2;
  }

  // Whole-series queries

  /** Each chunk's metadata describes its records. */
  ghost predicate Describes(cs: seq<ChunkMeta>, parts: seq<seq<Record>>) {
    && |cs| == |parts|
    && forall i, k :: 0 <= i < |cs| && 0 <= k < |parts[i]| ==> cs[i].startTs <= parts[i][k].ts <= cs[i].endTs
  }

  function InRangeParts(parts: seq<seq<Record>>, start: int, end: int): seq<Record> {
    if parts == [] then [] else InRange(parts[0], start, end) + InRangeParts(parts[1..], start, end)
  }

  lemma {:induction false} InRangeOfConcat(parts: seq<seq<Record>>, start: int, end: int)
    ensures InRange(Concat(parts), start, end) == InRangeParts(parts, start, end)
  {
    if parts != [] {
      InRangeAppend(parts[0], Concat(parts[1..]), start, end);
      InRangeOfConcat(parts[1..], start, end);
    }
  }

  lemma {:induction false} PartsOutside(parts: seq<seq<Record>>, start: int, end: int)
    requires forall i, k :: 0 <= i < |parts| && 0 <= k < |parts[i]| ==> !(start <= parts[i][k].ts <= end)
    ensures InRangeParts(parts, start, end) == []
  {
    if parts != [] {
      InRangeNone(parts[0], start, end);
      forall i, k | 0 <= i < |parts[1..]| && 0 <= k < |parts[1..][i]|
        ensures !(start <= parts[1..][i][k].ts <= end)
      {
        assert parts[1..][i] == parts[i + 1];
      }
      PartsOutside(parts[1..], start, end);
    }
  }

  /** Reading only the selected chunks gives what filtering the whole series gives. */
  lemma {:induction false} SelectedChunksSuffice(
      cs: seq<ChunkMeta>, parts: seq<seq<Record>>, start: int, end: int, lo: nat, hi: nat)
    requires Describes(cs, parts)
    requires lo <= hi <= |cs|
    requires forall i :: 0 <= i < |cs| ==> (start <= end && Overlaps(cs[i], start, end) <==> lo <= i < hi)
    ensures InRangeParts(parts[lo..hi], start, end) == InRange(Concat(parts), start, end)
  {
    ConcatThree(parts, lo, hi);
    var a, b, c := parts[..lo], parts[lo..hi], parts[hi..];
    InRangeAppend(Concat(a) + Concat(b), Concat(c), start, end);
    InRangeAppend(Concat(a), Concat(b), start, end);
    InRangeOfConcat(a, start, end);
    InRangeOfConcat(b, start, end);
    InRangeOfConcat(c, start, end);
    forall i, k | 0 <= i < |a| && 0 <= k < |a[i]|
      ensures !(start <= a[i][k].ts <= end)
    {
      assert !(start <= end && Overlaps(cs[i], start, end)) && a[i] == parts[i];
    }
    PartsOutside(a, start, end);
    forall i, k | 0 <= i < |c| && 0 <= k < |c[i]|
      ensures !(start <= c[i][k].ts <= end)
    {
      assert !(start <= end && Overlaps(cs[hi + i], start, end)) && c[i] == parts[hi + i];
    }
    PartsOutside(c, start, end);
  }

  /** On a validated series without empty chunks the search selects enough, whatever the range. */
  lemma {:induction false} SeriesQueryIsTheFilter(s: Series, parts: seq<seq<Record>>, start: i64, end: i64)
    requires Validates(s) && Nonempty(s.chunks) && Describes(s.chunks, parts)
    ensures var (lo, hi) := FoundRange(s.chunks, start, end);
            InRangeParts(parts[lo..hi], start, end) == InRange(Concat(parts), start, end)
  {
    ValidatedBoundsAscend(s);
    RangeRightExactly(s.chunks);
    assert RangeRight(s.chunks, start, end);
    var (lo, hi) := FoundRange(s.chunks, start, end);
    SelectedChunksSuffice(s.chunks, parts, start, end, lo, hi);
  }

  // Series of written chunks

  /** A written chunk has a valid catalog entry that describes its records. */
  lemma {:induction false} WrittenIsCatalogued(
      kind: Kind, info: SeriesInfo, rs: seq<Record>, opts: WriteOptions, w: Written)
    requires WritesChunk(kind, info, rs, opts, w) && Ordered(kind, rs) && !Blank(opts.relativePath)
    ensures ChunkValidates(w.meta) && w.meta.count > 0 && Describes([w.meta], [rs])
    ensures w.meta.startTs == rs[0].ts && w.meta.endTs == rs[|rs| - 1].ts
  {
    WrittenBounds(kind, info, rs, opts, w);
  }

  /** All records of the second chunk come after those of the first. */
  ghost predicate Follows(a: seq<Record>, b: seq<Record>) {
    a != [] && b != [] && a[|a| - 1].ts < b[0].ts
  }

  /** Chunk `i` of the series is what a writer handed back for `parts[i]`. */
  ghost predicate WrittenAt(
      s: Series, kind: Kind, infos: seq<SeriesInfo>, parts: seq<seq<Record>>, options: seq<WriteOptions>,
      written: seq<Written>, i: nat)
    requires i < |s.chunks| == |infos| == |parts| == |options| == |written|
  {
    && WritesChunk(kind, infos[i], parts[i], options[i], written[i]) && Ordered(kind, parts[i])
    && !Blank(options[i].relativePath) && s.chunks[i] == written[i].meta
  }

  ghost predicate WrittenInOrder(
      s: Series, kind: Kind, infos: seq<SeriesInfo>, parts: seq<seq<Record>>, options: seq<WriteOptions>,
      written: seq<Written>)
  {
    && |s.chunks| == |infos| == |parts| == |options| == |written|
    && (forall i :: 0 <= i < |parts| ==> WrittenAt(s, kind, infos, parts, options, written, i))
    && (forall i, j :: 0 <= i < j < |parts| ==> Follows(parts[i], parts[j]))
  }

  /** The entry is valid, not empty, and exactly bounds the records. */
  ghost predicate ExactlyBounds(c: ChunkMeta, rs: seq<Record>) {
    && ChunkValidates(c) && c.count > 0 && rs != []
    && c.startTs == rs[0].ts && c.endTs == rs[|rs| - 1].ts
    && forall k :: 0 <= k < |rs| ==> c.startTs <= rs[k].ts <= c.endTs
  }

  lemma {:induction false} WrittenBounds(
      kind: Kind, info: SeriesInfo, rs: seq<Record>, opts: WriteOptions, w: Written)
    requires WritesChunk(kind, info, rs, opts, w) && Ordered(kind, rs) && !Blank(opts.relativePath)
    ensures ExactlyBounds(w.meta, rs)
  {
    WrittenIsDescribed(kind, info, rs, opts, w);
    OrderedIsNonDecreasing(kind, rs);
  }

  lemma {:induction false} BoundedSeriesValidates(s: Series, parts: seq<seq<Record>>)
    requires |s.chunks| == |parts| && forall i :: 0 <= i < |parts| ==> ExactlyBounds(s.chunks[i], parts[i])
    requires forall i, j :: 0 <= i < j < |parts| ==> Follows(parts[i], parts[j])
    requires !Blank(s.symbol) && !Blank(s.category) && !Blank(s.name) && s.recordSize != 0 && TimeBased(s.chunkUnit)
    ensures Validates(s) && Nonempty(s.chunks) && Describes(s.chunks, parts)
  {
    forall i | 0 < i < |s.chunks|
      ensures s.chunks[i - 1].endTs < s.chunks[i].startTs
    {
      assert ExactlyBounds(s.chunks[i - 1], parts[i - 1]) && ExactlyBounds(s.chunks[i], parts[i]);
      assert Follows(parts[i - 1], parts[i]);
    }
  }

  /** A written series validates, and the chunks the search selects answer every range like filtering everything. */
  lemma {:induction false} WrittenSeriesAnswers(
      s: Series, kind: Kind, infos: seq<SeriesInfo>, parts: seq<seq<Record>>, options: seq<WriteOptions>,
      written: seq<Written>, start: i64, end: i64)
    requires WrittenInOrder(s, kind, infos, parts, options, written)
    requires !Blank(s.symbol) && !Blank(s.category) && !Blank(s.name) && s.recordSize != 0 && TimeBased(s.chunkUnit)
    ensures Validates(s) && Nonempty(s.chunks) && Describes(s.chunks, parts)
    ensures var (lo, hi) := FoundRange(s.chunks, start, end);
            InRangeParts(parts[lo..hi], start, end) == InRange(Concat(parts), start, end)
  {
    forall i | 0 <= i < |parts|
      ensures ExactlyBounds(s.chunks[i], parts[i])
    {
      assert WrittenAt(s, kind, infos, parts, options, written, i);
      WrittenBounds(kind, infos[i], parts[i], options[i], written[i]);
    }
    BoundedSeriesValidates(s, parts);
    SeriesQueryIsTheFilter(s, parts, start, end);
  }
}
