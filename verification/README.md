# FastK verification

FastK stores fixed-width market records in immutable chunk files and answers point, range and
tail queries over them. This project models the parts of FastK where several fast routes must
agree with one simple meaning, and proves that they do:

- **Chunk files.** Both writers print `[header][records][sparse index]`; the readers find their
  way through those bytes by full reads, merged sparse windows compacted in place, two sparse
  lookups, on-disk binary search, and plan-then-read. The meaning of all of them is "keep the
  records with start <= ts <= end" (`Bounds.InRange`). Reads go through a cursor whose system
  calls may be short, interrupted or failing.
- **The second-chance file cache and the layout cache** as a state machine over all interleavings
  of hits, misses split at the unlocked open, invalidations and clears.
- **The backtest engine**: vectorised signals, accounts and portfolio against a bar-by-bar
  simulator, and the law its harness asserts (external-tests/backtest/run.py:80): cutting the
  bars into batches changes no fill and no equity point.
- **Smaller state machines**: the dataset registry with sealed snapshots, the framed stdio
  session, latest-N part pruning, exact block sums, predicate pruning.

`dafny verify dfyconfig.toml` checks everything.

## How it is organised

| files | content |
|---|---|
| Wrappers, Bytes, Records, Header, Bounds, SparseIndex | values, byte codecs, order, and what a range query means |
| ChunkFiles, Layout, ChunkWriter, ChunkReader, KlineReader, FixedReader, SeriesMeta, ChunkStore, ParallelRead | files, writers, readers, the series catalog, writing followed by querying, and parallel reads |
| FileCache, CacheProtocol | the cache object, and threads as interleaved steps |
| Int64, ExactSum, Signals, Simulator, Accounts, BatchIndependence, BatchCounterexamples, Portfolio, PortfolioFees, Backtest | wrapping integer arithmetic, signals, the reference simulator, the engine objects, batching |
| Snapshot, Registry, Session, LatestParts, LatestExact, Predicates | the smaller state machines and refinements |

Objects the program updates in place are classes here (`ChunkFile`, `RecordVec`,
`ChunkFileCache`, `Signal`, `Account`, `BacktestRun`, `DatasetRegistry`, `Transport`, `Files`); each of
their methods is tied to a function of the old state, and the laws are lemmas about those
functions. Ghost parameters such as `rs` and `every` name the records and the sampling rate a
file was written with.

## What turned out to be conditional

- **Equal timestamps.** For record types that allow equal timestamps the generic range read can
  lose records: it never looks before the last anchor at or before the start. `RangeReadExactly` says
  exactly when it is right, `HiddenMeansSampleInsideRun` states the condition on the data alone,
  `EqualTimestampsCanBeLost` shows two trades of which one is lost. Strict types are always exact.
- **Version 1 headers** do not survive encoding, except the blank one (`HeaderRoundTripExactly`).
- **A fee of exactly 100%** (10000 basis points, which the constructor accepts) makes the batching
  visible: a sale leaves nothing, the next purchase holds no units, and at a batch boundary the engine
  takes "no units" for "flat". `FaithfulExactlyOffFullFee` is the equivalence for each strategy, and
  `PortfolioFaithfulExactly` lifts it to the portfolio.
- **The SMA overflow guard** looks at the joined batch, so a long run may be refused in one batch
  and accepted in several (`GuardDependsOnBatching`). One batch is accepted if and only if the cut run
  is accepted and the guard passes on the whole (`CutRunAcceptedWhole`, `PortfolioAcceptedWhole`).
- **Chunk searches.** `validate` compares neighbours only, and lets an empty chunk have inverted
  bounds; such a chunk can hide another from both searches (`EmptyChunkHidesAnother`). For any chunk
  list, `find_chunk_for_ts` is right for every timestamp if and only if the probes on the way to each
  chunk lead there (`FindRightExactly`), and range selection is right for every range if and only if
  starts and ends ascend (`RangeRightExactly`). Without empty chunks validation implies both.
- **The bounds test of a predicate** always lets through blocks with matches; it lets through only
  those exactly for the predicates of `BoundsTestSharpExactly`.
- **A snapshot manifest** can be replaced together with the content; only a pinned digest notices
  (`UnpinnedContentIsFree`, `PinnedDigestFixesRoot`).
- **Latest-N queries.** With a value filter the backward walk counts rows the filter then drops, so it may
  stop too early (`FilteredLatestCanMiss`). `FilteredLatestExactly` says from the catalogue and the query alone
  when it cannot. A query with an exact value and bounds is answered by the value alone, by the oracle by both
  (`BothConditionsExactly`, `ConflictShows`). With limit 0 the query returns nothing, while the oracle's
  `rows[-0:]` keeps every row.

## Model

| member | source | states |
|---|---|---|
| Bytes.WordRoundTrip | src/store_core/chunk/header.rs:218-223 | every u64 survives its 8-byte little-endian form |
| Bytes.LeBytesOnto | src/store_core/chunk/header.rs:218-223 | every byte string is the encoding of the number it denotes |
| Bytes.LeByteAt | src/store_core/chunk/header.rs:218-223 | byte i of a word is its i-th base-256 digit, least significant first |
| Records.DecodeEncode | src/kline/record.rs:42-81 | every kline and trade record survives its codec, over all field values |
| Records.KlineOffsets | src/kline/record.rs:42-60 | each kline field lies at its own eight-byte offset |
| Records.TradeOffsets | src/types/trade.rs:49-87 | where each trade field lies: five words, the side and flag bytes, six bytes of padding |
| Records.TimestampFirst | src/store_core/chunk/kline_reader.rs:357-371 | the first eight bytes of a record are its timestamp, which the on-disk search relies on |
| Records.DecodeAllEncodeAll | src/store_core/chunk/fixed_reader.rs:245-248 | a written record region decodes to the same records in order |
| Records.ValidateOrder | src/types/fixed.rs:16-37 | the neighbour scan accepts exactly nonempty input that is globally ordered by the type's rule |
| Header.ToLeBytes | src/store_core/chunk/header.rs:42-76 | the loop leaves magic, as many words as fit, and zeros |
| Header.ReadFrom | src/store_core/chunk/header.rs:78-109 | a header is only returned if it validates and lies inside the file |
| Header.ReturnedHeader | src/store_core/chunk/header.rs:78-215 | what every returned header guarantees: magic, version with its size, bounds in order, a sampling rate for indexed files |
| Header.FieldOffsets | src/store_core/chunk/header.rs:42-76 | the byte range of every field of a version 2 header |
| Header.ReadWrittenV2 | src/store_core/chunk/header.rs:42-171 | a version 2 header reads back exactly, whatever bytes follow |
| Header.HeaderRoundTripExactly | src/store_core/chunk/header.rs:42-171 | for every valid header, encoding then reading returns it if and only if it is version 2 or the blank version 1 header |
| Header.ReadLegacy | src/store_core/chunk/header.rs:131-148 | the legacy ten-word layout reads back with the documented defaults for the missing fields |
| Bounds.InRangeIsSlice | src/store_core/chunk/kline_reader.rs:206-218 | on sorted records the filter is the slice between lower and upper bound |
| Bounds.LowerBoundInRecords | src/store_core/chunk/kline_reader.rs:443-457 | the search splits the records at the first timestamp not below the target |
| Bounds.UpperBoundInRecords | src/store_core/chunk/kline_reader.rs:459-473 | the search splits the records at the first timestamp above the target |
| SparseIndex.SampleAnchors | src/store_core/chunk/sparse_index.rs:39-57 | sampled entries point at their records, start at 0 and step by the rate to the end |
| SparseIndex.EncodeEntries | src/store_core/chunk/sparse_index.rs:59-65 | the loop prints the concatenation of the entries |
| SparseIndex.DecodeEntries | src/store_core/chunk/sparse_index.rs:88-103 | fails exactly on a ragged length, otherwise decodes entry by entry |
| SparseIndex.DecodeIndexBytes | src/store_core/chunk/sparse_index.rs:59-103 | every stored index comes back entry for entry |
| SparseIndex.PartitionPoint | src/store_core/chunk/sparse_index.rs:113-115 | on sorted entries it separates those at or before the target from the later ones |
| SparseIndex.LookupWindow | src/store_core/chunk/sparse_index.rs:105-127 | never leaves the chunk whatever the index holds; on sampled anchors it succeeds, starts at the largest sampled position before the upper bound and ends before a later timestamp |
| SparseIndex.WindowIsSound | src/store_core/chunk/sparse_index.rs:113-119 | the chosen window and its closed form from the data alone |
| ChunkFiles.ReadStep | src/store_core/chunk/file.rs:44-94 | one positioned read advances the cursor by what it delivered; a failure leaves it alone |
| ChunkFiles.FailuresLeaveNoTrace | src/store_core/chunk/file.rs:32-118 | failed seeks and reads leave no trace: without them the other calls of a reader return what they did |
| ChunkFiles.ReadsAreContiguous | src/store_core/chunk/file.rs:32-93 | however reads are sized, split, interrupted or failing, what they deliver joins up to one stretch of the file from the cursor on |
| ChunkFiles.ChunkFile.ReadExact | src/store_core/chunk/file.rs:32-42 | under any short and interrupted reads success means exactly the requested bytes; without a hard fault the only failure is the end of the file |
| ChunkFiles.ReadersAreIndependent | src/store_core/chunk/file.rs:9-13 | for every interleaving of calls, each reader gets what it would get alone |
| Layout.ReadHeader | src/store_core/chunk/header.rs:78-109 | reading in two steps returns the header the bytes determine |
| Layout.ReadIndex | src/store_core/chunk/sparse_index.rs:67-86 | reading the index returns the entries the bytes determine |
| Layout.Load | src/store_core/chunk/cache.rs:225-241 | loading a layout through any kernel behaviour returns the layout the bytes determine |
| ChunkWriter.PrintChunk | src/store_core/chunk/kline_writer.rs:59-117 | the printed bytes parse back to header and anchors and store the records |
| ChunkWriter.WrittenIsStored | src/store_core/chunk/kline_writer.rs:59-98 | header, anchors and records of a printed chunk are recovered exactly |
| ChunkWriter.WriteKlineChunk | src/store_core/chunk/kline_writer.rs:35-117 | accepts exactly ordered, nonempty input whose first and last month agree; the file stores the records, its header identifies chunk and series, and the returned entry has their bounds, count, identity and index |
| ChunkWriter.WrittenIsDescribed | src/store_core/chunk/kline_writer.rs:70-117 | header and catalog entry of every written chunk, field by field, from the records and options |
| ChunkWriter.WriteFixedChunk | src/store_core/chunk/fixed_writer.rs:35-140 | accepts exactly ordered input of the series' type whose records all share a partition; file, header and returned entry as above |
| ChunkWriter.EndpointsDecidePartition | src/store_core/chunk/kline_writer.rs:45-51 | for monotone partition keys the first/last check is as strict as the per-record loop |
| ChunkReader.SpanInRegion | src/store_core/chunk/kline_reader.rs:407-441 | every span inside the row count lies in the record region, with no overflow |
| ChunkReader.SpanDecodes | src/store_core/chunk/kline_reader.rs:398-404 | the bytes of a span decode to exactly those records |
| ChunkReader.ReadRecordSpan | src/store_core/chunk/kline_reader.rs:373-405 | returns the requested records; refuses exactly spans beyond the row count |
| ChunkReader.ReadTimestampAt | src/store_core/chunk/kline_reader.rs:357-371 | reads the timestamp of that record |
| ChunkReader.LowerBoundOnDisk | src/store_core/chunk/kline_reader.rs:237-257 | the probing search finds the true lower bound |
| ChunkReader.UpperBoundOnDisk | src/store_core/chunk/kline_reader.rs:259-279 | the probing search finds the true upper bound |
| ChunkReader.WindowLowerBound | src/store_core/chunk/fixed_reader.rs:121-129 | a search inside a window yields the later of true bound and window start, hence the true bound on strict records |
| ChunkReader.LowerBoundViaSparse | src/store_core/chunk/fixed_reader.rs:112-130 | equals max(true lower bound, chosen anchor); exact on strict records |
| ChunkReader.UpperBoundViaSparse | src/store_core/chunk/fixed_reader.rs:132-150 | exact for every record type |
| KlineReader.AppendRecordSpan | src/store_core/chunk/kline_reader.rs:407-441 | appends exactly the span; on failure the vector is unchanged |
| KlineReader.MergedWindows | src/store_core/chunk/kline_reader.rs:160-175 | cutting two merged windows to the range gives the filter |
| KlineReader.CompactTail | src/store_core/chunk/kline_reader.rs:173-174 | the overlapping move and truncation keep the prefix and the wanted rows |
| KlineReader.AppendMergedWindows | src/store_core/chunk/kline_reader.rs:160-176 | the merged-window route appends exactly the records in range |
| KlineReader.AppendShortRange | src/store_core/chunk/kline_reader.rs:158-198 | merged or separate sparse lookups append exactly the records in range |
| KlineReader.AppendRangeInFile | src/store_core/chunk/kline_reader.rs:138-219 | whichever route runs, the caller's prefix is kept and exactly the records in range are appended; failure needs a hard fault and changes nothing |
| KlineReader.AppendRangeInChunk | src/store_core/chunk/kline_reader.rs:51-72 | the same from the bare file: load layout, check schema, answer |
| KlineReader.FindByTsInFile | src/store_core/chunk/kline_reader.rs:86-136 | returns the unique record with that timestamp, or none |
| KlineReader.PlanRange | src/store_core/chunk/kline_reader.rs:553-581 | the plan names exactly the records in range, inverted and disjoint ranges included |
| KlineReader.PlanTail | src/store_core/chunk/kline_reader.rs:626-646 | the plan names exactly the last min(take, count) records |
| KlineReader.ReadPlanned | src/store_core/chunk/kline_reader.rs:583-624 | fills the destination with the planned records; refuses exactly a wrong size |
| FixedReader.AppendRangeInFile | src/store_core/chunk/fixed_reader.rs:60-93 | appends everything from the sparse lower bound to the upper bound; for strict types exactly the records in range |
| FixedReader.SparseLowerBoundExactly | src/store_core/chunk/fixed_reader.rs:112-130 | for non-decreasing timestamps, exact if and only if no record equal to the target precedes the chosen anchor |
| FixedReader.RangeReadExactly | src/store_core/chunk/fixed_reader.rs:60-93 | the range read equals the filter if and only if no such record is hidden |
| FixedReader.HiddenMeansSampleInsideRun | src/store_core/chunk/sparse_index.rs:48-56 | hidden records exist if and only if a sampled position lies strictly inside the run of equal timestamps |
| FixedReader.StrictTypesAreExact | src/store_core/chunk/fixed_reader.rs:60-93 | strict record types never lose a record |
| FixedReader.EqualTimestampsCanBeLost | src/types/trade.rs:43-43 | two sampled trades with one timestamp: the first is not returned |
| FixedReader.ReadTail | src/store_core/chunk/fixed_reader.rs:35-58 | the last min(n, count) records |
| SeriesMeta.Validate | src/types/meta.rs:218-255 | accepts exactly series with valid fields, valid chunks and neighbours in order |
| SeriesMeta.ValidatedBoundsAscend | src/types/meta.rs:218-255 | a validated series without empty chunks has globally ascending, disjoint bounds |
| SeriesMeta.EndSearchRightExactly | src/types/meta.rs:322-336 | an index separates the ends for every timestamp if and only if the ends ascend, and then the search finds it |
| SeriesMeta.StartSearchRightExactly | src/types/meta.rs:338-352 | an index separates the starts for every timestamp if and only if the starts ascend, and then the search finds it |
| SeriesMeta.FindRightExactly | src/types/meta.rs:257-286 | for any chunk list: the answer is the unique containing chunk, or none, for every timestamp if and only if the probes on the way to each chunk lead there |
| SeriesMeta.AscendingStartsReachable | src/types/meta.rs:257-286 | in a validated series ascending starts are enough for that |
| SeriesMeta.RangeRightExactly | src/types/meta.rs:288-304 | for any chunk list: exactly the overlapping chunks are selected for every range if and only if starts and ends ascend |
| SeriesMeta.EmptyChunkHidesAnother | src/types/meta.rs:172-304 | a validated series whose last chunk contains 17, where both searches miss it because of an empty chunk |
| SeriesMeta.FirstChunkWithEndGe | src/types/meta.rs:322-336 | the halving search, on any chunk list; separates whenever the ends ascend |
| SeriesMeta.FirstChunkWithStartGt | src/types/meta.rs:338-352 | the halving search, on any chunk list; separates whenever the starts ascend |
| SeriesMeta.FindChunkForTs | src/types/meta.rs:257-286 | an answer always contains the timestamp; it is the unique containing chunk, or none, whenever all chunks are reachable |
| SeriesMeta.FindChunksForRange | src/types/meta.rs:288-304 | exactly the overlapping chunks whenever starts and ends ascend; an empty answer is 0..0 |
| SeriesMeta.SelectedChunksSuffice | src/types/meta.rs:288-304 | filtering only the selected chunks equals filtering the whole series |
| SeriesMeta.SeriesQueryIsTheFilter | src/types/meta.rs:218-304 | on every validated series without empty chunks and for every range, filtering what the search selects equals filtering the whole series |
| SeriesMeta.RefusedExactly | src/types/meta.rs:172-255 | a series is refused exactly for its identity, its layout, a faulty chunk or neighbours out of order |
| SeriesMeta.WrittenIsCatalogued | src/store_core/chunk/kline_writer.rs:100-117 | the entry of a written chunk validates and bounds its records |
| SeriesMeta.WrittenSeriesAnswers | src/types/meta.rs:218-304 | a series of written chunks in order validates, and the chunks its search selects answer every range like filtering all records |
| ChunkStore.WriteThenQueryKlines | src/store_core/chunk/kline_reader.rs:51-72 | any accepted records, any sampling rate, any range: querying the written file appends exactly the records in range |
| ChunkStore.WriteThenQueryFixed | src/store_core/chunk/fixed_reader.rs:12-33 | any accepted records of any kind: querying the written file appends exactly the records in range if and only if no sampled position lies strictly inside the run of records equal to the start |
| ChunkStore.PlanThenRead | src/store_core/chunk/kline_reader.rs:553-624 | planning then reading equals the filter, hence equals appending the range |
| ChunkStore.PlanThenReadTail | src/store_core/chunk/kline_reader.rs:583-646 | planning a tail then reading gives the last records |
| ParallelRead.CutTasks | src/store_core/engine/parallel.rs:90-112 | for every list of spans and every task size the tasks fill the result without gap or overlap, and no offset overflows |
| ParallelRead.Groups | src/store_core/engine/parallel.rs:115-118 | consecutive groups of equal size that together are all tasks |
| ParallelRead.StepKeepsInvariant | src/store_core/engine/parallel.rs:54-55 | no worker ever touches a slot of another group, and what is filled is right |
| ParallelRead.FilledStaysFilled | src/store_core/engine/parallel.rs:54-55 | a filled slot is never written again |
| ParallelRead.EveryScheduleReadsTheSpans | src/store_core/engine/parallel.rs:54-136 | for every cutting, every grouping and every interleaving: once all workers have stopped, one failed and nothing is published, or every slot is initialised and the result is the spans one after the other |
| ParallelRead.ReadSpans | src/store_core/engine/parallel.rs:62-89 | one worker: the spans one after the other; refuses exactly sizes that do not fit |
| FileCache.QueueAndMapAgree | src/store_core/chunk/cache.rs:89-93 | when the queue lists each cached key once, queue and map have equal size |
| FileCache.Passed | src/store_core/chunk/cache.rs:147-154 | counts the leading keys whose bit is set, up to the first whose bit is clear |
| FileCache.EvictConsistent | src/store_core/chunk/cache.rs:145-159 | eviction removes exactly the first unreferenced key (or the head) and keeps queue and map consistent and every file in place |
| FileCache.InsertKeepsInvariant | src/store_core/chunk/cache.rs:140-168 | re-check, eviction and insertion keep the invariant and never change the file of a cached key |
| FileCache.RemoveKeepsInvariant | src/store_core/chunk/cache.rs:175-181 | invalidation keeps the invariant |
| FileCache.EvictExactly | src/store_core/chunk/cache.rs:145-159 | the first unreferenced key goes and the keys before it move to the back with cleared bits; if all are referenced, the head goes and all bits are clear |
| FileCache.InsertExactly | src/store_core/chunk/cache.rs:140-168 | a known key is only marked; a new one joins the back unmarked, and nothing is evicted while there is room |
| FileCache.RemoveExactly | src/store_core/chunk/cache.rs:175-181 | exactly the named key goes |
| FileCache.HitGrantsSecondChance | src/store_core/chunk/cache.rs:101-109 | a referenced entry survives an eviction while some entry is unreferenced |
| FileCache.HitSurvivesInsertion | src/store_core/chunk/cache.rs:101-109 | after a hit, an insertion into a full cache with another unreferenced key keeps the hit key |
| FileCache.ChunkFileCache.Lookup | src/store_core/chunk/cache.rs:127-133 | a hit returns the cached file and sets its bit; order and every other entry stay |
| FileCache.ChunkFileCache.Publish | src/store_core/chunk/cache.rs:139-172 | the write-locked part is the specified insertion and returns the cached or the opened file |
| FileCache.ChunkFileCache.PopFront | src/store_core/chunk/cache.rs:147-155 | one turn of the eviction loop passes over the head or evicts it |
| FileCache.ChunkFileCache.EvictOne | src/store_core/chunk/cache.rs:145-156 | no `expect` or lookup fails, at most queue length + 1 pops, and the result is the matching rotation with passed-over bits cleared |
| FileCache.ChunkFileCache.Invalidate | src/store_core/chunk/cache.rs:175-181 | removes the key from queue and map |
| FileCache.ChunkFileCache.Clear | src/store_core/chunk/cache.rs:183-188 | empties queue and map |
| CacheProtocol.StepKeepsInvariant | src/store_core/chunk/cache.rs:126-188 | every action of every thread keeps the invariant |
| CacheProtocol.EveryInterleavingIsSafe | src/store_core/chunk/cache.rs:126-188 | in every interleaving the queue lists each key once, sizes agree within capacity, and every reader or layout handed out is that of the key's own file |
| CacheProtocol.LoadKeeps | src/store_core/chunk/cache.rs:225-242 | a cached layout is always the one the key's file determines |
| CacheProtocol.AnswersAreFinal | src/store_core/chunk/cache.rs:143-144 | evictions, invalidations and clears never take back a reader already handed out |
| CacheProtocol.MissingWasAbsent | src/store_core/chunk/cache.rs:136-136 | every "missing file" ever answered was true when the thread opened the file |
| CacheProtocol.HitProtects | src/store_core/chunk/cache.rs:126-172 | between threads: a hit by one protects its key from the next insertion by another, if some other key is unreferenced |
| CacheProtocol.AloneServed | src/store_core/chunk/cache.rs:126-172 | a thread left alone gets a reader of its file, cached or not |
| CacheProtocol.LayoutIsCached | src/store_core/chunk/cache.rs:210-243 | a layout once parsed is handed to the next thread at once |
| Int64.WrapSumOfBounded | external-tests/fastk_bench/batches.py:64-67 | when magnitude times length fits int64 no partial sum wraps |
| ExactSum.Total | external-tests/fastk_bench/batches.py:59-70 | the mathematical sum, for every input |
| Signals.RsiInRange | external-tests/backtest/engine.py:55-74 | averages stay nonnegative and the RSI value stays in 0..100 |
| Signals.RsiSeed | external-tests/backtest/engine.py:57-63 | the averages are seeded with the mean rise and fall of the first fourteen changes, and the target stays flat before that |
| Signals.RsiSmoothing | external-tests/backtest/engine.py:64-74 | afterwards each average keeps 13/14 of itself, and the target only moves at the two thresholds |
| Signals.RsiTargetExactly | external-tests/backtest/engine.py:67-75 | after every close from the fifteenth on: long at an RSI of at most 30, flat at 70 or more, otherwise as before; flat until then |
| Signals.RsiIsWilders | external-tests/backtest/engine.py:68-69 | the value is 100 - 100 / (1 + gain / loss) |
| Signals.MomentumIsNetRise | external-tests/backtest/engine.py:33-34 | momentum is long exactly when the last sixty changes together rise |
| Signals.SmaIsRecentOverEarlier | external-tests/backtest/engine.py:39-46 | SMA is long exactly when the last twenty closes average more than the forty before them |
| Signals.FlatHistoryIsNeutral | external-tests/backtest/README.md:22-23 | an entirely flat history has RSI 50 and never goes long |
| Signals.GuardsAreMonotone | external-tests/backtest/engine.py:37-45 | a stretch of a history that passes the overflow guards passes them too |
| Signals.SmaIsExact | external-tests/backtest/engine.py:36-46 | under the guards no prefix sum, difference or product wraps, so the int64 comparison is the exact comparison of the 20- and 60-bar means |
| Signals.TailTargets | external-tests/backtest/engine.py:47-48 | sixty closes of context give the targets of the whole history |
| Signals.Desired | external-tests/backtest/engine.py:30-47 | the vectorised rules raise exactly on the guards and return the targets otherwise |
| Signals.Signal.Consume | external-tests/backtest/engine.py:27-48 | however closes arrive, the returned targets are those of the whole history; a guard raises without changing anything |
| Signals.Signal.ConsumeRsi | external-tests/backtest/engine.py:50-76 | the RSI loop returns the targets of the whole history |
| Simulator.SimAppend | external-tests/backtest/engine.py:93-123 | simulating on from where a stretch ended is simulating the whole |
| Simulator.TradeConserves | external-tests/backtest/engine.py:125-149 | cash and quantity times price balance up to the recorded fee, and the trade record says what happened |
| Simulator.TradeNeverGains | external-tests/backtest/engine.py:125-137 | slippage and fee are adverse: at the quoted price no trade gains |
| Simulator.BarKeepsOneSided | external-tests/backtest/engine.py:125-137 | unless the fee is 100%, exactly one of cash and units is in use, and it tells the position |
| Simulator.SaleProceeds | external-tests/backtest/engine.py:132-137 | a full sale returns nothing if and only if the fee is 100% |
| Simulator.QuoteScales | external-tests/backtest/engine.py:112-116 | a quoted price times the scale is the stored integer |
| Accounts.FlatNonzero | external-tests/backtest/engine.py:109-109 | lists exactly the changes, in order, with quiet stretches between |
| Accounts.SegmentMarks | external-tests/backtest/engine.py:113-119 | between events one formula gives the reference equity of the whole segment |
| Accounts.TradeAtEvent | external-tests/backtest/engine.py:115-117 | at an event the reference trades the previous target at the open |
| Accounts.Account.FillOrder | external-tests/backtest/engine.py:125-149 | the field updates, in the order the fill makes them, amount to the trade whose balance Simulator.TradeConserves states |
| Accounts.Account.RunEvents | external-tests/backtest/engine.py:104-119 | jumping from change to change gives the books and equity of the bar-by-bar run |
| Accounts.Account.Consume | external-tests/backtest/engine.py:93-123 | the vectorised batch is the reference batch, refused in exactly the same cases and then unchanged |
| Accounts.AcceptedExactly | external-tests/backtest/engine.py:97-103 | which batches are accepted, in full |
| Accounts.FillsFollowTargets | external-tests/backtest/engine.py:104-117 | every new fill executes, at some bar's open and adverse by the slippage, the target decided at the close before that bar |
| Accounts.BatchEnds | external-tests/backtest/engine.py:119-123 | one equity point a bar, the last one cash plus units at the last close; time and close are the last bar's |
| Accounts.PendingIsLastTarget | external-tests/backtest/engine.py:120-120 | the pending target is the strategy's at the last close |
| BatchIndependence.TwoBatchesAreOne | external-tests/backtest/engine.py:93-123 | an accepted batch is accepted in two parts with the same account and curve |
| BatchIndependence.BatchKeepsSound | external-tests/backtest/engine.py:107-107 | the invariant that makes the boundary test right survives every batch |
| BatchIndependence.CuttingChangesNothing | external-tests/backtest/engine.py:93-123 | for every cutting: if one batch is accepted, the batches are, with the same account, trades and curve |
| BatchIndependence.CutRunAcceptedWhole | external-tests/backtest/engine.py:97-103 | at every fee: one batch of everything is accepted if and only if the cut run is and the overflow guards pass on the whole |
| BatchCounterexamples.FullFeeBreaksBatching | external-tests/backtest/engine.py:107-107 | at a 100% fee any long-flat-long run trades three times in one batch and four times in two |
| BatchCounterexamples.AnyWhipsaw | external-tests/backtest/engine.py:27-76 | each strategy has accepted bars that drive it long, flat and long again |
| BatchCounterexamples.FaithfulExactlyOffFullFee | external-tests/backtest/run.py:80-84 | for each strategy, batching is faithful for every opening cash and cutting if and only if the fee is not 100% |
| BatchCounterexamples.GuardDependsOnBatching | external-tests/backtest/engine.py:37-38 | bars refused in one batch and accepted in two |
| Portfolio.UpdateWatch | external-tests/backtest/engine.py:187-190 | running maxima and worst ratio equal the point-by-point peak and drawdown |
| Portfolio.PeakIsMaximum | external-tests/backtest/engine.py:187-190 | the peak is the largest of the starting capital and all points |
| Portfolio.DrawdownIsWorst | external-tests/backtest/engine.py:188-189 | the drawdown is the worst fall from the peak so far |
| Portfolio.PortfolioSplit | external-tests/backtest/engine.py:178-192 | two even cuts of an accepted batch are accepted and leave the same portfolio |
| Portfolio.PortfolioBatchIndependence | external-tests/backtest/engine.py:178-192 | for every cutting of aligned bars: same trades, holdings, pending targets, curve, rows, peak and drawdown as one batch |
| Portfolio.LastPointIsWorth | external-tests/backtest/engine.py:178-203 | one curve point a timestamp, all bars counted, and the last point is what all accounts are worth at their last closes |
| Portfolio.OpeningSharesCapital | external-tests/backtest/engine.py:166-175 | the capital is shared out equally and completely to unused accounts and is the first peak |
| Portfolio.PortfolioAcceptedWhole | external-tests/backtest/engine.py:178-192 | at every fee: one batch of everything is accepted if and only if the cut run is and the overflow guards pass on every symbol's whole |
| Portfolio.OpeningIsSound | external-tests/backtest/engine.py:152-176 | every new portfolio whose fee is not 100% satisfies the theorem's premise |
| PortfolioFees.PortfolioFaithfulExactly | external-tests/backtest/run.py:80-84 | from every opening capital and for every cutting the batches leave the portfolio one batch leaves, if and only if no symbol trades at a 100% fee |
| PortfolioFees.UnfaithfulPortfolio | external-tests/backtest/engine.py:107-107 | for any portfolio with one symbol at a 100% fee, bars and a cutting that end in another portfolio |
| Backtest.Open | external-tests/backtest/engine.py:153-176 | refuses exactly the invalid parameters; otherwise every symbol gets an unused account with its equal share of the capital and the settings in basis points |
| Backtest.BacktestRun.ConsumeAccounts | external-tests/backtest/engine.py:179-186 | accepts exactly aligned frames every account accepts; returns the summed curve, or stops at the first account that refuses |
| Backtest.BacktestRun.Consume | external-tests/backtest/engine.py:178-192 | one call is the specified portfolio batch, refused in exactly the same cases; a refused batch leaves the accounts before the first refusal advanced and everything else as it was |
| Snapshot.SealSeries | src/snapshot.rs:56-70 | seals every active chunk, refuses exactly chunks in transition |
| Snapshot.SealSnapshot | src/snapshot.rs:33-90 | an existing snapshot is only verified; otherwise recovery runs and series are sealed up to the first chunk in transition, and a marker is written only if there is none |
| Snapshot.SealEverySeries | src/snapshot.rs:54-76 | the in-place loop seals exactly the series before the first one with a chunk in transition |
| Snapshot.SealedRootVerifies | src/snapshot.rs:31-37 | sealing succeeds exactly on roots that verify or on nonempty, clean, settled stores; the result verifies, pinned or not, and sealing it again changes nothing |
| Snapshot.SealingExactly | src/snapshot.rs:38-89 | an unmarked root is sealed exactly if it is clean, not empty and without chunks in transition; then every chunk is sealed and nothing else has changed |
| Snapshot.RefusedSealKeepsData | src/snapshot.rs:46-76 | a refused seal writes no marker and only seals active chunks, none from the first series in transition on |
| Snapshot.PinnedDigestFixesRoot | src/snapshot.rs:92-117 | against the digest of a sealed root any root verifies if and only if content and snapshot file are the sealed ones and no recovery is pending |
| Snapshot.UnpinnedContentIsFree | src/snapshot.rs:92-117 | without the digest every content verifies with a snapshot file of its own |
| Registry.DatasetRegistry.UpsertDataset | src/control/dataset_registry.rs:201-247 | inserts or updates unless bound; a bound key accepts only its own row |
| Registry.UpsertExactly | src/control/dataset_registry.rs:201-247 | refused exactly for malformed rows and changes to a bound key, changing nothing; otherwise stores the row and nothing else |
| Registry.DatasetRegistry.PublishDataset | src/control/dataset_registry.rs:251-273 | is the publishing transition of the run theorems, failed seals and rolled-back transactions included; nothing bound changes |
| Registry.FirstPublish | src/control/dataset_registry.rs:264-272 | succeeds exactly for a well-formed row with a sealable root; answers the row with status and digest filled in, binds it, and leaves every other key alone |
| Registry.RepublishAnswersSealed | src/control/dataset_registry.rs:253-263 | over every run, publishing a bound key again changes nothing and answers the first row exactly while the root is the sealed one |
| Registry.DatasetRegistry.Commit | src/control/dataset_registry.rs:268-272 | the transaction writes both rows or rolls both back |
| Registry.DatasetRegistry.DatasetRoot | src/control/dataset_registry.rs:338-352 | a reference is handed out if and only if the key is unbound, or row and binding agree and the root still verifies |
| Registry.DatasetRegistry.ResolveDatasetRef | src/control/dataset_registry.rs:364-383 | resolves if and only if the registry holds this root for an available key |
| Registry.BindingsAreImmutable | src/control/dataset_registry.rs:201-273 | over every run each binding has a sealed row with its root and digest, and neither ever changes |
| Registry.BoundMeansSealedContent | src/control/dataset_registry.rs:251-273 | over every run after a publish, whatever happens to the roots, the row stays and the binding is accepted if and only if the root is the one that was sealed |
| Registry.RetryPublishesTheSame | src/control/dataset_registry.rs:265-272 | retrying after a rolled-back transaction ends in the catalog the first attempt would have produced |
| Session.NextFrame | examples/cli/session_transport.rs:19-41 | a returned frame has an allowed size and consumes input |
| Session.DecodeEncoded | examples/cli/session_transport.rs:19-53 | any list of written frames reads back as that list and a clean end |
| Session.DecodeTruncated | examples/cli/session_transport.rs:19-41 | any truncation gives the complete frames, and a clean end exactly at a frame boundary |
| Session.ServedInOrder | examples/cli/session_transport.rs:65-102 | accepted ids strictly increase; answer i carries the id of request i and its dispatched result or error; only an unsendable response leaves the last request unanswered |
| Session.AcceptedWerePermitted | examples/cli/session_transport.rs:66-75 | every accepted request is its frame's, with permitted arguments |
| Session.BehavedIsServed | examples/cli/session_transport.rs:65-102 | a client with increasing ids and permitted arguments gets every request accepted and every answer sent |
| Session.Transport.ReadFrame | examples/cli/session_transport.rs:19-41 | reading one byte, seven more and then the body gives the next frame however short the reads are |
| Session.Transport.WriteFrame | examples/cli/session_transport.rs:43-53 | appends the frame, or refuses exactly empty and oversized bodies |
| Session.Transport.Run | examples/cli/session_transport.rs:55-102 | the output is the greeting and the specified responses, frame by frame |
| Session.OutputDecodes | examples/cli/session_transport.rs:55-102 | the output reads back as the greeting and the responses |
| LatestParts.KeptFrom | external-tests/fastk_bench/backends.py:254-262 | the walk stops at the shortest suffix whose fully covered parts reach the limit |
| LatestParts.SelectionLosesNothing | external-tests/fastk_bench/data.py:202-209 | parts that do not overlap the query hold none of its rows |
| LatestParts.OracleFiltersEverything | external-tests/fastk_bench/data.py:198-233 | the oracle is the filter over every part, cut to its last rows |
| LatestParts.Prune | external-tests/fastk_bench/backends.py:253-262 | the loop keeps exactly that suffix |
| LatestParts.PruningExactly | external-tests/fastk_bench/backends.py:253-262 | the last rows of the kept parts are the last rows of all parts if and only if the kept parts hold enough matching rows or the dropped ones hold none |
| LatestParts.UnfilteredPruningIsSafe | external-tests/fastk_bench/backends.py:253-262 | without a value filter that is always so |
| LatestParts.FilteredLatestCanMiss | external-tests/fastk_bench/backends.py:308-313 | with a filter a covered last part without a match hides an earlier matching row |
| LatestExact.FilteredLatestExactly | external-tests/fastk_bench/backends.py:253-262 | from catalogue and query alone: a filtered latest query is right for every content of the files if and only if the covered parts behind the first overlapping one hold fewer rows than the limit |
| LatestExact.DroppedPartMatters | external-tests/fastk_bench/backends.py:253-262 | whenever a part is dropped, rows that match only there are lost |
| LatestParts.BothConditionsExactly | external-tests/fastk_bench/backends.py:308-313 | with an exact value and bounds, backend and oracle keep the same rows if and only if the value lies within the bounds or no row has it |
| LatestParts.ConflictShows | external-tests/fastk_bench/backends.py:308-313 | a row the backend returns and the oracle does not |
| LatestParts.TakeLatest | external-tests/fastk_bench/backends.py:315-325 | taking from the tail pieces gives the last rows of the concatenation |
| LatestParts.Files.Fetch | external-tests/fastk_bench/backends.py:290-304 | at most 64 tables stay cached, the one in use is kept and is the file's table |
| LatestParts.Files.Slice | external-tests/fastk_bench/backends.py:305-313 | the two sorted searches and the mask give the rows of the part the query asks for |
| LatestParts.Files.Query | external-tests/fastk_bench/backends.py:244-334 | for positive limits equals "filter everything, keep the last N" if and only if pruning is safe, hence always without a value filter; for limit 0 exactly when nothing matches; with conflicting conditions exactly when no part read has the exact value |
| Predicates.PruningIsExact | src/feature/query.rs:140-166 | for every partition into blocks, skipping blocks finds what a full scan finds, in order |
| Predicates.PredicatesRelate | src/feature/query.rs:86-108 | how the predicates relate: complements, conjunctions, sets as their members |
| Predicates.BoundsTestSharpExactly | src/feature/query.rs:140-166 | for all bounds a block is read if and only if some value in them matches, exactly for: nonempty closed intervals, open intervals that hold a value or that no bounds can meet, exclusion sets without neighbouring values, and every other predicate |
| Predicates.ConversionAgrees | src/feature/query.rs:169-191 | conversion fails exactly when legacy matching does and agrees on every candidate |
| Predicates.LegacyRelates | src/feature/query.rs:28-49 | how the legacy operators relate; the order of the two bounds does not matter |

## Left out

- ReadPlanned: says nothing about the destination after a failed read, because the source leaves it partly filled.
- WriteKlineChunk: requires that a buffer of exactly the file's length can be allocated; the source aborts otherwise.
- WriteFixedChunk: the same.
- Floating point: prices, units, averages and equity are reals; rounding, underflow and NaN are not modelled.
- Engine, manifest, recovery, locking, path and index sidecar code; the month key is an arbitrary partition function, monotone where a lemma needs it.
- SHA-256, checksums, JSON and command dispatch are parameters; the equity curve is the sequence of points that is hashed.
- The file system: a chunk file appears whole and never changes, so a cache key determines its bytes; the open-file limit and closing of files are not modelled.
- Unwinding and lock poisoning: a panic inside a critical section is shown impossible for the cache, and not modelled elsewhere.
- Session.Transport.ReadFrame: reads may be short but are not interrupted and do not fail; the source passes a failing read on as an error.
- SQL text, schema migrations, feature and factor registry rows, listing and latest-by-date lookups: plain row storage.
- Bid/ask, scalar and book-delta record codecs: one more instance each of the codec lemma.
- `Backtest.result`, which sorts trades and sums fees: a function of the modelled state, so equal for equal states.
- Sorting of the portfolio's symbols: the model takes them in sorted order.
- ParallelRead: the thresholds that choose task size and number of workers; task size and grouping are arbitrary here.
- Projections and the Parquet route of the file backend.
- Metrics, timing, packaging, benchmarks and the Python bindings.
