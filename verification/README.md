# Tapeline: a verified model

Tapeline ingests trades and L2 book updates from several venues, checks their sequence numbers, publishes
them to a log, turns them into quotes, bars and divergence alerts, and serves quotes under rate limits. This
project models the parts of it that carry state or arithmetic and proves what they guarantee over every run.

- **Order book** (`OrderBook.dfy`, `BookFidelity.dfy`, `BookFunction.dfy`, `SplitKey.dfy`): the sorted-map book
  and its checkpoint form, the same run of deltas through the trimmed book and through one that is never
  trimmed, and the keyed operator with its re-arming timer.
- **Sequence integrity** (`Gap.dfy`, `Binance.dfy`, `BinanceReconnect.dfy`, `Coinbase.dfy`, `Evm.dfy`): the gap
  detector, and the three ways venue counters are turned into numbers it can check, across a queue and reconnects.
- **Ingestion pipeline** (`Pipeline.dfy`): the batch loop with retry and drop-oldest.
- **Statistics and divergence** (`RollingStats.dfy`, `Divergence.dfy`, `DivergenceFunction.dfy`): the rolling
  baseline, the pairwise evaluation, and the operator that holds the latest quote per venue.
- **Bars** (`Aggregates.dfy`, `TradeWindow.dfy`): the trade aggregate as fold and merge, and tumbling windows.
- **Limits** (`TokenBucket.dfy`, `StreamThrottle.dfy`): the token bucket script and the stream throttle.

Code that updates fields is a class whose methods are proved equal to a function on its abstract state
(`BookFunction`, `Detector`, `Binance`, `Pipeline`, `MemoryProducer`, `DivergenceFunction`, `TradeBars`,
`RateLimiter`, `QuoteStream`, the decoders); runs of those functions, interleaved with everything else that can
happen, are datatypes, and the theorems are about every such run. Doubles are exact reals, integers are
unbounded, and a standard deviation is carried as its square.

Where the code and its documentation disagree the model follows the code:

- `imbalance` is documented as 0.0 for any one-sided book; the code (and its test) give 1 or -1
  (`ImbalanceRange`).
- `merge` is documented as commutative, and folding in parts as equal to folding in one pass; both fail on ties.
  `MergeCommutesIff`, `FoldConcatIff`, `OrderIndependentIffTieFree` and `AnyMergingIffTieFree` say exactly when
  they hold.
- The resync hook that is installed forgets a stream at each gap, so a loss right after a reported one is not
  counted. The sequence theorems take the hook as a parameter: `MissedIsExactIff`, `StreamMissedIff` and
  `NothingDroppedAndMissedIsExact` say exactly when the count is still exact, and `AdvanceIsAccountedFor` carries
  what it hides as a term (`ForgettingHidesTheNextLoss` is the smallest such loss).
- The reconnect hook resets the detector without checking that the venue's older events have left the queue;
  `FirstAfterReconnectIff` says exactly when that costs the new session its first update and
  `LostUntilStaleNumber` how many it costs (`StaleQueueDropsFirstUpdate` is such a run). The other theorems take
  the empty queue as a condition on the reconnect step.
- A depth frame that fails to decode has already moved its cursor; `DepthVerdict` states what the detector then
  says and exactly when that is what the range deserves (`LostFrameThenRetransmitLooksFine` is a loss that goes
  unreported).
- The `venue|symbol` key assumes that neither part holds a bar: `SplitKeyIff` and `KeySharedIff` say what happens
  otherwise (`BarsCollide` has two streams on one key and a key that reads back as the wrong pair).
- A gapped event dropped by configuration is counted only as a gap (`StateAfter` states the balance either way).
- The requested update rate is unsigned on the wire and signed where it is read; `IntervalThrottlesIff` and
  `MaxRateIsKeptIff` say for which values the throttle works.

## Model

| member | source | states |
|---|---|---|
| OrderBooks.UpdatedIsMapUpdate | stream/src/main/scala/io/tapeline/stream/book/OrderBook.scala:228-229 | inserting into the ordered listing is a map update: it changes the size at one price only |
| OrderBooks.UpdatedSorted | stream/src/main/scala/io/tapeline/stream/book/OrderBook.scala:182-186 | inserting keeps best-price-first order on either side |
| OrderBooks.RemovedIsMapRemove | stream/src/main/scala/io/tapeline/stream/book/OrderBook.scala:228-229 | removing makes exactly one price absent |
| OrderBooks.SideExtensional | stream/src/main/scala/io/tapeline/stream/book/OrderBook.scala:19-24 | a stored side is determined by its price-to-size map |
| OrderBooks.PatchSideLastWriteWins | stream/src/main/scala/io/tapeline/stream/book/OrderBook.scala:224-230 | after an incremental update each price holds the last write to it, a last write of zero deletes, untouched prices keep their size, and the side stays ordered and positive |
| OrderBooks.BuildSideLastPositiveWins | stream/src/main/scala/io/tapeline/stream/book/OrderBook.scala:217-222 | a snapshot holds per price the last positive size; zero levels are simply not part of the book |
| OrderBooks.BuildEqualsPatchIff | stream/src/main/scala/io/tapeline/stream/book/OrderBook.scala:217-230 | loading levels as a snapshot and patching them onto nothing agree exactly when no price ends on a zero after a positive size |
| OrderBooks.BuildSideArrays | stream/src/main/scala/io/tapeline/stream/book/OrderBook.scala:203-215 | the rebuild loop yields the ordered side holding each price's last positive size, stopping at the shorter array |
| OrderBooks.SnapshotRoundTrip | stream/src/main/scala/io/tapeline/stream/book/OrderBook.scala:128-137 | a book survives being flattened and rebuilt exactly when its prices are strictly ordered and its sizes positive |
| OrderBooks.AppliedSizes | stream/src/main/scala/io/tapeline/stream/book/OrderBook.scala:67-82 | a snapshot replaces both sides, an update patches them price by price, and sequence and event time are the delta's |
| OrderBooks.ApplyTrimKeepsValid | stream/src/main/scala/io/tapeline/stream/book/OrderBook.scala:67-96 | applying and trimming keep order, positive sizes and the depth limit on both sides |
| OrderBooks.ImbalanceRange | stream/src/main/scala/io/tapeline/stream/book/OrderBook.scala:51-57 | imbalance is strictly inside (-1, 1) iff neither or both sides hold levels, 1 or -1 iff one-sided, positive iff bid-heavy, and flips sign when the sides are swapped |
| OrderBooks.ImbalanceSplitsSizes | stream/src/main/scala/io/tapeline/stream/book/OrderBook.scala:51-57 | imbalance times the size resting within the depth on both sides is bid size less ask size, level by level; at depth one, of the two sizes at the touch |
| OrderBooks.QuoteReadsTheTouch | stream/src/main/scala/io/tapeline/stream/book/OrderBook.scala:99-113 | a quote exists iff both sides are populated and reads the highest bid and lowest ask with their sizes |
| BookFidelity.ReachableBooksValid | stream/src/main/scala/io/tapeline/stream/functions/BookFunction.scala:59-73 | every reachable book, trimmed or not, is ordered with positive sizes, and the kept one is within depth |
| BookFidelity.KeptIsSubMapOfFull | stream/src/main/scala/io/tapeline/stream/functions/BookFunction.scala:59-73 | in every run each side of the kept book is a sub-map of the never-trimmed one |
| BookFidelity.TrimmingNeverFlatters | stream/src/main/scala/io/tapeline/stream/book/OrderBook.scala:35-96 | with no bound on deletions, trimming never improves a best price and never manufactures a crossed book |
| BookFidelity.KeptTopIsExact | stream/src/main/scala/io/tapeline/stream/book/OrderBook.scala:67-96 | after any run the kept side and the never-trimmed side agree on their first maxDepth - n levels, n being the levels deleted since the last snapshot |
| BookFidelity.KeptTopIsExactByZeros | stream/src/main/scala/io/tapeline/stream/book/OrderBook.scala:67-96 | the same bound counted from the zero-size updates of the input alone |
| BookFidelity.QuoteIsExact | stream/src/main/scala/io/tapeline/stream/book/OrderBook.scala:84-113 | best prices and the crossed flag are exact while fewer than maxDepth levels per side were deleted, and the whole quote while the imbalance depth still fits |
| BookFidelity.DepthBoundIsTight | stream/src/main/scala/io/tapeline/stream/book/OrderBook.scala:84-96 | for every depth and every number of deletions some run is wrong one level below the bound |
| BookFidelity.QuoteBoundIsTight | stream/src/main/scala/io/tapeline/stream/book/OrderBook.scala:84-113 | for every depth, imbalance depth and number of deletions past the bound some quote differs, and with all levels deleted the best price does |
| SplitKey.SplitKeyIff | stream/src/main/scala/io/tapeline/stream/functions/BookFunction.scala:119-148 | a key reads back as its venue and symbol exactly when neither holds a bar and the symbol is not empty |
| SplitKey.KeyInjective | stream/src/main/scala/io/tapeline/stream/functions/BookFunction.scala:139-147 | without bars in the venue, different streams have different keys |
| SplitKey.KeySharedIff | stream/src/main/scala/io/tapeline/stream/functions/BookFunction.scala:147 | a stream shares its key with some other stream iff its venue or its symbol holds a bar |
| BookOperator.BookFunction.ProcessElement | stream/src/main/scala/io/tapeline/stream/functions/BookFunction.scala:53-76 | loads, applies, trims, stores, counts and arms, changing nothing of any other key |
| BookOperator.BookFunction.OnTimer | stream/src/main/scala/io/tapeline/stream/functions/BookFunction.scala:100-136 | re-arms first, then emits the book's quote only if it may be served and differs from the last one |
| BookOperator.PendingTimers | stream/src/main/scala/io/tapeline/stream/functions/BookFunction.scala:94-98 | pending timers are on the grid and never past the next tick, and the last arming of a key is always still pending |
| BookOperator.TimerNeverDies | stream/src/main/scala/io/tapeline/stream/functions/BookFunction.scala:78-106 | from a key's first element on (or the first after a restore without timers) a timer is always pending, and at most one lies after now, the next tick |
| BookOperator.StoredBookIsKeptBook | stream/src/main/scala/io/tapeline/stream/functions/BookFunction.scala:59-73 | a key's stored book is the checkpoint of its own deltas' trimmed book, whatever other keys and timers did |
| BookOperator.EmissionsAreGood | stream/src/main/scala/io/tapeline/stream/functions/BookFunction.scala:111-136 | every quote ever emitted has 0 < bid < ask, positive sizes and imbalance inside (-1, 1), and differs from its key's previous one in more than emit time |
| BookOperator.TickPublishesTheBook | stream/src/main/scala/io/tapeline/stream/functions/BookFunction.scala:105-135 | after a tick the last quote published for a key is what its book says, and an unservable book publishes nothing |
| BookOperator.ServableIff | stream/src/main/scala/io/tapeline/stream/functions/BookFunction.scala:108-124 | a key naming a venue and a symbol is quoted iff its book has a best bid and a best ask with 0 < bid < ask; nothing else withholds a quote |
| BookOperator.KeyedDeltasAreOwn | stream/src/main/scala/io/tapeline/stream/functions/BookFunction.scala:53-60 | while no venue name holds a bar, the deltas a key's book is built from are exactly those of its venue and symbol |
| BookOperator.ServedQuoteIsTrue | stream/src/main/scala/io/tapeline/stream/functions/BookFunction.scala:108-124 | within the deletion bound, what is served is the quote of the book that was never trimmed or checkpointed |
| BookOperator.CountersCount | stream/src/main/scala/io/tapeline/stream/functions/BookFunction.scala:63-135 | the crossed counter counts deltas leaving their own key's book crossed, the snapshot counter snapshots, and each tick with a crossed or servable book counts once, as emitted or suppressed |
| Gap.Detector.Observe | ingest/internal/gap/detector.go:99-139 | returns the verdict and remembers the number unless it is unsequenced or a duplicate |
| Gap.Detector.ResetVenue | ingest/internal/gap/detector.go:150-158 | forgets exactly the streams of one venue |
| Gap.ExpectedNext | ingest/internal/gap/detector.go:107-138 | a duplicate does not move the stream, any other verdict makes it expect the following number, and the tolerance separates duplicates from resets |
| Gap.AcceptedTilesRange | ingest/internal/gap/detector.go:99-139 | on any regression-free stretch of one stream accepted numbers strictly increase and with the reported intervals tile [first, last], so last - first is what was accepted plus what was missing |
| Gap.DuplicateWasCovered | ingest/internal/gap/detector.go:127-138 | from the first number on, a duplicate or regression verdict means exactly that the number was accepted or written off before |
| Gap.StreamsAreIndependent | ingest/internal/gap/detector.go:81-139 | observations and resets of other streams never change a verdict |
| Gap.ForgettingUndercounts | ingest/cmd/ingestd/main.go:178-182 | when each gap makes the detector forget the stream, what the reports add up to is at most the numbers left out, and all of them iff no two consecutive numbers both skip some |
| Gap.SettledNumber | ingest/internal/gap/detector.go:99-147 | after numbers that never fall the detector knows the last one, unless the hook has just forgotten it after a reported gap |
| BinanceSequence.Binance.DenseSequence | ingest/internal/venue/binance.go:316-351 | advances one symbol's cursor by its range and returns the dense number, leaving other symbols alone |
| BinanceSequence.ReachableInv | ingest/internal/venue/binance.go:316-359 | in every interleaving each queued update follows what the detector will know when it is reached, and no cursor falls behind |
| BinanceSequence.DepthVerdict | ingest/internal/venue/binance.go:275-351 | the verdict on any dequeued update counts its cursor's advance since the previously delivered one (or is First right after a forgotten gap), and is the one its range deserves iff the updates lost in between moved the dense number by as much as they shortened the distance to the range |
| BinanceSequence.DepthKeyIff | ingest/internal/pipeline/pipeline.go:317-330 | an event is checked in a symbol's depth stream iff it is a book delta of that symbol from this venue |
| BinanceSequence.CursorIsHighest | ingest/internal/venue/binance.go:316-351 | in every run with forward ranges a symbol's cursor stands at the largest final id decoded for it since the cursors were cleared |
| BinanceSequence.RangesAreClassifiedExactly | ingest/internal/venue/binance.go:333-350 | without decode failures an update [U, u] is OK iff U = prev + 1, a gap of exactly U - prev - 1 iff U > prev + 1, a duplicate iff U <= prev, prev being the largest final id delivered of the symbol this session; with the resync hook the one right after a reported gap is First instead, without it none is |
| BinanceSequence.AdvanceIsAccountedFor | ingest/internal/venue/binance.go:275-350 | decode failures or not, a drained symbol's cursor (as of its latest enqueued update) has advanced by accepted widths plus all missing plus new tails of retransmits plus, with the resync hook only, what was skipped right after reported gaps, plus what lost frames covered beyond what they counted for, which is never negative and zero without decode failures |
| BinanceReconnect.MemoryIsTaken | ingest/cmd/ingestd/main.go:137-146 | in every run, waiting for the queue or not, what the detector remembers of a symbol is what it dequeued of it since it was last cleared |
| BinanceReconnect.FirstAfterReconnectIff | ingest/cmd/ingestd/main.go:137-146 | after a reconnect from any reachable state, under any interleaving short of another one, a symbol's first new update is First iff none of its updates was still queued (or, with the hook, the last of them was forgotten as a gap); otherwise it is judged by the last stale number |
| BinanceReconnect.LostUntilStaleNumber | ingest/cmd/ingestd/main.go:137-146 | with that number p remembered and within the tolerance, every new update numbered at most p is dropped as a duplicate, and the first one past p resumes the count there |
| Coinbase.DecodeTrades | ingest/internal/venue/coinbase.go:119-181 | all trades of a frame in order, the first carrying the envelope's number and the rest none; any unparsable trade rejects the frame |
| Coinbase.DecodeL2 | ingest/internal/venue/coinbase.go:183-232 | one delta per event with updates, sides split in order, the number on the first one only |
| Coinbase.TradeIsText | ingest/internal/venue/coinbase.go:150-175 | a decoded trade carries the numbers its texts parse to, its own ids and times, and BUY, SELL or UNKNOWN by the side words |
| Coinbase.UpdateIsLevel | ingest/internal/venue/coinbase.go:212-221 | an update marked bid is a bid level and one marked offer an ask level, at the parsed price and size |
| Coinbase.DecodedIsFramed | ingest/internal/pipeline/pipeline.go:241-299 | a decoded event that is framed goes to its kind's topic under its own symbol, venue and time with the encoder's output |
| Coinbase.DecodedConnectionChecks | ingest/internal/venue/coinbase.go:139-228 | checking every event a connection's frames decode to, trades or deltas of any symbols, is checking each frame's number followed by unsequenced ones |
| Coinbase.NothingDroppedAndMissedIsExact | ingest/internal/venue/coinbase.go:128-145 | over increasing frame numbers nothing is a duplicate or a regression under any hook and gaps counts the frames that skip numbers (with the hook, the reported ones); missed is last - first + 1 less the frames that yielded something, with the resync hook at most that and exactly that iff no two consecutive frames both skip numbers |
| Coinbase.StampingAllDropsTheRest | ingest/internal/venue/coinbase.go:128-138 | stamping every event would lose all but one event of every frame without a hook, all but one or two with it |
| Evm.Decoder.Decode | ingest/internal/onchain/evm.go:130-242 | only transfers yield an event, sequenced by block iff the block is a new highest |
| Evm.ChainKeyIff | ingest/internal/pipeline/pipeline.go:317-322 | an event is checked in a connection-scoped chain's stream iff it is from that chain |
| Evm.NoTransferIsDropped | ingest/internal/onchain/evm.go:228-232 | under any block order, interleaving, reconnects and either resync policy no transfer is a duplicate or regression, and gaps count the blocks skipped since the one remembered |
| Evm.SequencedAreRecordHighs | ingest/internal/onchain/evm.go:228-232 | the sequenced events are exactly the strict record highs of the block numbers |
| IngestPipeline.SameStreamIff | ingest/internal/pipeline/pipeline.go:312-322 | two events share a stream iff they are of one venue and, unless its counter spans the connection, of one symbol and kind |
| IngestPipeline.OtherSymbolsDoNotMatter | ingest/internal/pipeline/pipeline.go:202-234 | on a venue that sequences symbols separately, removing every arrival of other symbols from a run changes nothing about what this symbol's arrivals are admitted as |
| IngestPipeline.DefaultsOnlyFillIn | ingest/internal/pipeline/pipeline.go:91-105 | defaults replace sizes that are not positive and leave configured ones alone |
| IngestPipeline.PublishedCarryArrivals | ingest/internal/pipeline/pipeline.go:241-299 | in every run each published or pending message is some arrival's, with its kind's topic, its symbol as key and the encoder's output as value |
| IngestPipeline.SymbolOrderIsKept | ingest/internal/pipeline/pipeline.go:284-296 | in every run each symbol's published then pending messages are what its own arrivals were admitted as, in arrival order, less exactly those of them that were dropped |
| IngestPipeline.StateAfter | ingest/internal/pipeline/pipeline.go:127-198 | at every loop head received = published + duplicates + encode errors + dropped + pending (+ gaps if dropped by configuration); published then pending is the accepted messages in order without exactly the dropped ones; the batch is at most max(BatchSize - 1, MaxPendingEvents) |
| IngestPipeline.FlushDropsOldestOnly | ingest/internal/pipeline/pipeline.go:127-151 | a failed flush drops only the oldest that do not fit, a successful one nothing |
| IngestPipeline.ArrivalWaitsForFullBatch | ingest/internal/pipeline/pipeline.go:186-193 | an accepted arrival waits in the batch until it fills it, and only then is anything flushed |
| IngestPipeline.NoDropsNoLoss | ingest/internal/pipeline/pipeline.go:83-88 | nothing was dropped iff every accepted message is published or pending |
| IngestPipeline.RecoveryDeliversAll | ingest/internal/pipeline/pipeline.go:121-126 | once the broker is back one tick publishes every survivor and drops nothing more |
| IngestPipeline.AcceptedIsAdmitted | ingest/internal/pipeline/pipeline.go:202-234 | which messages are accepted, and the duplicate, gap and missed counters, depend on the detector's runs alone, not on batching or failures |
| IngestPipeline.MissedIsExactIff | ingest/cmd/ingestd/main.go:178-182 | over rising numbers of one stream missed is last - first + 1 - count without a hook; with the one that is installed it is at most that, and exactly that iff no two consecutive events both skip some; nothing is a duplicate, and gaps counts the reported jumps |
| IngestPipeline.MissedIsSumOverStreams | ingest/internal/pipeline/pipeline.go:202-234 | in every run whose streams' numbers rise between reconnects, nothing is a duplicate and missed is the sum over the interleaved streams of what each alone would report, epoch by epoch |
| IngestPipeline.StreamMissedIff | ingest/cmd/ingestd/main.go:178-182 | each term of that sum is what its stream left out without a hook, and with it at most that and exactly that iff no epoch jumps twice in a row |
| IngestPipeline.Pipeline.FlushBatch | ingest/internal/pipeline/pipeline.go:127-151 | the retry buffer in place: publish all, or keep all but the oldest overflow |
| IngestPipeline.Pipeline.ReceiveEvent | ingest/internal/pipeline/pipeline.go:167-193 | one event checked, framed, batched and flushed as specified |
| IngestPipeline.Pipeline.RunScript | ingest/internal/pipeline/pipeline.go:91-199 | the whole loop with its two endings balances, and what is left over is exactly the unpublished batch |
| Rolling.WindowIsLastFinites | stream/src/main/scala/io/tapeline/stream/stats/RollingStats.scala:34-46 | after any run the window is the last capacity finite inputs and the incremental sums equal their recomputation |
| Rolling.ScatterNonNegative | stream/src/main/scala/io/tapeline/stream/stats/RollingStats.scala:50-60 | n times the sum of squares is at least the squared sum, with equality iff the window is constant |
| Rolling.ClampHidesNothing | stream/src/main/scala/io/tapeline/stream/stats/RollingStats.scala:55-72 | in exact arithmetic the clamp never acts, and the deviation is zero iff the window is constant |
| Rolling.Samuelson | stream/src/main/scala/io/tapeline/stream/stats/RollingStats.scala:48-73 | no value of a window is further from its mean than (n - 1) / sqrt(n) sample deviations |
| Rolling.FoldingFirstDampens | stream/src/main/scala/io/tapeline/stream/stats/RollingStats.scala:34-73 | at every threshold: on a window that is not constant, a score read after its observation was folded in is never larger, and strictly smaller unless the observation is the mean |
| Rolling.ConstantWindowScores | stream/src/main/scala/io/tapeline/stream/stats/RollingStats.scala:64-73 | a constant window scores 0 whatever comes; after folding in any other value the score is exactly (n - 1) / sqrt(n) |
| Rolling.FoldingFirstSilencesAlerts | stream/src/main/scala/io/tapeline/stream/stats/RollingStats.scala:34-73 | the extreme case: read afterwards, no score reaches a threshold above (n - 1) / sqrt(n) |
| Rolling.MirrorFlipsScores | stream/src/main/scala/io/tapeline/stream/stats/RollingStats.scala:48-73 | opposite observations give opposite deviations and the same variance and decisions |
| Rolling.ScoreFromValues | stream/src/main/scala/io/tapeline/stream/stats/RollingStats.scala:68-73 | threshold decisions are those of the recomputed mean and unclamped variance |
| Divergence.BpsProperties | stream/src/main/scala/io/tapeline/stream/divergence/Divergence.scala:43-54 | for valid quotes the measure exists and times the sum of the two mids is 20000 times half their difference, so it is strictly inside +-20000, has the sign of the difference of mids and flips when swapped |
| Divergence.CanonicalPairIsUnordered | stream/src/main/scala/io/tapeline/stream/divergence/Divergence.scala:56-60 | two pairs share a baseline iff they are the same two venues |
| Divergence.OrderIrrelevant | stream/src/main/scala/io/tapeline/stream/divergence/Divergence.scala:82-95 | the result does not depend on the order the quotes map yields its values |
| Divergence.PairsAreIndependent | stream/src/main/scala/io/tapeline/stream/divergence/Divergence.scala:74-132 | the threaded fold equals deciding each fresh pair against the input baselines; each is observed once under its key, others are unchanged |
| Divergence.AlertFiresIff | stream/src/main/scala/io/tapeline/stream/divergence/Divergence.scala:99-113 | an alert fires iff the baseline is warm, the divergence large, and far enough from the mean of a non-constant window |
| Divergence.AlertContents | stream/src/main/scala/io/tapeline/stream/divergence/Divergence.scala:117-128 | an alert names the two venues with their mids and signed divergence, the score against the baseline as it was, and the times of the older and the newer quote |
| Divergence.FreshUntilMaxAge | stream/src/main/scala/io/tapeline/stream/divergence/Divergence.scala:80-88 | a stored quote is compared iff its prices are positive and not crossed and its age is at most the maximum |
| Divergence.SwapMirrorsDecision | stream/src/main/scala/io/tapeline/stream/divergence/Divergence.scala:44-54 | swapping venues flips the signs of divergence and score and nothing else |
| Divergence.ReadingAfterwardsLosesAlerts | stream/src/main/scala/io/tapeline/stream/divergence/Divergence.scala:101-107 | why the baseline is read before the observation is folded in: on a warm baseline that is not constant, at any threshold, whatever would fire afterwards fires before |
| Divergence.ConstantBaselineFiresOnlyAfterwards | stream/src/main/scala/io/tapeline/stream/divergence/Divergence.scala:101-114 | the exception: a warm constant baseline never fires, and read afterwards would on any other large enough divergence once it has enough observations for the threshold |
| Divergence.ReadingAfterwardsNeverFires | stream/src/main/scala/io/tapeline/stream/divergence/Divergence.scala:101-107 | the extreme case, for thresholds above (n - 1) / sqrt(n) only (3.0 up to ten observations): reading afterwards never fires at all |
| DivergenceOperator.DivergenceFunction.ProcessElement | stream/src/main/scala/io/tapeline/stream/functions/DivergenceFunction.scala:50-86 | a late quote changes nothing; any other is stored and all pairs evaluated as of its event time, for every listing order; every baseline keeps sums equal to their recomputation |
| DivergenceOperator.LatestIsLastMaximal | stream/src/main/scala/io/tapeline/stream/functions/DivergenceFunction.scala:56-61 | over any run a venue's stored quote is the last to arrive among those of maximal event time |
| DivergenceOperator.BaselineHoldsDivergences | stream/src/main/scala/io/tapeline/stream/functions/DivergenceFunction.scala:56-80 | over any run a pair's baseline holds exactly the last baselineWindow divergences measured when both its venues were fresh |
| Aggregates.MergeIsAMonoid | stream/src/main/scala/io/tapeline/stream/stats/Aggregates.scala:54-68 | merge is associative with the empty aggregate neutral, without any tie condition |
| Aggregates.MergeCommutesIff | stream/src/main/scala/io/tapeline/stream/stats/Aggregates.scala:50-68 | merge commutes iff the sides do not tie at an end with different prices |
| Aggregates.FoldDescribes | stream/src/main/scala/io/tapeline/stream/stats/Aggregates.scala:26-48 | a fold has the batch's count, sums, price range, and an opening and closing price of trades at its earliest and latest event times |
| Aggregates.FoldConcatIff | stream/src/main/scala/io/tapeline/stream/stats/Aggregates.scala:26-98 | folding in parts and merging equals one pass iff the parts do not tie on the latest event time with different closes |
| Aggregates.OrderIndependentIffTieFree | stream/src/main/scala/io/tapeline/stream/stats/Aggregates.scala:26-98 | the fold ignores arrival order iff trades sharing the earliest event time agree on price and likewise the latest |
| Aggregates.AnyMergingIffTieFree | stream/src/main/scala/io/tapeline/stream/stats/Aggregates.scala:26-98 | however a batch is reordered, split, folded in parts and merged in whatever shape, the result is its one-pass fold iff the batch is tie-free |
| Aggregates.PricesInRange | stream/src/main/scala/io/tapeline/stream/stats/Aggregates.scala:70-85 | open, close and (with volume) the volume-weighted price lie between low and high |
| TradeWindows.TradeBars.Process | stream/src/main/scala/io/tapeline/stream/functions/TradeWindow.scala:22-34 | a valid trade is folded into its own key's window and no other |
| TradeWindows.TradeBars.FireAll | stream/src/main/scala/io/tapeline/stream/functions/TradeWindow.scala:40-68 | firing every window in any order yields one bar each and nothing else |
| TradeWindows.WindowIsFoldOfItsTrades | stream/src/main/scala/io/tapeline/stream/functions/TradeWindow.scala:22-34 | incremental window state is the fold of exactly the trades that belong there |
| TradeWindows.BarsConserveTotals | stream/src/main/scala/io/tapeline/stream/jobs/TradesJob.scala:63-74 | in whatever order windows fire, trade counts and volumes of the emitted bars add up to those of the valid input |
| TradeWindows.EveryBarIsSound | stream/src/main/scala/io/tapeline/stream/functions/TradeWindow.scala:40-68 | every valid trade lies within the bounds and range of a bar named after its venue and symbol |
| TradeWindows.BarIsItsTrades | stream/src/main/scala/io/tapeline/stream/functions/TradeWindow.scala:22-68 | a bar opens at the price of a trade nothing precedes, closes at that of one nothing follows, attains its high and low, counts and sums its trades, prices their notional per unit, and spans one window |
| TradeWindows.IgnoredIff | stream/src/main/scala/io/tapeline/stream/functions/Mappers.scala:45-68 | a trade leaves the windows unchanged iff it lacks a time, a price or a symbol or its size is negative |
| TradeWindows.InExactlyOneBar | stream/src/main/scala/io/tapeline/stream/functions/Mappers.scala:45-68 | of its key's windows a trade is in exactly the one whose microsecond bounds hold it |
| TradeWindows.ReplayRebuildsBars | stream/src/main/scala/io/tapeline/stream/jobs/TradesJob.scala:58-74 | every replay of the same trades rebuilds the same windows iff none ties at an end with different prices |
| TokenBucket.RateLimiter.TryConsume | serving/src/main/java/io/tapeline/serving/security/TokenBucketRateLimiter.java:40-125 | one atomic refill, spend and write-back on one key, rejecting non-positive limits and letting the request through when the store does not reply |
| TokenBucket.DecisionIsHonoured | serving/src/main/java/io/tapeline/serving/security/TokenBucketRateLimiter.java:52-78 | an absent bucket allows every cost up to the capacity; a positive cost is answered allowed iff it was taken from the refilled tokens; a denial takes nothing, leaves less than was asked for and names a wait |
| TokenBucket.TimeToLive | serving/src/main/java/io/tapeline/serving/security/TokenBucketRateLimiter.java:68-70 | an idle key outlives the time to refill from empty by one to two seconds |
| TokenBucket.TokensStayInRange | serving/src/main/java/io/tapeline/serving/security/TokenBucketRateLimiter.java:52-66 | a bucket never goes into debt under any clock, and stays within capacity for non-negative costs |
| TokenBucket.NegativeCostOverfills | serving/src/main/java/io/tapeline/serving/security/TokenBucketRateLimiter.java:62-66 | a negative cost is not rejected and leaves more than the capacity |
| TokenBucket.AdmissionBound | serving/src/main/java/io/tapeline/serving/security/TokenBucketRateLimiter.java:52-68 | over any stretch of calls the cost answered allowed is at most capacity plus the refill for the time the clock moved forward |
| TokenBucket.AdmissionBoundIsAttained | serving/src/main/java/io/tapeline/serving/security/TokenBucketRateLimiter.java:52-68 | a full bucket spent at once and then its refill reach that bound exactly |
| TokenBucket.BackwardClockMintsAgain | serving/src/main/java/io/tapeline/serving/security/TokenBucketRateLimiter.java:57-68 | after the clock has gone back, the time forward from there mints in full once more, which attains the bound again |
| TokenBucket.ForwardIsElapsed | serving/src/main/java/io/tapeline/serving/security/TokenBucketRateLimiter.java:57-60 | with a clock that never goes back that time is the elapsed time |
| TokenBucket.ExpiryIsUnobservable | serving/src/main/java/io/tapeline/serving/security/TokenBucketRateLimiter.java:52-70 | on a shared non-decreasing clock an expiring bucket answers every call as one that never expires |
| TokenBucket.RemainingIsSpendable | serving/src/main/java/io/tapeline/serving/security/TokenBucketRateLimiter.java:78 | the remaining tokens reported are the largest cost a further call at that moment would be allowed |
| TokenBucket.RetryAfterIsExact | serving/src/main/java/io/tapeline/serving/security/TokenBucketRateLimiter.java:72-78 | after a denial, waiting k whole seconds is enough iff k is at least the advertised retry-after |
| TokenBucket.OversizedCostNeverAllowed | serving/src/main/java/io/tapeline/serving/security/TokenBucketRateLimiter.java:62-78 | a cost above the capacity is never allowed, though a wait is advertised |
| StreamThrottle.IntervalThrottlesIff | serving/src/main/java/io/tapeline/serving/grpc/MarketDataService.java:97-100 | the interval is at least 10 ms iff the requested rate fits a signed integer, and non-positive otherwise |
| StreamThrottle.IntervalFitsRate | serving/src/main/java/io/tapeline/serving/grpc/MarketDataService.java:97-100 | the interval is the longest that lets the requested rate through, 10 a second when none is asked for and 100 at most |
| StreamThrottle.QuoteStream.Offer | serving/src/main/java/io/tapeline/serving/grpc/MarketDataService.java:117-147 | uninterrupted, a quote goes out iff its venue is wanted, the call is ready and the interval has passed; only a wanted quote that finds the call not ready is counted as dropped |
| StreamThrottle.ReachableInv | serving/src/main/java/io/tapeline/serving/grpc/MarketDataService.java:133-140 | under every interleaving the sent timestamps form a chain, each an interval past the one before |
| StreamThrottle.SendsAreThrottled | serving/src/main/java/io/tapeline/serving/grpc/MarketDataService.java:133-147 | sends within a span w of emit time number at most w / interval + 1, for any number of threads |
| StreamThrottle.ThrottleIsAttained | serving/src/main/java/io/tapeline/serving/grpc/MarketDataService.java:133-147 | a quote offered every interval is sent every time, which reaches that bound for every count |
| StreamThrottle.OnlyOneWinner | serving/src/main/java/io/tapeline/serving/grpc/MarketDataService.java:134-140 | of threads that read the same timestamp at most one sends |
| StreamThrottle.NonPositiveIntervalDoesNotThrottle | serving/src/main/java/io/tapeline/serving/grpc/MarketDataService.java:97-140 | with a non-positive interval any number of quotes of one instant all go out, from any state whose last send is not after it |
| StreamThrottle.MaxRateIsKeptIff | serving/src/main/java/io/tapeline/serving/grpc/MarketDataService.java:97-140 | under every interleaving the sends keep to 100 a second iff the requested rate fits a signed integer |

## Left out

- Floating-point rounding, NaN and infinities beyond the tests the code makes for them: reals are exact.
- 64-bit overflow of sequence numbers, ids and times: integers are unbounded.
- JSON and Avro decoding, schema registration, WebSocket, Kafka, HTTP, gRPC, JDBC and Redis clients, tracing,
  metrics export, logging and configuration loading: library plumbing. What a parse or an encoder yields is an
  input of the model.
- Partial writes inside one failed publish: publishing is all or nothing, as in the in-memory producer.
- BookOperator.BookFunction.OnTimer: keyed state is one map per kind of state, and checkpoint barriers and
  transactions of the stream engine are not modelled; a restore keeps keyed state and loses timers.
- IngestPipeline.Pipeline.FlushBatch: the in-place shift of the batch slice is an assignment to a sequence field,
  so slice capacity and aliasing are not captured.
- IngestPipeline.Pipeline.RunScript: the select statement's choices and what surrounds it arrive as a script.
- TokenBucket.RateLimiter.TryConsume: the store's clock is the caller's, and calls let through while the store is
  silent do not count towards the admission bound.
- TradeWindows.TradeBars.FireAll: watermarks, lateness and out-of-order tolerance are not modelled; windows fire
  once, after the input they belong to.
- StreamThrottle.QuoteStream.Offer: the opening snapshot and unsubscription are not modelled.
- Symbol normalisation, the reconnect backoff, on-chain amounts and addresses: they carry no protocol state.
- HMAC signing, nonce replay, API keys, quote caching and broadcasting, OLAP queries, deployment and scripts.
