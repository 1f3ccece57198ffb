# Verified models of the market, key, migration and feed logic

A Dafny project that models the self-contained algorithms of this repository and proves properties of
them. Each module is one component; methods follow the loops and in-place updates of the code, and are
proved against functions whose own properties are proved as lemmas.

- `RealFacts`, `Rounding`, `Wrappers`, `Sequences`, `Jsons`: arithmetic on reals, the two roundings, optional
  values, filtering and the stable sort, JSON values.
- `NiceGrid`, `SnapEdges`, `LinearBins`, `Outliers`, `PriceAxis`, `PriceBuckets`: the price axis of the heatmap.
- `AxisEnds`: when that axis covers its prices, how many labels it has, how far a price is from its label.
- `Heatmap`, `Chart`: one heatmap column, the assembled chart and the trimming of its empty margins.
- `AuctionIntake`: auction orders become market rows, in batches.
- `KeyHealth`, `KeySelection`, `KeyQuery`, `BattleNetService`: API key cooldowns, key selection, the retry loop.
- `AnalyticsMigration`: the two-pass rewrite of stored JSON values.
- `MarketPrices`, `Crafting`: single and batched price lookup, crafting cost, profitable crafts.
- `FeedGateway`: the session index of the feed sockets and message routing.
- `CharacterScan`: the rotating scan over the characters table.

`dafny verify dfyconfig.toml` checks the whole project. Some proofs use `hide` to keep a definition out of
the solver's sight; that only withholds facts from it.

## How the code is read

- Prices and cooldowns are real numbers. `toFixed(2)` is rounding to the nearest cent, halves away from zero.
- `Math.log10` and `Math.pow(10, _)` are a pair of strictly increasing inverse functions, `LogScale`, passed as a
  parameter. The scaling law and the closeness of log labels also need that products become sums.
- A database table is a sequence. A query that orders by timestamp is a stable sort; `AnyAnswersAgree` shows when the
  database's choice among ties cannot matter.
- Time is a clock field in milliseconds. A timer may fire late, never early. The network is a function from the
  attempt number to an answer and its latency, so results hold for every sequence of answers.
- The order in which parallel queries answer is a parameter of the chart.
- The characters scan sorts by `hashA`, which may be null or shared. The sort key is a number per row, and each tick may
  read rows with the same key in another order.

Where comments and code disagree, the code is followed:

- `price-binning.ts` lines 12 and 204 speak of a quantity-weighted filter; the code weighs every row alike
  (`KeptByPricesAlone`, `AxisByPricesAlone`).
- Lines 174-175 say the axis covers the full range; it does so exactly under the conditions of `AxisCovers`.
  `LastLabelMayBeBelowMax` shows an axis that ends below the maximum, `FirstLabelMayBeAboveMin` one that starts above
  the minimum.
- Line 206 promises `blocks + 1` edges. `LinearAxisCount` and `LogAxisFull` say exactly when that is so,
  `NarrowAxisIsShort` and `LastLabelMayBeBelowMax` show two axes with fewer.
- Line 192 repairs the last edge; the repair can never fire (`SnapAndDedupe`).
- `analytics-migration.service.ts` calls itself idempotent. It is so except for contract rows that store a record
  under the key `itemId` (`MigrateIdempotent`, `ItemIdWordIsWrappedAgain`); a third run never updates anything
  (`MigrateSettles`).
- `initialize` uses the base delay, in seconds everywhere else, as milliseconds (`BackoffShorterThanCooldown`).
- A market row whose payload gives quantity 0 is saved without quantity and value, and the column default then makes
  the quantity 1 (`libs/pg/src/entity/market.entity.ts`), so value = price * quantity fails for it (`StoredConsistent`).

## Model

| member | source | states |
|---|---|---|
| `NiceGrid.GridIsSeries` | apps/api/src/dma/price-binning.ts:24-27 | the 25 steps of the grid are the series whose consecutive ratios are 2, 1.25, 2, 2 |
| `NiceGrid.NiceStep` | apps/api/src/dma/price-binning.ts:51-61 | the downward scan returns the greatest grid step not above half the value, and 0.01 for values below 0.02 |
| `NiceGrid.RoundToStepBounds` | apps/api/src/dma/price-binning.ts:64-66 | rounding to a step stays between enclosing multiples and moves a value by at most half a step |
| `NiceGrid.SnapMonotone` | apps/api/src/dma/price-binning.ts:180-183 | snapping keeps the order of prices although the step changes with magnitude |
| `NiceGrid.SnapError` | apps/api/src/dma/price-binning.ts:180-183 | a price of at least 0.01 moves by at most a quarter of itself plus 0.005, and stays at least 0.01 |
| `NiceGrid.SnapIdempotent` | apps/api/src/dma/price-binning.ts:180-183 | a snapped label snaps to itself, also in the 0.025 regime where two decimals round 0.075 up |
| `SnapEdges.SnapAndDedupe` | apps/api/src/dma/price-binning.ts:177-199 | for any input order the result is the strictly ascending list of exactly the running maxima of the snapped values, and the closing repair never fires |
| `SnapEdges.SortedRecords` | apps/api/src/dma/price-binning.ts:172-199 | on nondecreasing edges that list is exactly the distinct snapped values, from the snapped minimum to the snapped maximum, and no longer than the input |
| `LinearBins.BestUpTo` | apps/api/src/dma/price-binning.ts:148-160 | the recursive reference is the first minimiser of the bin-count error among the steps not above the range |
| `LinearBins.PickStep` | apps/api/src/dma/price-binning.ts:148-160 | the loop with its early exit finds that first minimiser |
| `LinearBins.StepAccuracy` | apps/api/src/dma/price-binning.ts:136-160 | for ranges the grid can serve the chosen step gives a bin count within a third of the requested one |
| `LinearBins.BinsBounded` | apps/api/src/dma/price-binning.ts:136-160 | for every range and count the chosen step gives at most 4/3 of the requested bins (2 for one), or range/10000 where that is more |
| `LinearBins.RawLinearEdges` | apps/api/src/dma/price-binning.ts:162-167 | the edge loop ends and yields exactly the multiples that fit below max plus half a step |
| `LinearBins.AboveNeighbour` | apps/api/src/dma/price-binning.ts:169-169 | the closing filter leaves an ascending list alone |
| `LinearBins.LinearEdgesAscending` | apps/api/src/dma/price-binning.ts:162-169 | two-decimal rounding never merges two linear edges |
| `LinearBins.LinearEdgesCount` | apps/api/src/dma/price-binning.ts:162-167 | a linear axis has at least one edge and fewer than range/step + 2.5 |
| `LinearBins.BuildLinearBins` | apps/api/src/dma/price-binning.ts:144-170 | the whole linear branch, degenerate range included, is strictly ascending and not empty |
| `LinearBins.LinearBucketClose` | apps/api/src/dma/price-binning.ts:144-170 | every price up to max, prices below the 0.01 floor included, is within a step and a cent of its row label |
| `PriceBuckets.LastNotAbove` | apps/api/src/dma/price-binning.ts:234-256 | the reference scan: everything above the returned edge is dearer than the price |
| `PriceBuckets.BucketUnique` | apps/api/src/dma/price-binning.ts:234-256 | the half-open interval [edge i, edge i+1) determines the bucket |
| `PriceBuckets.AssignPriceBucket` | apps/api/src/dma/price-binning.ts:238-256 | the binary search is in range for every list and equals the scan on ascending edges |
| `PriceBuckets.BucketMonotone` | apps/api/src/dma/price-binning.ts:238-256 | a dearer price never lands in a lower row |
| `PriceBuckets.BucketOfEdge` | apps/api/src/dma/price-binning.ts:238-256 | edge i is assigned to row i |
| `Outliers.QuantileExactly` | apps/api/src/dma/price-binning.ts:93-99 | the quantile at pct lies on the straight line between the two entries next to position pct * (n - 1), at the place of that position between them |
| `Outliers.QuantileUnique` | apps/api/src/dma/price-binning.ts:93-99 | that determines it |
| `Outliers.QuantileOfLine` | apps/api/src/dma/price-binning.ts:93-99 | evenly spaced logs a, a + d, a + 2d, ... have the quantile a + d * pct * (n - 1) |
| `Outliers.QuantileOfNeighbours` | apps/api/src/dma/price-binning.ts:93-99 | only the two entries next to the position matter |
| `Outliers.KeptExactly` | apps/api/src/dma/price-binning.ts:86-120 | a record is kept exactly when its price is positive and, given four usable prices with quartiles q1 < q3, its log price is at most k * (q3 - q1) below q1 or above q3 |
| `Outliers.KeptAsOften` | apps/api/src/dma/price-binning.ts:87-119 | a kept record stays as often as it occurs in the input, any other record disappears |
| `Outliers.InterpolateBetween` | apps/api/src/dma/price-binning.ts:93-99 | an interpolated quantile lies between any rank below and any rank above its position |
| `Outliers.MiddleKept` | apps/api/src/dma/price-binning.ts:86-120 | every record ranked between the two quartile positions is kept |
| `Outliers.HalfKept` | apps/api/src/dma/price-binning.ts:86-120 | at least half of the usable records, less one, is kept; usable data is never emptied |
| `Outliers.KeptConvex` | apps/api/src/dma/price-binning.ts:116-119 | a usable record priced between two kept ones is kept |
| `Outliers.FenceMultiset` | apps/api/src/dma/price-binning.ts:91-117 | the fence depends only on which prices occur how often |
| `Outliers.KeptByPricesAlone` | apps/api/src/dma/price-binning.ts:71-91 | whether a price is kept depends on neither quantities nor order |
| `Outliers.FilterRescaled` | apps/api/src/dma/price-binning.ts:86-120 | the filter commutes with every change of unit that is a shift on the log axis |
| `Outliers.FilterScale` | apps/api/src/dma/price-binning.ts:86-120 | the filter commutes with multiplying all prices by a positive constant |
| `Outliers.ScaleExists` | apps/api/src/dma/price-binning.ts:91-117 | the assumed increasing pair of log10 and power functions is satisfiable; additivity, which two results assume besides, is not part of it |
| `PriceAxis.LogRawSpans` | apps/api/src/dma/price-binning.ts:123-131 | the raw log edges never decrease, stay in the range and run from min to max |
| `PriceAxis.BuildLogBins` | apps/api/src/dma/price-binning.ts:122-134 | the log axis is strictly ascending, has at most blocks + 1 edges and runs from the snapped min to the snapped max |
| `PriceAxis.CleanedExactly` | apps/api/src/dma/price-binning.ts:210-222 | the axis is built from the prices within three interquartile ranges of the quartiles |
| `PriceAxis.AxisKind` | apps/api/src/dma/price-binning.ts:218-231 | the axis is one label for a single price, logarithmic when max / min is above 50, and linear otherwise, min being at least 0.01 |
| `PriceAxis.AxisAscending` | apps/api/src/dma/price-binning.ts:208-232 | the axis is strictly ascending, and empty exactly when no listing has a positive price |
| `PriceAxis.BuildHybridPriceBins` | apps/api/src/dma/price-binning.ts:210-232 | the whole pipeline computes that axis |
| `PriceAxis.LinearAxisClose` | apps/api/src/dma/price-binning.ts:210-232 | end to end: on a linear axis every cleaned price is within a step and a cent of the label of its row |
| `PriceAxis.LinearAxisRows` | apps/api/src/dma/price-binning.ts:136-170 | end to end, for every range and every requested count: fewer rows than 2.5 plus 4/3 blocks (2 for one block), or than 2.5 plus range/10000 where that is more |
| `PriceAxis.LogAxisEnds` | apps/api/src/dma/price-binning.ts:123-134 | end to end: the row count of a log axis, how far its ends are from the true ends, and that its labels are fixed points of the snap |
| `AxisEnds.LabelSide` | apps/api/src/dma/price-binning.ts:64-66 | exactly when rounding a value to a grid step and to cents ends at or above it, and at or below it |
| `AxisEnds.LinearEnds` | apps/api/src/dma/price-binning.ts:162-169 | the last linear label is the maximum rounded to the step, the first one the minimum floored to it |
| `AxisEnds.AxisCovers` | apps/api/src/dma/price-binning.ts:172-229 | the axis covers all cleaned prices if and only if rounding the greatest to its step does not go down and the first label does not go above the least; the latter condition treats least prices below a cent apart, which only a linear axis with a coarser step than a cent covers |
| `AxisEnds.LogAxisCovers` | apps/api/src/dma/price-binning.ts:172-199 | on a log axis the first condition is that the maximum is a multiple of its step or at least half a step above one |
| `AxisEnds.FirstLabelMayBeAboveMin` | apps/api/src/dma/price-binning.ts:215-229 | for listings at 0.005 and 1 the axis starts at 0.01 |
| `AxisEnds.LinearAxisCount` | apps/api/src/dma/price-binning.ts:162-167 | the exact number of labels of a linear axis, from the two ends and the chosen step |
| `AxisEnds.LogAxisFull` | apps/api/src/dma/price-binning.ts:123-134 | a log axis has blocks + 1 labels if and only if no two neighbouring raw edges share a label |
| `AxisEnds.NarrowAxisIsShort` | apps/api/src/dma/price-binning.ts:144-170 | listings from 4.00 to 4.15 get 16 labels where 21 are asked for |
| `AxisEnds.LastLabelMayBeBelowMax` | apps/api/src/dma/price-binning.ts:172-206 | for listings at 0.5 and 49 the axis ends at 40, and of 21 edges asked for there are at most 14 |
| `AxisEnds.RankStrict` | apps/api/src/dma/price-binning.ts:180-190 | different labels have different places on the grid, in the same order |
| `AxisEnds.NextLabel` | apps/api/src/dma/price-binning.ts:180-190 | no place is left out: below the last step of the grid every label has one at the next place |
| `AxisEnds.LogAxisLabels` | apps/api/src/dma/price-binning.ts:185-206 | a log axis has no more labels than the grid has places between its ends, whatever count was requested |
| `AxisEnds.LabelSource` | apps/api/src/dma/price-binning.ts:177-199 | the label of a price is the snapped value of a raw edge whose successor already snaps above the price |
| `AxisEnds.LogAxisClose` | apps/api/src/dma/price-binning.ts:123-134 | end to end: on a log axis a price is at most five thirds of one edge ratio above its label, and the label at most a quarter above the price, up to half a cent |
| `PriceAxis.AxisByPricesAlone` | apps/api/src/dma/price-binning.ts:71-76 | the axis depends only on the multiset of usable prices |
| `Heatmap.ProcessTimestampData` | apps/api/src/dma/dma.service.ts:241-282 | updating cells in place, order by order, gives for each row the count, value, quantity and mean of exactly its orders |
| `Heatmap.RowsSumAll` | apps/api/src/dma/dma.service.ts:268-280 | whatever is weighed, the rows together hold exactly what the orders hold |
| `Heatmap.ColumnConserves` | apps/api/src/dma/dma.service.ts:257-282 | the column accounts for every order, all order value and all quantity |
| `Heatmap.CellPriceInRow` | apps/api/src/dma/dma.service.ts:268-280 | the mean price of a cell with quantity lies in the interval of its row, whose upper end is the label the cell shows |
| `Heatmap.CellPriceIsMean` | apps/api/src/dma/dma.service.ts:268-280 | price times quantity of a cell is its order value; a cell without quantity has price 0 |
| `Chart.CutColumns` | apps/api/src/dma/dma.service.ts:371-385 | the index list, the renumbering map, the filter and the map together keep and renumber one run of columns |
| `Chart.TrimEmptyXMargins` | apps/api/src/dma/dma.service.ts:351-386 | the imperative trim computes the trim function |
| `Chart.TrimKeepsRun` | apps/api/src/dma/dma.service.ts:344-385 | the kept columns are one run, renumbered from 0 and aligned with their labels; both end columns hold quantity; interior cells and all populated cells survive |
| `Chart.TrimIdempotent` | apps/api/src/dma/dma.service.ts:351-386 | trimming twice is trimming once |
| `Chart.TrimLeavesAlone` | apps/api/src/dma/dma.service.ts:351-369 | a chart without quantity, and one with quantity in its first and last column, is left as it is |
| `Chart.TrimConservesValue` | apps/api/src/dma/dma.service.ts:344-386 | no quantity is lost by trimming |
| `Chart.TrimOrderFree` | apps/api/src/dma/dma.service.ts:351-386 | cells and labels after trimming do not depend on the order of the cells before |
| `Chart.BuildChartDataset` | apps/api/src/dma/dma.service.ts:313-342 | the guard, the gathering in any arrival order and the trim |
| `Chart.ChartArrivalFree` | apps/api/src/dma/dma.service.ts:321-330 | the chart is the same collection of cells whichever query answers first |
| `Chart.ChartConservesQuantity` | apps/api/src/dma/dma.service.ts:313-330 | once every query has answered, in whatever order, the finished chart shows the total quantity of all feeds |
| `Chart.ChartPricesInRows` | apps/api/src/dma/dma.service.ts:234-330 | in the finished chart every cell with quantity shows a price inside its row and the upper end of that row |
| `AuctionIntake.TransformExactly` | apps/dma/src/workers/auctions.worker.ts:324-382 | an order is accepted exactly when it has an item and its price is 50 copper or more; price and bid are within half a cent of the copper amount, a missing quantity is 1, and value is price * quantity unless quantity is 0 |
| `AuctionIntake.PriceExactly` | libs/resources/src/transformers/transformers.ts:230-244 | the price is the unit price, without one the buyout, without both the bid, 0 counting as absent |
| `AuctionIntake.TransformOrders` | apps/dma/src/workers/auctions.worker.ts:324-382 | the field-by-field transformation agrees with the transformation of one order, in order, skipping rejected ones |
| `AuctionIntake.BatchesPartition` | apps/dma/src/workers/auctions.worker.ts:202-205 | the batches in order are the payload; none is empty and all before the last hold exactly 5000 orders |
| `AuctionIntake.SaveAll` | apps/dma/src/workers/auctions.worker.ts:180-243 | the batch loop saves what it should, counts what it saved, and marks the payload as persisted exactly when something was saved |
| `AuctionIntake.BatchingInvisible` | apps/dma/src/workers/auctions.worker.ts:202-238 | with no failing save the batching changes nothing |
| `AuctionIntake.SavedIsTransformed` | apps/dma/src/workers/auctions.worker.ts:202-238 | whichever saves fail, the table holds the transformed orders of exactly the saved batches, no row more often than the payload has it, and every row is the transformation of some order |
| `AuctionIntake.PriceIsCents` | libs/resources/src/transformers/transformers.ts:84-244 | every accepted price is a whole number of cents and at least one |
| `AuctionIntake.StoredConsistent` | apps/dma/src/workers/auctions.worker.ts:368-377 | a stored row has value = price * quantity exactly when the payload did not give quantity 0 |
| `AuctionIntake.IntakeFeedsHeatmap` | apps/dma/src/workers/auctions.worker.ts:324-382 | the heatmap of saved rows shows mean prices inside their rows |
| `KeyHealth.RunHealthy` | libs/battle-net/src/battle-net.service.ts:90-143 | every sequence of events keeps the cooldown in [0, maxDelay], and at 0 for a key without a failure time |
| `KeyHealth.RunRemembersFailure` | libs/battle-net/src/battle-net.service.ts:97-173 | lastFailureAt is the time of the latest rate limit or error since the last reset |
| `KeyHealth.RunOfLimits` | libs/battle-net/src/battle-net.service.ts:90-104 | a run of rate limits iterates the growth law |
| `KeyHealth.LimitsClosedForm` | libs/battle-net/src/battle-net.service.ts:90-95 | n rate limits give the capped geometric closed form, for every multiplier above 1 |
| `KeyHealth.RunOfSuccesses` | libs/battle-net/src/battle-net.service.ts:129-143 | a run of successes iterates the decay and keeps the failure time |
| `KeyHealth.SuccessesClosedForm` | libs/battle-net/src/battle-net.service.ts:138-138 | n successes give max(0, c - n * decay) |
| `KeyHealth.RunOfErrors` | libs/battle-net/src/battle-net.service.ts:121-127 | n errors that are not rate limits give max(0, c - n * decay) and move the failure time to the last of them |
| `KeyHealth.DefaultLimits` | libs/battle-net/src/battle-net.service.ts:90-95 | with the default settings n rate limits give min(300, 30 * (2^n - 1)) seconds, which is 300 exactly from the fourth on |
| `KeyHealth.DefaultSuccesses` | libs/battle-net/src/battle-net.service.ts:129-143 | with the default settings a success takes off 5 seconds, and 60 of them clear every cooldown |
| `KeySelection.KeyMsExactly` | libs/battle-net/src/battle-net.service.ts:75-83 | a key waits the whole milliseconds left of lastFailureAt + cooldown * 1000; not at all without a cooldown or a failure time |
| `KeySelection.AvailableKeyIsFirstLeast` | libs/battle-net/src/battle-net.service.ts:175-203 | the chosen key is asked for, needs no wait, has the least cooldown and is first in repository order among equals |
| `KeySelection.NoneAvailableIffAllWait` | libs/battle-net/src/battle-net.service.ts:75-88 | no key is chosen exactly when every key asked for has a positive remaining cooldown |
| `KeySelection.AllKeysOrdered` | libs/battle-net/src/battle-net.service.ts:205-231 | for every list of tags getAllKeys is a permutation of the keys asked for, least effective cooldown first |
| `KeySelection.AllKeysGroups` | libs/battle-net/src/battle-net.service.ts:205-231 | getAllKeys lists the keys that need no wait in repository order, then the waiting ones by stored cooldown |
| `KeySelection.HeadWaitsIffAllWait` | libs/battle-net/src/battle-net.service.ts:205-231 | for every list of tags the head of getAllKeys must wait, or there is none, exactly when every key asked for must wait |
| `KeySelection.AvailabilityAgrees` | libs/battle-net/src/battle-net.service.ts:175-231 | no key is chosen exactly when getAllKeys is empty or its head has a positive effective cooldown |
| `KeySelection.EmptyTagAgreement` | libs/battle-net/src/battle-net.service.ts:192-218 | with the empty string as tag the two functions agree if and only if a ready key anywhere implies a ready key with the empty tag |
| `KeySelection.EmptyTagDisagrees` | libs/battle-net/src/battle-net.service.ts:192-218 | a table where they do not |
| `KeySelection.HeadIsFirstEligible` | libs/battle-net/src/battle-net.service.ts:218-230 | getAllKeys puts the first eligible key in repository order at its head |
| `KeySelection.HeadsAgree` | libs/battle-net/src/battle-net.service.ts:200-230 | getAvailableKey offers that same key if and only if no eligible key has a lower stored cooldown |
| `KeySelection.HeadsMayDiffer` | libs/battle-net/src/battle-net.service.ts:200-230 | two keys where it offers another one |
| `KeyQuery.RunChained` | libs/battle-net/src/battle-net.service.ts:305-377 | request by request: each is sent with the keys the one before left, after the pause that one calls for (1000 ms after a server error, the new cooldown after a 429), and after the cooldown of the key |
| `KeyQuery.ServerErrorPauses` | libs/battle-net/src/battle-net.service.ts:366-372 | in every run, with or without a key, the request after a server error is sent 1000 ms after that answer or later, exactly then plus the lateness of the timer when the key does not wait |
| `KeyQuery.RunEnds` | libs/battle-net/src/battle-net.service.ts:297-377 | a run ends by its last reply: ok is the answer, any other is the failure, or a not-found error after a 429 for an unknown key; for a 429 or server error it gives up only after the fourth request |
| `KeyQuery.RequestsBounded` | libs/battle-net/src/battle-net.service.ts:305-377 | at most four requests, for every sequence of answers, with or without a key |
| `KeyQuery.EachLimitRecordedOnce` | libs/battle-net/src/battle-net.service.ts:312-377 | each 429 is recorded exactly once, when it was answered; a server error touches no key; a success decays the key once |
| `KeyQuery.NoRequestDuringCooldown` | libs/battle-net/src/battle-net.service.ts:266-314 | no request is sent while its key is cooling down |
| `KeyQuery.LimitThenWait` | libs/battle-net/src/battle-net.service.ts:351-354 | after a recorded rate limit the next start is at least the new cooldown later |
| `KeyQuery.BurstIsSpread` | libs/battle-net/src/battle-net.service.ts:309-377 | an all-429 run uses every attempt and its requests are spread over the sum of the successive cooldowns |
| `KeyQuery.DefaultBurst` | libs/battle-net/src/battle-net.service.ts:309-377 | with the default settings that spread is at least 330 seconds for a fresh key |
| `BattleNetService.ResolveExactly` | libs/battle-net/src/battle-net.service.ts:113-133 | the given id counts, without one the current id, and an empty id never |
| `BattleNetService.Service.Save` | libs/battle-net/src/battle-net.service.ts:101-105 | saving one row applies the event to exactly the keys with its id and keeps all keys healthy |
| `BattleNetService.Service.RecordKeyRateLimit` | libs/battle-net/src/battle-net.service.ts:113-119 | records on the given or else the current key and answers its new cooldown; an unknown or empty id changes nothing and is reported |
| `BattleNetService.Service.RecordKeyError` | libs/battle-net/src/battle-net.service.ts:121-127 | the same for errors: the failure time is now, the cooldown is shortened by the decay step and not below 0 |
| `BattleNetService.Service.RecordKeySuccess` | libs/battle-net/src/battle-net.service.ts:129-143 | the same for successes |
| `BattleNetService.Service.ResetKeyHealth` | libs/battle-net/src/battle-net.service.ts:167-173 | clears the cooldown and the failure time; silent for an unknown id |
| `BattleNetService.Service.WaitForCooldown` | libs/battle-net/src/battle-net.service.ts:266-275 | the clock moves by the remaining cooldown, and not at all when there is none |
| `BattleNetService.Service.AttemptOnce` | libs/battle-net/src/battle-net.service.ts:312-376 | one pass of the retry loop changes keys and clock as the reference pass does |
| `BattleNetService.Service.ExecuteQuery` | libs/battle-net/src/battle-net.service.ts:297-378 | the loop produces exactly the reference run: requests, outcome, keys and clock |
| `BattleNetService.Service.Initialize` | libs/battle-net/src/battle-net.service.ts:34-73 | polling stops at the first available key or after the tenth poll; a key is found if and only if some key asked for has no longer to wait than the nine delays with their timers' lateness |
| `BattleNetService.FoundWithin` | libs/battle-net/src/battle-net.service.ts:75-88 | getAvailableKey finds a key some time later exactly when a key asked for has no longer to wait than that |
| `BattleNetService.PollingFinds` | libs/battle-net/src/battle-net.service.ts:39-70 | whatever poll it stops at, polling finds a key exactly when one asked for is ready within all the delays |
| `BattleNetService.BackoffExactly` | libs/battle-net/src/battle-net.service.ts:58-61 | delay n is the whole part of the lesser of baseDelay * multiplier^(n - 1) and maxDelay * 1000 |
| `BattleNetService.DefaultBackoff` | libs/battle-net/src/battle-net.service.ts:58-61 | with the default settings the first n delays, up to 14, add up to 30 * (2^n - 1) milliseconds |
| `BattleNetService.BackoffShorterThanCooldown` | libs/battle-net/src/battle-net.service.ts:34-70 | so all nine delays, 15.33 seconds, are over before the cooldown after any number of rate limits is |
| `AnalyticsMigration.KeyExactly` | apps/analytics/src/services/analytics-migration.service.ts:276-298 | a guild record is stored under its non-empty guid, a record of an item metric or of market and contracts under the text of its itemId, any other not at all |
| `AnalyticsMigration.KeyedExactly` | apps/analytics/src/services/analytics-migration.service.ts:244-265 | the keys of the result are exactly the guids or item id texts of the records, and each holds the last record that has it |
| `Jsons.JoinConcat` | apps/analytics/src/services/analytics-migration.service.ts:294-294 | the text of an array item id is the texts of its entries separated by commas, null as the empty text |
| `AnalyticsMigration.Pass1Exactly` | apps/analytics/src/services/analytics-migration.service.ts:204-242 | an array becomes that object, a bare contract record is wrapped under the text of its itemId, any other row stays |
| `AnalyticsMigration.Pass2Exactly` | apps/analytics/src/services/analytics-migration.service.ts:99-142 | exactly the two top metrics have their record, or each of their records, renamed |
| `AnalyticsMigration.NormalizeArray` | apps/analytics/src/services/analytics-migration.service.ts:244-265 | the loop builds the keyed object of an array |
| `AnalyticsMigration.KeyedLastWins` | apps/analytics/src/services/analytics-migration.service.ts:244-298 | an array loses only keyless records and records followed by one with the same key |
| `AnalyticsMigration.RenameTopMetricFields` | apps/analytics/src/services/analytics-migration.service.ts:172-198 | the in-place rename computes the rename function and reports whether anything changed |
| `AnalyticsMigration.RenameCarriesValue` | apps/analytics/src/services/analytics-migration.service.ts:172-198 | both new fields carry the old value, the old field goes, every other field stays |
| `AnalyticsMigration.RenameRecords` | apps/analytics/src/services/analytics-migration.service.ts:119-126 | all records of a value are renamed and the change is reported exactly when there was one |
| `AnalyticsMigration.RenamedSettles` | apps/analytics/src/services/analytics-migration.service.ts:99-102 | after renaming nothing is left to rename, and whether the value is bare is unchanged |
| `AnalyticsMigration.FirstPassShape` | apps/analytics/src/services/analytics-migration.service.ts:204-242 | after the first pass no array is left, and a contract row with a usable id is bare exactly when a record was stored under "itemId" |
| `AnalyticsMigration.SecondRunQuiet` | apps/analytics/src/services/analytics-migration.service.ts:33-83 | a second run leaves a row alone exactly when the first stored no record under "itemId" |
| `AnalyticsMigration.MigrateIdempotent` | apps/analytics/src/services/analytics-migration.service.ts:33-83 | for every table the second run updates nothing if and only if no contract row yields that key |
| `AnalyticsMigration.ThirdRunQuiet` | apps/analytics/src/services/analytics-migration.service.ts:33-83 | whatever a row held, the third run neither updates nor changes it |
| `AnalyticsMigration.MigrateSettles` | apps/analytics/src/services/analytics-migration.service.ts:33-83 | for every table the third run updates nothing and leaves every row as it is |
| `AnalyticsMigration.NumericIdsQuiet` | apps/analytics/src/services/analytics-migration.service.ts:33-83 | for every table whose item ids are numbers the second run updates nothing |
| `AnalyticsMigration.ItemIdWordIsWrappedAgain` | apps/analytics/src/services/analytics-migration.service.ts:267-274 | a record whose id is the word itemId is wrapped once more by the second run |
| `AnalyticsMigration.CountStep` | apps/analytics/src/services/analytics-migration.service.ts:60-62 | one row updates the total and the counter of its own metric type together |
| `AnalyticsMigration.AnalyticsTable.NormalizeRows` | apps/analytics/src/services/analytics-migration.service.ts:38-71 | the first pass, row by row, with its counters |
| `AnalyticsMigration.AnalyticsTable.MigrateContractTopMetricFields` | apps/analytics/src/services/analytics-migration.service.ts:104-145 | the second pass, row by row, with its counters |
| `AnalyticsMigration.AnalyticsTable.Migrate` | apps/analytics/src/services/analytics-migration.service.ts:33-83 | both passes; migratedRows is the sum of byMetricType, and each counter is the exact number of updates |
| `MarketPrices.CalculateWeightedAverage` | apps/market/src/services/evaluation.service.ts:765-778 | the accumulating loop computes the weighted average |
| `MarketPrices.AverageIsUnitMean` | apps/market/src/services/evaluation.service.ts:765-778 | the average is the plain mean of the prices of all single units on sale |
| `MarketPrices.SplitRow` | apps/market/src/services/evaluation.service.ts:771-777 | a row of quantity x + y may be split into two rows of quantities x and y, wherever it stands |
| `MarketPrices.MissingQuantityIsOne` | apps/market/src/services/evaluation.service.ts:772-772 | a quantity that is null or 0 counts as 1 |
| `MarketPrices.AverageBetween` | apps/market/src/services/evaluation.service.ts:765-778 | the average lies between any bounds on the listed prices |
| `MarketPrices.AverageOrderFree` | apps/market/src/services/evaluation.service.ts:765-778 | the average does not depend on the order of the rows |
| `MarketPrices.ValuationPriceExactly` | apps/market/src/services/evaluation.service.ts:627-637 | the valuation price is the market value of a newest valuation of that item on that realm, unless it is null or 0 |
| `MarketPrices.OwnRowsNewestFirst` | apps/market/src/services/evaluation.service.ts:639-644 | the row query gives exactly the rows of that item on that realm, newest first |
| `MarketPrices.LatestByItem` | apps/market/src/services/evaluation.service.ts:711-716 | the map holds the first, hence newest, valuation of each item |
| `MarketPrices.GroupByItem` | apps/market/src/services/evaluation.service.ts:739-745 | the groups are exactly the rows of each item, in order |
| `MarketPrices.BatchReads` | apps/market/src/services/evaluation.service.ts:729-736 | the batched row query reads all rows it asks for, up to 1000 |
| `MarketPrices.BatchGetMarketPrices` | apps/market/src/services/evaluation.service.ts:692-760 | the batched lookup answers for each item what the per-item definition says |
| `MarketPrices.BatchIsPerItem` | apps/market/src/services/evaluation.service.ts:702-736 | picking one item out of the batched query is querying that item |
| `MarketPrices.BatchAgrees` | apps/market/src/services/evaluation.service.ts:627-760 | for every requested item that has a valuation price, or whose row queries are not cut off, both lookups agree, 0 counting as absent |
| `MarketPrices.SeenIsPrefix` | apps/market/src/services/evaluation.service.ts:718-745 | the batched lookup averages the newest rows of an item, some number of them |
| `MarketPrices.BatchAgreesExactly` | apps/market/src/services/evaluation.service.ts:627-760 | with no limit assumed: the lookups agree if and only if they read equally many rows of the item or the rows only one of them reads average to the same price |
| `MarketPrices.PriceIsBetween` | apps/market/src/services/evaluation.service.ts:627-760 | without a valuation price the single lookup has a price exactly when there is a row for the item and realm; a price from either lookup then lies between the least and the greatest listed price, with or without the limits |
| `MarketPrices.AnyAnswerSameLatest` | apps/market/src/services/evaluation.service.ts:702-716 | with distinct valuation timestamps per item, ties between items cannot change the latest valuation |
| `MarketPrices.AnyAnswerSameAverage` | apps/market/src/services/evaluation.service.ts:729-753 | ties among market rows never change an average |
| `MarketPrices.AnyAnswersAgree` | apps/market/src/services/evaluation.service.ts:627-760 | the two lookups agree whatever order the database gives to ties in each of its four answers, if the item's valuation timestamps are distinct and its row queries are not cut off |
| `MarketPrices.LimitMatters` | apps/market/src/services/evaluation.service.ts:640-735 | with 101 listings of one item the two lookups answer 1 and 2 |
| `Crafting.PriceReagents` | apps/market/src/services/evaluation.service.ts:273-298 | the loop splits the reagents into priced and missing and sums the costs of the priced ones |
| `Crafting.TotalCostIsBill` | apps/market/src/services/evaluation.service.ts:279-298 | the total cost is the sum over the priced reagents of table price times amount, a bare item counting once |
| `Crafting.MarketCostIsBill` | apps/market/src/services/evaluation.service.ts:254-298 | at the market, the sum over the reagents of batched price times amount |
| `Crafting.SplitReagent` | apps/market/src/services/evaluation.service.ts:279-298 | asking for a reagent in two parts gives the same total cost |
| `Crafting.ListedCosts` | apps/market/src/services/evaluation.service.ts:285-294 | each listed cost is its market price times its quantity, at the price in the table and with the amount of a reagent of that item |
| `Crafting.CostGiven` | apps/market/src/services/evaluation.service.ts:261-312 | a recipe has a cost exactly when it has reagents and its list of derivatives is not null |
| `Crafting.PricedPlusMissing` | apps/market/src/services/evaluation.service.ts:279-298 | priced and missing reagents together are all reagents, once each |
| `Crafting.ConfidenceIsPricedShare` | apps/market/src/services/evaluation.service.ts:300-301 | confidence is the priced share; it is at least one half exactly when no more are missing than priced |
| `Crafting.PriceUnits` | apps/market/src/services/evaluation.service.ts:303-312 | the loop fills the unit costs, the last derivative of an item winning |
| `Crafting.UnitCostsExact` | apps/market/src/services/evaluation.service.ts:303-312 | for distinct derivatives unit cost times amount is the total cost; a non-positive amount has no unit cost |
| `Crafting.CalculateCraftingCost` | apps/market/src/services/evaluation.service.ts:254-334 | the cost of a recipe, null for missing lists, from the batched prices of its reagents |
| `Crafting.EvaluateRecipe` | apps/market/src/services/evaluation.service.ts:480-539 | the per-recipe part of the scan with its early exits |
| `Crafting.FindProfitableCrafts` | apps/market/src/services/evaluation.service.ts:442-566 | the scan over all recipes and the closing sort |
| `Crafting.ExactlyProfitable` | apps/market/src/services/evaluation.service.ts:480-549 | a craft is collected if and only if some recipe and derivative satisfy every condition for it |
| `Crafting.ListedOncePerPair` | apps/market/src/services/evaluation.service.ts:480-549 | a craft is collected once for each pair of recipe and derivative places that gives it |
| `Crafting.ProfitableSorted` | apps/market/src/services/evaluation.service.ts:479-561 | the returned list holds exactly the profitable pairs, each craft once for each pair that gives it, greatest margin first |
| `FeedGateway.RunAgrees` | apps/api/src/feed/feed.gateway.ts:55-88 | after every sequence of events the index holds exactly the live sockets of each session and no empty bucket |
| `FeedGateway.DispatchReaches` | apps/api/src/feed/feed.gateway.ts:110-148 | after every history a message reaches exactly the open sockets of its session, or all open sockets when it names none |
| `FeedGateway.NoTargetMeansBroadcast` | apps/api/src/feed/feed.gateway.ts:115-148 | after every history a message that names no session, be it malformed, without meta or with a missing, empty or non-string sessionId, reaches exactly the open sockets |
| `FeedGateway.Gateway.OnConnection` | apps/api/src/feed/feed.gateway.ts:55-64 | the connection handler keeps the index in step with the history |
| `FeedGateway.Gateway.OnClosing` | apps/api/src/feed/feed.gateway.ts:135-145 | a socket that starts closing stays registered but gets no more messages |
| `FeedGateway.Gateway.OnClose` | apps/api/src/feed/feed.gateway.ts:72-81 | the close handler keeps the index in step with the history |
| `FeedGateway.Gateway.SendToOpen` | apps/api/src/feed/feed.gateway.ts:134-147 | each open socket of a collection gets the message once, no other gets it |
| `FeedGateway.Gateway.Dispatch` | apps/api/src/feed/feed.gateway.ts:115-148 | each socket that must get the message gets it exactly once |
| `CharacterScan.Scanner.IndexCharacters` | apps/characters/src/characters.service.ts:40-88 | one tick queues its page and advances or resets the offset; a failed query changes nothing |
| `CharacterScan.OffsetInRange` | apps/characters/src/characters.service.ts:51-62 | however the count changes, the offset is a multiple of the limit and is 0 or below the last count |
| `CharacterScan.FullSweep` | apps/characters/src/characters.service.ts:45-62 | one sweep of a table read in one order queues every row exactly once, in that order, and ends at offset 0 |
| `CharacterScan.ManySweeps` | apps/characters/src/characters.service.ts:45-62 | k such sweeps queue the table k times |
| `CharacterScan.SameCut` | apps/characters/src/characters.service.ts:45-49 | where the sort key grows between two rows, every reading of the table has the same rows before that place |
| `CharacterScan.AnyReadingSweeps` | apps/characters/src/characters.service.ts:45-62 | when no page boundary runs between rows with the same sort key, one sweep queues every row exactly once, however ties are read on each tick |
| `CharacterScan.TieMissesRow` | apps/characters/src/characters.service.ts:45-62 | at a tied boundary there are readings with which a sweep misses a row |
| `CharacterScan.SweepExactly` | apps/characters/src/characters.service.ts:45-62 | a sweep queues every row exactly once in all readings if and only if no page boundary is tied |
| `CharacterScan.ManyReadingsSweep` | apps/characters/src/characters.service.ts:45-62 | without tied boundaries k sweeps queue every row k times in all readings |

## Left out

- IEEE floating point: rounding error, NaN, infinities and overflow. For instance 0.075 prints as 0.07 or 0.08
  depending on its binary value; the model says 0.08.
- FilterOutlierPrices: does not model non-finite prices, because prices are reals here.
- LogAxisClose: assumes that logarithms turn products into sums; no such function is constructed here.
- BatchAgreesExactly: assumes that the listed quantities of the item are not negative.
- AverageIsUnitMean: assumes quantities that are not negative; SplitRow is stated for all of them.
- ExecuteQuery: the success record, which the code does not wait for, is applied before the response is returned; other
  clients that share the key, header building and the response body are not modelled.
- Initialize: the error object of a failed attempt is not modelled, only that no key was found.
- EachLimitRecordedOnce: is stated for a key that exists; an unknown current key ends the run with a not-found error,
  which the reference run contains.
- IndexCharacters: the queue is a returned list, and a sweep is over a table that does not change meanwhile; job
  iteration numbers under concurrent additions and a failing queue are not modelled.
- StoredConsistent: the fields for context, modifiers and pets are not modelled.
- KeyedLastWins: the property name `__proto__`, which a JavaScript object treats specially, is an ordinary key here.
- CalculateCraftingCost: component quantities are numbers; a missing quantity field and recipe lists stored as JSON text
  are not modelled. A recipe that throws is skipped by the code; nothing in the model throws.
- FindProfitableCrafts: the filters by expansion and profession are the query that yields the recipes.
- The 32-bit `real` and `int` database columns, which round stored prices and cooldowns.
- Ranking of pricing methods, the best-of selections, reverse pricing and recommendation texts of the evaluation
  service.
- The Redis hash and timestamp markers of the auctions worker, its statistics counters and its HTTP error branches.
- Redis, TypeORM, BullMQ, S3, HTTP and websocket internals, token refresh, URL parsing and log output.
- Chart caching, item feeds and quotes, gold charts, and the SQL aggregates of the metric services.
- The non-atomic Redis locks of the warcraft-logs and ladder services.
