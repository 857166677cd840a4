# crypto_db core, modelled in Dafny

This project models the core of a cryptocurrency market-data store. It has
two parts.

The first part is the periodic reconciliation job
(`scripts/comprehensive_data_update_parallel.js`). For every asset and every
supported candle interval, the job does the following:

- It reads the stored candle timestamps of the pair.
- It finds the gaps: historical gaps between consecutive candles, and the
  recent gap up to the last closed candle boundary.
- It fetches each gap's candles from the exchange.
- It keeps only the closed candles and upserts them on the key
  `(asset, interval, ts)`.
- Only when new candles were stored, it recomputes RSI(6/12/24), EMA50 and
  SMA50 over the pair's closes. It writes all five indicator fields of every
  row from index 200 on that still has a null indicator.
- Run-wide counters are kept in a `stats` object.
- Exchange requests are bounded by a counting semaphore.

The second part is two Python ingesters:

- A CoinMarketCap dominance ingester. It checks the interval and fetches
  per-symbol market caps. It computes each symbol's percentage share at
  every timestamp all symbols share and whose total is positive. It upserts
  the shares.
- A CoinGecko ingester. It checks the OHLC payload and maps volumes to UTC
  dates, with the last point of a date winning. It upserts daily candles
  with their volume.

The form of the model follows the form of the code:

- Pure computations are functions and lemmas.
- The job's and the ingesters' loops are methods with loop invariants. Each
  such method is proved equal to a specification function, and the
  properties are lemmas about that function.
- The `Semaphore` and the `stats` object are classes whose methods update
  their fields.
- Each database table is a `map` keyed by its unique constraint. The candle
  table's key is `(asset, interval, ts)` (`python/models.py`, line 36). The
  dominance table's key is `(asset, interval, ts)` (line 51).
- Timestamps are integer epoch milliseconds.
- Prices are `real`.

The outside world is passed in as parameters:

- the wall-clock time;
- whether a store read succeeded;
- what the exchange returns for a gap;
- whether each row write succeeds;
- the decoded HTTP payloads.

Files:

- `util.dfy`: Option/Result, sums and means, sorted sets.
- `time_grid.dfy`: intervals, exchange codes and symbol, closed boundary.
- `rsi.dfy`, `moving_averages.dfy`: the indicators.
- `gaps.dfy`: gap analysis.
- `store.dfy`: the candle table and its upsert.
- `gap_fill.dfy`: gap filling.
- `indicator_patch.dfy`: the indicator phase.
- `orchestrator.dfy`: one pair and a whole run.
- `semaphore.dfy`: the semaphore.
- `last_wins.dfy`: dictionary assignment where the last key wins.
- `cmc_dominance.dfy`, `cg_ohlc.dfy`: the two Python ingesters.

## Where the code and its description differ

The model follows the code in each of these cases:

- **First RSI value.** `calculateRSI_Production` pushes `period + 1` nulls
  before the first value. So the first RSI value is at index `period + 1`,
  not at `period`. When there are exactly `period + 1` prices, the output is
  one entry longer than the input. Change number `period` is never used
  (`Rsi.RsiShape`, `Rsi.WilderSkipsPeriod`).
- **Indicator patch.** The patch writes all five indicator fields of a row
  that has at least one null field. Values it already had are overwritten
  too. A computed value of exactly 0 is stored as null, because of the
  truthiness test.
- **Gap endpoints.** A historical gap runs from one interval after the
  earlier candle to one interval before the later one, both inclusive.
  Candles at 0, 1 and 3 with a 1 ms interval give the gap `[2, 2]`
  (`Gaps.MissingMiddleCandle`).
- **Error counting.** Candles filtered out as not yet closed count as fill
  errors, because the task reports `candleData.length - inserted` errors.

## Model

| member | source | states |
|---|---|---|
| TimeGrid.IntervalMs | scripts/comprehensive_data_update_parallel.js:19-31 | defined exactly for the eight supported intervals; every duration is a positive whole number of minutes |
| TimeGrid.BybitInterval | scripts/comprehensive_data_update_parallel.js:34-46 | defined exactly for the eight supported intervals, with a non-empty code |
| TimeGrid.DurationsAscending | scripts/comprehensive_data_update_parallel.js:20-29 | durations strictly increase along the list of intervals |
| TimeGrid.BybitCodeIsMinutes | scripts/comprehensive_data_update_parallel.js:34-46 | every code below a day is the interval's length in minutes in decimal; the day is `D` |
| TimeGrid.ExchangeSymbol | scripts/comprehensive_data_update_parallel.js:303 | PEPE maps to `1000PEPEUSDT`; any other asset maps to the asset followed by `USDT` |
| TimeGrid.LastClosedBoundary | scripts/comprehensive_data_update_parallel.js:272-275 | the result is a boundary; its candle has ended by `now` and the next candle has not |
| TimeGrid.FloorToGrid | scripts/comprehensive_data_update_parallel.js:272 | the floored time is at most `now` and less than one interval below it |
| TimeGrid.ClosedMeansElapsed | scripts/comprehensive_data_update_parallel.js:338-344 | a boundary is at or before the last closed boundary exactly when its candle has ended |
| Rsi.Gains | scripts/comprehensive_data_update_parallel.js:59-63 | one entry per consecutive change, none negative |
| Rsi.Losses | scripts/comprehensive_data_update_parallel.js:59-63 | one entry per consecutive change, none negative |
| Rsi.ChangeSplit | scripts/comprehensive_data_update_parallel.js:60-62 | gain minus loss is the change, and at most one of them is non-zero |
| Rsi.Wilder | scripts/comprehensive_data_update_parallel.js:66-67 | the running average of non-negative values is non-negative |
| Rsi.PriceChanges | scripts/comprehensive_data_update_parallel.js:59-63 | the loop builds exactly the gains and the losses |
| Rsi.CalculateRsi | scripts/comprehensive_data_update_parallel.js:49-96 | the loops build exactly `RsiSeries(prices, period)`, including the all-null short case |
| Rsi.SmoothedValues | scripts/comprehensive_data_update_parallel.js:66-93 | the seed and the smoothing loop give every entry of the specified output |
| Rsi.SmoothedNext | scripts/comprehensive_data_update_parallel.js:83-93 | one smoothing step turns the averages of one index into those of the next, and their RSI is the next entry |
| Rsi.RsiShape | scripts/comprehensive_data_update_parallel.js:50-52 | output length per case; an entry is null exactly at indices `0..period` |
| Rsi.RsiSeed | scripts/comprehensive_data_update_parallel.js:66-80 | the first value is at `period + 1` and uses the plain means of the first `period` gains and losses |
| Rsi.RsiStep | scripts/comprehensive_data_update_parallel.js:83-92 | every later value smooths the previous averages with the change ending at that index |
| Rsi.WilderSkipsPeriod | scripts/comprehensive_data_update_parallel.js:83 | change number `period` never affects any value |
| Rsi.SmoothAtLeast | scripts/comprehensive_data_update_parallel.js:84-85 | a smoothing step keeps a lower bound |
| Rsi.SmoothAtMost | scripts/comprehensive_data_update_parallel.js:84-85 | a smoothing step keeps an upper bound |
| Rsi.WilderAtLeast | scripts/comprehensive_data_update_parallel.js:66-85 | a running average of values at least `lo` is at least `lo` |
| Rsi.WilderAtMost | scripts/comprehensive_data_update_parallel.js:66-85 | a running average of values at most `hi` is at most `hi` |
| Rsi.RsiOfRange | scripts/comprehensive_data_update_parallel.js:75-79 | the RSI of non-negative averages is in [0, 100] |
| Rsi.RsiInRange | scripts/comprehensive_data_update_parallel.js:49-96 | every emitted value is in [0, 100] |
| Rsi.RsiAtExtremes | scripts/comprehensive_data_update_parallel.js:87-91 | zero average loss gives 100; zero gain with non-zero loss gives 0 |
| Rsi.RsiNonDecreasing | scripts/comprehensive_data_update_parallel.js:49-96 | a series that never falls (for example a constant one) has every value equal to 100 |
| Rsi.NoLossesAt | scripts/comprehensive_data_update_parallel.js:75-91 | without losses every value is 100 |
| Rsi.RsiNonIncreasing | scripts/comprehensive_data_update_parallel.js:49-96 | a series that never rises has every value equal to 0 or 100 |
| Rsi.NoGainsAt | scripts/comprehensive_data_update_parallel.js:75-91 | without gains every value is 0 or 100 |
| MovingAverages.Multiplier | scripts/comprehensive_data_update_parallel.js:105 | the EMA weight is in (0, 1] |
| MovingAverages.PrefixSum | scripts/comprehensive_data_update_parallel.js:113-116 | the loop sums the first `period` prices |
| MovingAverages.CalculateEma | scripts/comprehensive_data_update_parallel.js:99-127 | the loops build exactly `EmaSeries(prices, period)` |
| MovingAverages.WindowSum | scripts/comprehensive_data_update_parallel.js:144-147 | the inner loop sums the window of `period` prices ending at `i` |
| MovingAverages.CalculateSma | scripts/comprehensive_data_update_parallel.js:130-152 | the loops build exactly `SmaSeries(prices, period)` |
| MovingAverages.AveragesShape | scripts/comprehensive_data_update_parallel.js:100-110 | both outputs keep the input length; an entry is null exactly before `period - 1`, or everywhere when the input is short |
| MovingAverages.EmaSeededWithSma | scripts/comprehensive_data_update_parallel.js:112-118 | the first EMA equals the first SMA, the mean of the first `period` prices |
| MovingAverages.EmaStep | scripts/comprehensive_data_update_parallel.js:121-124 | each later EMA moves from the previous one toward the price by the multiplier |
| MovingAverages.StepWithin | scripts/comprehensive_data_update_parallel.js:122 | a weighted step between values in [lo, hi] stays in [lo, hi] |
| MovingAverages.EmaWithin | scripts/comprehensive_data_update_parallel.js:112-124 | prices in [lo, hi] give EMA values in [lo, hi] |
| MovingAverages.ConstantAverages | scripts/comprehensive_data_update_parallel.js:99-152 | a constant series has every defined EMA and SMA equal to the constant |
| MovingAverages.SmaBetween | scripts/comprehensive_data_update_parallel.js:143-149 | every SMA lies between the bounds of its window |
| MovingAverages.SmaWithinWindow | scripts/comprehensive_data_update_parallel.js:143-149 | the SMA at `i` is the mean of exactly the `period` prices ending at `i` |
| MovingAverages.SmaSlides | scripts/comprehensive_data_update_parallel.js:143-149 | moving the window by one adds the new price and drops the oldest |
| Gaps.AnalyzeDataGaps | scripts/comprehensive_data_update_parallel.js:237-297 | the loop and the recent check build exactly `AnalysisOf(records, d, now)`, including the empty and failed-read cases |
| Gaps.ScanHistorical | scripts/comprehensive_data_update_parallel.js:253-266 | the scan over neighbouring timestamps builds exactly the historical gaps |
| Gaps.NoHistoricalGapsIff | scripts/comprehensive_data_update_parallel.js:253-266 | no historical gap exactly when no candle is more than one interval after its predecessor |
| Gaps.HistoricalGapsBetween | scripts/comprehensive_data_update_parallel.js:253-266 | every historical gap runs from one interval after a candle to one interval before the next, strictly inside the stored range |
| Gaps.CoversAppend | scripts/comprehensive_data_update_parallel.js:259-264 | appending a gap adds exactly its range to what the list covers |
| Gaps.HistoricalGapsStep | scripts/comprehensive_data_update_parallel.js:253-266 | a new last candle adds at most the gap after the previous candle |
| Gaps.GapsCoverMissing | scripts/comprehensive_data_update_parallel.js:253-266 | on aligned data, a boundary strictly inside the stored range is missing exactly when some historical gap covers it |
| Gaps.EarlierGapsEndBefore | scripts/comprehensive_data_update_parallel.js:253-266 | no historical gap covers the newest candle or later |
| Gaps.AlignedGapsCount | scripts/comprehensive_data_update_parallel.js:262 | on aligned data every historical gap is non-empty, and its count is the number of boundaries from start to end |
| Gaps.AlignedGapCount | scripts/comprehensive_data_update_parallel.js:258-264 | the gap between two aligned candles more than one interval apart is non-empty and counts its boundaries |
| Gaps.MissingMiddleCandle | scripts/comprehensive_data_update_parallel.js:258-264 | candles at 0, 1, 3 give the single gap [2, 2] of one candle |
| Gaps.RecentGapShape | scripts/comprehensive_data_update_parallel.js:269-284 | at most one recent gap; it exists exactly when the next slot is closed; it ends at the last closed boundary; it counts its boundaries |
| Gaps.AnalysisCases | scripts/comprehensive_data_update_parallel.js:245-247 | a failed read gives (no gaps, 0, error); no rows gives (no gaps, 0); otherwise the stored count, the historical gaps, then the recent gap |
| LastWins.LastValueIsLast | python/ingest_cg_ohlc.py:40-42 | `LastValue` finds a pair exactly when one has the key, and no later pair has that key |
| LastWins.AssignAllLookup | python/ingest_cg_ohlc.py:40-42 | after the assignments a key holds its last pair's value, or its old value |
| LastWins.AssignAllIdempotent | python/ingest_cmc_dominance.py:87-95 | running the same assignments twice equals running them once |
| Store.UpsertAllLookup | scripts/comprehensive_data_update_parallel.js:352-367 | after a batch of upserts a key holds the prices of its last entry; its indicators are kept, or null for a new row; other keys are untouched |
| Store.UpsertAllIdempotent | scripts/comprehensive_data_update_parallel.js:352-367 | applying the same batch twice equals applying it once |
| Store.PairTimestamps | scripts/comprehensive_data_update_parallel.js:239-243 | strictly ascending; contains exactly the pair's stored timestamps |
| Store.PairKeys | scripts/comprehensive_data_update_parallel.js:428-446 | the pair's stored keys, in ascending timestamp order |
| Store.PairKeysExact | scripts/comprehensive_data_update_parallel.js:428-432 | a key is listed exactly when it is stored and belongs to the pair |
| GapFill.FillGap | scripts/comprehensive_data_update_parallel.js:306-384 | the task's loop gives exactly `FillOne`: a failed or empty fetch counts as one error; otherwise closed candles are upserted and the written count is returned |
| GapFill.KeepClosed | scripts/comprehensive_data_update_parallel.js:324-344 | the normalise-and-filter loop builds exactly the rows of the closed candles, in fetch order |
| GapFill.WriteRows | scripts/comprehensive_data_update_parallel.js:346-373 | the write loop upserts exactly the rows whose write succeeds and counts them |
| GapFill.InsertDataRows | scripts/comprehensive_data_update_parallel.js:324-344 | the rows kept are exactly the normalised closed candles |
| GapFill.WrittenShrinks | scripts/comprehensive_data_update_parallel.js:351-375 | the successful writes are exactly the rows whose write succeeds |
| GapFill.FillAccounting | scripts/comprehensive_data_update_parallel.js:318-383 | a task reports at least one candle or error; filled plus errors equals the fetched count when candles arrived |
| GapFill.FillNothingUnchanged | scripts/comprehensive_data_update_parallel.js:347-379 | a task that filled nothing leaves the table unchanged |
| GapFill.FillTouchesOnlyClosedPairRows | scripts/comprehensive_data_update_parallel.js:337-367 | only rows of the pair that are closed and written successfully change; existing indicators are kept |
| GapFill.ReduceAccountsForEveryTask | scripts/comprehensive_data_update_parallel.js:392-400 | the totals account for every task; filled is zero exactly when every fulfilled task filled nothing |
| GapFill.FillDataGaps | scripts/comprehensive_data_update_parallel.js:300-401 | no gaps gives (0, 0) and no change; otherwise the table and totals are those of filling each gap in turn |
| GapFill.FillAllAccounting | scripts/comprehensive_data_update_parallel.js:300-401 | one result per gap; filled plus errors is at least the number of gaps; nothing filled leaves the table unchanged |
| IndicatorPatch.Truthy | scripts/comprehensive_data_update_parallel.js:479-483 | a null or zero value is stored as null; any other value is kept |
| IndicatorPatch.Closes | scripts/comprehensive_data_update_parallel.js:461 | one close per listed row |
| IndicatorPatch.ComputedSeries | scripts/comprehensive_data_update_parallel.js:464-468 | one set of five values per close |
| IndicatorPatch.CalculateIndicators | scripts/comprehensive_data_update_parallel.js:404-521 | the method's table and result equal `IndicatorPhase`: the read-failure, nothing-null, no-rows and fewer-than-250 cases, and the patch |
| IndicatorPatch.PatchLoop | scripts/comprehensive_data_update_parallel.js:472-512 | the loop writes `PatchRows` and counts `UpdatedCount` |
| IndicatorPatch.ValuesAt | scripts/comprehensive_data_update_parallel.js:479-483 | the five values at `i` are the truthy-filtered indicator outputs |
| IndicatorPatch.PatchKeepsPrices | scripts/comprehensive_data_update_parallel.js:491-500 | the patch keeps every key and never changes prices |
| IndicatorPatch.PatchedRow | scripts/comprehensive_data_update_parallel.js:486-511 | a visited row gets its computed values exactly when it had a null field and its update succeeded |
| IndicatorPatch.UnvisitedRowUnchanged | scripts/comprehensive_data_update_parallel.js:475 | a row the loop does not visit is unchanged |
| IndicatorPatch.CompleteRowUnchanged | scripts/comprehensive_data_update_parallel.js:486-489 | a row with no null field is unchanged |
| IndicatorPatch.UpdatedCountBounds | scripts/comprehensive_data_update_parallel.js:473-501 | at most one update per row after the warm-up; zero exactly when no row is written |
| IndicatorPatch.ComputedValues | scripts/comprehensive_data_update_parallel.js:464-483 | a value is null exactly in the indicator's undefined prefix, or where it is exactly 0; otherwise it is the indicator's value |
| IndicatorPatch.PairPatchOutcome | scripts/comprehensive_data_update_parallel.js:427-512 | other pairs and the first 200 rows are unchanged; a later row gets its computed values exactly when it needed an update and the update succeeded |
| IndicatorPatch.PatchOutcome | scripts/comprehensive_data_update_parallel.js:474-512 | on distinct keys, a key keeps its prices; an unvisited key keeps its row; a visited key gets the new values exactly when it needed an update and the update succeeded |
| IndicatorPatch.NoPatchesUnchanged | scripts/comprehensive_data_update_parallel.js:475-512 | a loop that writes no row leaves the table unchanged |
| IndicatorPatch.IndicatorPhaseEffect | scripts/comprehensive_data_update_parallel.js:404-521 | error exactly on a failed read; keys kept; no update means no change; updates imply `skipped == 200` and at least 250 rows |
| IndicatorPatch.PatchLoopEffect | scripts/comprehensive_data_update_parallel.js:474-512 | the patch loop keeps the table's keys, writes at most one row per index after the warm-up, and changes nothing when it writes none |
| Orchestrator.Stats.constructor | scripts/comprehensive_data_update_parallel.js:591-598 | all six counters start at zero |
| Orchestrator.ProcessAssetInterval | scripts/comprehensive_data_update_parallel.js:524-579 | the table and counters after one pair are those of `ProcessOutcome`, added to the old counters; `combinations` is unchanged |
| Orchestrator.FillPhase | scripts/comprehensive_data_update_parallel.js:539-556 | the fill counters grow by the fill totals; the new-candle count is the filled total |
| Orchestrator.IndicatorPhaseStep | scripts/comprehensive_data_update_parallel.js:559-570 | the indicator phase runs only when candles were inserted, and its counts are added |
| Orchestrator.ProcessGating | scripts/comprehensive_data_update_parallel.js:530-570 | a failed analysis adds one general error and changes nothing; nothing filled means no indicator work; an indicator error needs a fill and a failed read; every gap counts |
| Orchestrator.OutcomeTotals | scripts/comprehensive_data_update_parallel.js:530-570 | a pair adds a general error exactly when its analysis failed, and does nothing when it filled nothing |
| Orchestrator.FillStageEffect | scripts/comprehensive_data_update_parallel.js:539-556 | every gap counts in the fill totals; a fill that stored nothing leaves the table unchanged |
| Orchestrator.IndicatorStageEffect | scripts/comprehensive_data_update_parallel.js:559-564 | the stage touches only the indicator counters, does nothing without new candles, and counts at most one error |
| Orchestrator.Combinations | scripts/comprehensive_data_update_parallel.js:603-611 | one pair per asset and interval, `assets × intervals` in all |
| Orchestrator.ProcessAll | scripts/comprehensive_data_update_parallel.js:591-618 | `combinations` grows by `assets × intervals`; the table and counters are those of processing every pair in turn |
| Orchestrator.ProcessPairs | scripts/comprehensive_data_update_parallel.js:602-618 | over any list of pairs with known intervals, each pair is counted once and the table and counters are those of processing the pairs in turn |
| Orchestrator.ProcessPair | scripts/comprehensive_data_update_parallel.js:608-611 | counting and processing one more pair extends the run by exactly that pair |
| Orchestrator.RunAllStep | scripts/comprehensive_data_update_parallel.js:603-611 | processing one more pair extends the run by that pair's outcome |
| Orchestrator.RunAllKeeps | scripts/comprehensive_data_update_parallel.js:603-618 | per-pair error and gating facts add up over a run |
| Orchestrator.RunTotals | scripts/comprehensive_data_update_parallel.js:591-638 | a run's general errors are its failed analyses; a run that filled nothing changed nothing and updated no indicator |
| Semaphores.Semaphore.constructor | scripts/comprehensive_data_update_parallel.js:206-210 | it starts with no holders and no waiters, and is valid |
| Semaphores.Semaphore.Acquire | scripts/comprehensive_data_update_parallel.js:212-221 | granted exactly when a permit is free; otherwise the waiter joins the back of the queue; `current <= capacity` and "waiters imply full" are kept |
| Semaphores.Semaphore.Release | scripts/comprehensive_data_update_parallel.js:223-230 | the oldest waiter is woken and keeps the permit, or the count drops by one; the invariant is kept |
| Semaphores.FifoExample | scripts/comprehensive_data_update_parallel.js:212-230 | waiters 7 then 8 on a full semaphore are woken in that order |
| CmcDominance.CmcInterval | python/ingest_cmc_dominance.py:36-42 | accepted exactly for `daily` and `hourly`, unchanged |
| CmcDominance.FetchMarketCaps | python/ingest_cmc_dominance.py:26-63 | a bad interval fails with `ValueError` before any request; otherwise one request and one series per symbol, in order |
| CmcDominance.Positive | python/ingest_cmc_dominance.py:77-78 | every kept timestamp has a positive total |
| CmcDominance.CommonIn | python/ingest_cmc_dominance.py:72-73 | a timestamp is common exactly when every series has it and there is at least one series |
| CmcDominance.PositiveWithin | python/ingest_cmc_dominance.py:75-78 | a timestamp is kept exactly when it was visited and its total is positive |
| CmcDominance.PositiveAscending | python/ingest_cmc_dominance.py:72-78 | ascending visited timestamps give ascending kept ones |
| CmcDominance.FirstValueIsFirst | python/ingest_cmc_dominance.py:76 | the value used is that of the first entry at the timestamp |
| CmcDominance.EmittedExactly | python/ingest_cmc_dominance.py:72-78 | emitted exactly when common and with a positive total; in ascending order |
| CmcDominance.DominanceShape | python/ingest_cmc_dominance.py:74-81 | one list per symbol in input order; every list carries the emitted timestamps; each value is `100 * v / total` |
| CmcDominance.ShareSumPartial | python/ingest_cmc_dominance.py:76-81 | the shares of the first `n` symbols are their part of the total, as a percentage |
| CmcDominance.SharesSumTo100 | python/ingest_cmc_dominance.py:76-81 | at every emitted timestamp the shares add up to 100 |
| CmcDominance.ComputeDominanceSeries | python/ingest_cmc_dominance.py:66-82 | the loops build exactly `Dominance(series)` |
| CmcDominance.SkipNonPositive | python/ingest_cmc_dominance.py:76-77 | a timestamp with a non-positive total leaves the output unchanged |
| CmcDominance.SumAt | python/ingest_cmc_dominance.py:76 | the loop sums the first values at `t` |
| CmcDominance.AppendShares | python/ingest_cmc_dominance.py:79-81 | the inner loop appends one share to every symbol's list |
| CmcDominance.ShareAppended | python/ingest_cmc_dominance.py:79-81 | a positive timestamp appends exactly one point per symbol |
| CmcDominance.PositiveSnoc | python/ingest_cmc_dominance.py:77-78 | a positive timestamp visited last is kept last |
| CmcDominance.SharesOfSnoc | python/ingest_cmc_dominance.py:81 | one more kept timestamp appends one point |
| CmcDominance.UpsertDominance | python/ingest_cmc_dominance.py:85-96 | the table is every point assigned in order; the count is the total number of points |
| CmcDominance.AssignAllConcat | python/ingest_cmc_dominance.py:87-88 | assigning symbol after symbol equals assigning the concatenation |
| CmcDominance.UpsertDominanceEffect | python/ingest_cmc_dominance.py:89-94 | a key holds the close of its last point; other keys are untouched; the upsert is idempotent |
| CgOhlc.FetchOhlcDaily | python/ingest_cg_ohlc.py:25-28 | a list payload is returned unchanged; anything else is a `RuntimeError` naming the payload |
| CgOhlc.DayOf | python/ingest_cg_ohlc.py:41 | the day holds the timestamp: `d * day <= t < (d + 1) * day` |
| CgOhlc.DayEntries | python/ingest_cg_ohlc.py:40-42 | one `(date, volume)` assignment per point, in order |
| CgOhlc.FetchDailyVolumes | python/ingest_cg_ohlc.py:38-43 | the loop assigns every point's volume to its date, in order; a missing list is empty |
| CgOhlc.DailyVolumesLastWins | python/ingest_cg_ohlc.py:39-43 | a date is present exactly when some point falls on it; its volume is that of the last such point |
| CgOhlc.VolumeFor | python/ingest_cg_ohlc.py:52-54 | a volume exactly when there is a dictionary and it has the candle's date |
| CgOhlc.OhlcEntries | python/ingest_cg_ohlc.py:48-68 | one upsert per row, in order |
| CgOhlc.UpsertOhlc | python/ingest_cg_ohlc.py:46-71 | the count is `len(rows)`; the table is every row upserted in order |
| CgOhlc.UpsertOhlcEffect | python/ingest_cg_ohlc.py:55-69 | a candle's key holds the OHLC and volume of its last row; indicators are kept; the upsert is idempotent |
| CgOhlc.LastAt | python/ingest_cg_ohlc.py:65-69 | the last entry with a key is the one found |
| CgOhlc.UpsertOhlcElsewhere | python/ingest_cg_ohlc.py:65-69 | keys not named by any row are untouched |
| CgOhlc.VolumeCleared | python/ingest_cg_ohlc.py:63-67 | re-ingesting a stored candle without a volume for its date sets its volume to none |

Arithmetic proof helpers have no row because they model no source line. They are `TimeGrid.AlignedApart`, `TimeGrid.AlignedShift`, `TimeGrid.MinutesOf`, `Gaps.DivPlusOne`, `Orchestrator.PlusAssociative`, `CmcDominance.WholeIsHundred` and the `Util` lemmas on sums and real division.

## Left out

- HTTP fetching with retries and backoff (`fetchBybitOHLCV`, `requests.get`). What a fetch returns is a parameter. A fetch that fails after its retries is a `FetchFailed` outcome.
- Concurrency. The gap tasks of a pair and the pairs of a run are processed one after another. `Promise.allSettled` is the `Settled` list of outcomes. The semaphore is modelled on its own; the gap tasks do not call it, and interleavings are not modelled.
- GapFill.FillGap: `DB_BATCH_SIZE` batching is not modelled. The upserts of one batch run concurrently; the model runs them one after the other, in fetch order. That matches the source only when the exchange returns distinct timestamps within a gap. With two candles of the same timestamp in one batch, the source need not end with the last one, as `Store.UpsertAllLookup` states.
- GapFill.FillOne: the request parameters are not tied to the fetch. The exchange call of a gap task is the parameter `fetch: Gap -> Fetch`. The model does not state that the task asks for symbol `TimeGrid.ExchangeSymbol(asset)`, code `TimeGrid.BybitInterval(interval)` and the range from `gap.startTs` to `gap.endTs`. Those two functions are modelled and proved on their own.
- Floating point. Prices and indicators are reals. `parseFloat`/`float()` are not modelled. `Math.round(x * 100) / 100` rounding is left out. Only its null-or-zero truthiness test is kept (`IndicatorPatch.Truthy`).
- Time. The clock is one `now` per pair. The candle filter reads `Date.now()` once per candle, and that is not modelled. `formatTimestamp`, logging and durations are left out.
- Gaps.AnalyzeDataGaps: does not return `latestTs` and `earliestTs`, because they are only logged.
- Orchestrator.ProcessAssetInterval: the outer `catch` is not modelled. Every stage it wraps catches its own errors already.
- Orchestrator.PairStep: an interval outside the supported list is treated as a pair with no effect. `getIntervalMs` would give `undefined` there, and the job never passes such an interval.
- Orchestrator.ProcessAll: the per-interval log lines of `comprehensiveDataUpdateParallel` are not modelled. The final `totalErrors` sum is also not modelled, because it is only printed.
- Store errors are booleans or per-key predicates. Error messages are not modelled.
- CmcDominance.FirstValue: returns 0 for a timestamp the series lacks. It is only asked about common timestamps, where `next` always finds one.
- CmcDominance.FetchMarketCaps: the request parameters, the API key and timestamp parsing are not modelled. The quotes of each id are a parameter.
- Malformed rows, such as a short row raising `IndexError` or a non-numeric field, are not modelled. Rows are typed records.
- CgOhlc.FetchOhlcDaily: the `repr` of the payload is given as a string.
- The API routes, the dev logging script, `main`, argument parsing and schema creation are not part of this model.
