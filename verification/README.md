# finorax core, modelled in Dafny

finorax runs crypto-news "rounds". Every half hour it ingests news events and extracts the asset symbols they mention. Agents then turn the events into directional observations. Each round window is later scored against the price change of the assets, using candle data and technical indicators (RSI, SMA and SMA crosses) taken from an exchange.

This project models the deterministic core of that pipeline. It treats the clock, the exchange, the database, the language model and the news feed as parameters or oracle functions. The modules follow the source files:

- `Time` is `snap_to_interval` and its frequency parser. It works on integer epoch seconds and a zone flag. The backfill use case's `_parse_freq_seconds` (src/application/use_cases/backfill_recent_rounds.py:26-32) has the same grammar and unit table, so `Time.ParseFreq` models both.
- `Rounds` holds the round value objects and `Round.snapped`.
- `Candles` and `Indicators` hold the candle handling and indicator arithmetic of the ccxt indicator service. They cover the last-closed-candle target, normalisation, merge, Wilder RSI series, SMA at an index, the cross rule and RSI selection. Prices are `real`.
- `IndicatorService` holds the three queries `get_rsi`, `get_sma` and `get_sma_cross`. The exchange is a record of oracles.
- `EvaluateRound` is the round evaluation use case. Its price-change source is an oracle from symbol to an optional percentage.
- `Backfill` plans the most recent rounds. The stored-key query, the event counts and the round keys are oracles. The work done per window is an action log.
- `Events` and `EventStore` hold event construction and the in-memory event repository.
- `AssetExtractor` models the regular expression scan of the asset extractor, as `finditer` performs it, plus category matching and sorting.
- `Config` holds the dotted-path configuration lookup and the environment fallback, with the environment as a function.
- `FakeFeed` is the canned feed of the examples.
- `Cron` is the tick dispatch, the half-hour window and the sleep computation of the scheduler.
- `Text`, `Slices`, `StableSort`, `Arith` and `Wrappers` are the Python built-ins the core relies on: `str.strip`/`upper`/`split`, slicing, the stable `list.sort`, and `Result`/`Option`.

## Model

| member | source | states |
|---|---|---|
| Time.ParseFreq | src/shared/utils/time.py:5-13 | An accepted frequency is a whole number of minutes; every rejection is the frequency error |
| Time.ParseFreqAccepts | src/shared/utils/time.py:7-13 | Whitespace, digits, optional inner whitespace, one of m/h/d in either case, whitespace: accepted with value count × 60/3600/86400 |
| Time.ParseFreqShape | src/shared/utils/time.py:9-13 | Conversely, an accepted text is leading whitespace, one or more digits, whitespace, one unit letter and trailing whitespace, with the value those digits and that unit give; so "1 2h" and "1h1h" are rejected |
| Time.ParseFreqAlphabet | src/shared/utils/time.py:9-11 | An accepted text holds only whitespace, digits and unit letters |
| Time.EquivalentUnits | src/shared/utils/time.py:5-13 | Two frequencies naming the same number of minutes (such as "24h" and "1d") give the same step |
| Time.MissingCountFails | src/shared/utils/time.py:9-11 | A unit with no count in front of it ("h") is rejected |
| Time.ForeignCharacterFails | src/shared/utils/time.py:9-11 | Any character other than whitespace, a digit or a unit letter ("1x", "-1h", "1.5h") makes the parse fail |
| Time.ModeOf | src/shared/utils/time.py:36-43 | Exactly "floor", "ceil" and "nearest" are modes |
| Time.FloorTo | src/shared/utils/time.py:36-37 | The result is on the grid, at or below the instant, and less than a step below it |
| Time.CeilTo | src/shared/utils/time.py:38-39 | The result is on the grid, at or above the instant, and less than a step above it |
| Time.NearestTo | src/shared/utils/time.py:40-41 | The result is on the grid, at most half a step above the instant and strictly less than half a step below it |
| Time.Snap | src/shared/utils/time.py:15-45 | The frequency error comes first, then the zero step, then an unknown mode; success exactly when all three pass; the result is UTC-aware and on the grid |
| Time.SnapFloor | src/shared/utils/time.py:36-37 | Floor mode yields the grid point g with g ≤ t < g + step |
| Time.SnapCeil | src/shared/utils/time.py:38-39 | Ceil mode yields the first grid point at or after t, and leaves an on-grid t where it is |
| Time.SnapNearest | src/shared/utils/time.py:40-41 | Nearest mode is the floor when the remainder is under half a step and the ceiling otherwise, so an exact tie rounds up |
| Time.SnapWithStep | src/shared/utils/time.py:28-39 | Once the step is known, floor and ceil mode agree with the grid functions |
| Time.OnGridFixed | src/shared/utils/time.py:34-41 | Every mode leaves an on-grid point unchanged |
| Time.SnapIdempotent | src/shared/utils/time.py:15-45 | Snapping a snapped instant again with the same frequency and mode returns it unchanged |
| Time.ZeroCountFails | src/shared/utils/time.py:13-34 | A zero count passes the parser with step 0 and then fails when snapping |
| Rounds.Snapped | src/domain/rounds.py:15-23 | The key is kept; each bound is snapped on its own with its own mode; the start's error is reported first |
| Rounds.SnappedFloorBounds | src/domain/rounds.py:15-23 | With the default floor modes each bound is on the grid, no later than before and less than one step earlier |
| Rounds.SnappedIdempotent | src/domain/rounds.py:15-23 | Snapping a snapped round again with the same arguments changes nothing |
| Rounds.SnappedMayCollapse | src/domain/rounds.py:21-23 | No ordering check: a window inside one grid step snaps to start == end |
| Events.EventId | src/domain/events.py:19 | The id is the source, then ':', then the external id: its prefix is the source and the rest after the ':' is the external id |
| Events.FromDto | src/domain/events.py:11-23 | Rejected exactly when the instant is not UTC-aware (that error first) or the stripped title is blank; otherwise the id, the unchanged instant and the stripped title and content |
| Events.FromDtoStripped | src/domain/events.py:15-22 | An accepted event's title is non-empty and neither title nor content has surrounding whitespace |
| Events.EventIdSplits | src/domain/events.py:19 | Splitting an id at its first ':' gives back the colon-free source and the external id |
| EventStore.SrcExtKey | src/infrastructure/repositories/inmemory/events.py:20-28 | An id has a key exactly when it splits at its first ':' into two non-empty parts, and the key rebuilds the id |
| EventStore.SrcExtKeyOfEventId | src/infrastructure/repositories/inmemory/events.py:20-28 | An id built from a colon-free source and an external id, both non-empty, is keyed by exactly that pair |
| EventStore.UpsertOneById | src/infrastructure/repositories/inmemory/events.py:28-44 | On a consistent store one upsert writes the event under its own id, counts as an update exactly when the id was stored, grows the store by one otherwise, and keeps both indexes consistent |
| EventStore.UpsertIndexed | src/infrastructure/repositories/inmemory/events.py:30-33 | The update branch: the id indexed under the event's key is the event's own id |
| EventStore.UpsertNewKey | src/infrastructure/repositories/inmemory/events.py:34-37 | The keyed insert branch: the id was not stored and indexing it keeps the store consistent |
| EventStore.UpsertMany | src/infrastructure/repositories/inmemory/events.py:11-48 | The store after the batch equals writing each event under its id in order; the events come back in order; inserted + updated is the batch size; the count grows by `inserted` |
| EventStore.Count | src/infrastructure/repositories/inmemory/events.py:56-57 | The number of stored events; on a consistent store it is at least the number of indexed (source, external id) pairs |
| EventStore.Get | src/infrastructure/repositories/inmemory/events.py:53-54 | Some exactly when the id is stored, holding the stored event |
| EventStore.GetAfterApply | src/infrastructure/repositories/inmemory/events.py:30-54 | After a batch, `get(id)` is the batch's last event with that id, or what was stored before when the batch has none |
| EventStore.ApplyTwice | src/infrastructure/repositories/inmemory/events.py:11-48 | Upserting the same batch twice stores what upserting it once does |
| Config.ConfGet | src/config/loader.py:33-37 | A missing or empty configuration gives the default |
| Config.ConfGetKey | src/config/loader.py:38-42 | A present key yields its value, even `None` or a falsy one; an absent key yields the default |
| Config.ConfGetNested | src/config/loader.py:38-42 | Looking up "a.rest" is looking up "rest" in the dictionary under "a" |
| Config.ConfGetBlocked | src/config/loader.py:39-40 | A missing segment or a non-dictionary on the way yields the default |
| Config.EnvOrValue | src/config/loader.py:45-50 | A set variable named by a non-empty name wins even when empty; otherwise the value unless `None`, then the default |
| Config.IntOf | examples/cron_backfill_loop.py:93-105 | `int()` of a configuration value: integers stay as they are, booleans are 0 and 1, text is stripped and read as an integer literal; `None`, lists and dictionaries raise |
| Config.ParseInt | examples/cron_backfill_loop.py:93-105 | `int()` of stripped text accepts exactly an optional sign followed by digits, where a single underscore may stand between two digits; the value is those digits in base ten, negated after a minus |
| Config.ParseIntText | examples/cron_backfill_loop.py:93-105 | `int()` reads back the decimal text `str()` writes for any integer |
| Config.IntOfText | examples/cron_backfill_loop.py:93-105 | `int()` also reads back `str()` of any integer with whitespace on either side |
| FakeFeed.Filter | examples/_fake_feed.py:11-12 | Exactly the items published before `until`, taken from the list |
| FakeFeed.FilterCount | examples/_fake_feed.py:11-12 | The filter has exactly one entry per position whose item is before `until`, so repeated items are kept |
| FakeFeed.FilterPrefix | examples/_fake_feed.py:11-12 | Filtering keeps list order: the filter of a prefix is a prefix of the filter |
| FakeFeed.Fetch | examples/_fake_feed.py:9-13 | Comparing naive with aware instants raises; otherwise the first min(`limit`, n) items of the filtered list (of the list itself without `until`), n being that list's length |
| FakeFeed.Reference | examples/_fake_feed.py:16 | An explicit `now` is kept; otherwise the clock truncated to the minute, in UTC |
| FakeFeed.MakeFakeItems | examples/_fake_feed.py:15-42 | Three CoinDesk items published 50, 20 and 10 minutes before the reference instant |
| FakeFeed.FakeItemsTimeline | examples/_fake_feed.py:15-42 | The fake items are strictly ascending in time, all strictly before the reference instant and in its zone |
| FakeFeed.FetchFakeUntilReference | examples/_fake_feed.py:9-42 | Fetching the fake items until their reference instant returns the oldest `limit` of them |
| AssetExtractor.Clean | src/application/services/asset_extractor.py:24 | A blank entry is dropped; any other entry is stored stripped and upper-cased |
| AssetExtractor.New | src/application/services/asset_extractor.py:21-25 | The known symbols are exactly the cleaned non-blank entries |
| AssetExtractor.NewWellFormed | src/application/services/asset_extractor.py:24 | Every known symbol is non-empty, upper case and has no surrounding whitespace |
| AssetExtractor.LongestAt | src/application/services/asset_extractor.py:62-65 | The alternation picks a matching known symbol at least as long as every other match at that position, and none when nothing matches |
| AssetExtractor.MatchAt | src/application/services/asset_extractor.py:64-65 | A match needs no letter or digit before it, an optional '$', a known symbol ignoring case, and no letter or digit after it |
| AssetExtractor.ScanSound | src/application/services/asset_extractor.py:38-40 | Every symbol the scan reports is a known symbol standing on its own in the text |
| AssetExtractor.ScanComplete | src/application/services/asset_extractor.py:38-40 | A known letters-and-digits symbol standing on its own anywhere at or after the position is reported by the scan |
| AssetExtractor.MatchDoesNotHide | src/application/services/asset_extractor.py:40-65 | A match never swallows the start of a standalone letters-and-digits symbol |
| AssetExtractor.OccursInTitle | src/application/services/asset_extractor.py:38 | A symbol standing on its own in the title stands on its own at the same place in the searched text |
| AssetExtractor.OccursInContent | src/application/services/asset_extractor.py:38 | A symbol standing on its own in the content stands on its own in the searched text, past the title and the " \n " separator |
| AssetExtractor.CategoryMatches | src/application/services/asset_extractor.py:43-44 | Exactly the known symbols that some category normalises to |
| AssetExtractor.ExtractSymbols | src/application/services/asset_extractor.py:31-46 | No known symbols gives the empty set; every result is known and comes from the text or a category; every category match is included |
| AssetExtractor.ExtractFindsStandalone | src/application/services/asset_extractor.py:31-46 | For letters-and-digits symbols, every known symbol standing on its own in the title or in the content is extracted |
| AssetExtractor.ExtractAssets | src/application/services/asset_extractor.py:48-54 | One asset per extracted symbol, strictly ascending, so unique and sorted |
| Candles.TruncToInt | src/infrastructure/indicators/ccxt_service.py:234 | `int()` of a float truncates toward zero |
| Candles.ParseRow | src/infrastructure/indicators/ccxt_service.py:229-236 | A row becomes a candle exactly when it has six convertible leading fields |
| Candles.Normalize | src/infrastructure/indicators/ccxt_service.py:227-239 | The result is a permutation of the converted rows, no longer than the input, with non-decreasing timestamps |
| Candles.NormalizeStable | src/infrastructure/indicators/ccxt_service.py:238 | Candles with one timestamp keep their row order (the sort is stable, no de-duplication) |
| Candles.NormalizeMembers | src/infrastructure/indicators/ccxt_service.py:227-239 | A candle is in the result exactly when some row converts to it |
| Candles.Merge | src/infrastructure/indicators/ccxt_service.py:291-296 | Strictly ascending timestamps; the timestamp set is the union of both inputs; on a shared timestamp the last candle of `b` wins, otherwise the last of `a` |
| Candles.MergeElements | src/infrastructure/indicators/ccxt_service.py:291-296 | Every merged candle is the one the dictionary keeps for its timestamp |
| Candles.UpsertAllLookup | src/infrastructure/indicators/ccxt_service.py:292-294 | After writing a batch into the timestamp dictionary, a timestamp maps to the batch's last candle with it, or to the old entry |
| Candles.IndexOfTs | src/infrastructure/indicators/ccxt_service.py:278-282 | None exactly when no candle has the timestamp; otherwise the first position holding it |
| Indicators.PyFloorDiv | src/infrastructure/indicators/ccxt_service.py:70 | Python's `//` floors for either sign of divisor |
| Indicators.LastClosedCandle | src/infrastructure/indicators/ccxt_service.py:68-70 | The target is on the frame grid with target < t ≤ target + frame: the last candle closed strictly before `at` |
| Indicators.Gains | src/infrastructure/indicators/ccxt_service.py:246-247 | One gain per step, never negative |
| Indicators.Losses | src/infrastructure/indicators/ccxt_service.py:246-248 | One loss per step, never negative |
| Indicators.WilderAvg | src/infrastructure/indicators/ccxt_service.py:251-269 | The smoothed average of non-negative values is non-negative |
| Indicators.WilderNext | src/infrastructure/indicators/ccxt_service.py:268-269 | One smoothing step keeps an average non-negative, positive, or zero |
| Indicators.ComputeRsi | src/infrastructure/indicators/ccxt_service.py:256-260 | The RSI lies in [0, 100]; it is 100 when the average loss is zero and 0 when only losses occur |
| Indicators.ComputeRsiSeries | src/infrastructure/indicators/ccxt_service.py:241-272 | The loop computes the closed-form series: one entry per close, present exactly at indices ≥ period when there are at least period + 1 closes, each in [0, 100] |
| Indicators.RsiSeriesFirst | src/infrastructure/indicators/ccxt_service.py:100-102 | The first present RSI stands at index `period`, or there is none when the closes are too few |
| Indicators.RsiOfRisingCloses | src/infrastructure/indicators/ccxt_service.py:251-270 | Closes that never fall give an RSI of 100 everywhere |
| Indicators.RsiOfFallingCloses | src/infrastructure/indicators/ccxt_service.py:251-270 | Closes that fall at every step give an RSI of 0 everywhere |
| Indicators.SmaAtIndex | src/infrastructure/indicators/ccxt_service.py:284-289 | None exactly when fewer than `period` closes end at the index |
| Indicators.SmaLocal | src/infrastructure/indicators/ccxt_service.py:287-289 | Only the `period` closes ending at the index affect the average |
| Indicators.SmaWindow | src/infrastructure/indicators/ccxt_service.py:284-289 | Over a full window the average is the sum of the `period` closes ending at the index, divided by `period` |
| Indicators.SmaSlides | src/infrastructure/indicators/ccxt_service.py:284-289 | Moving one step adds the new close and drops the oldest, scaled by the period |
| Indicators.SmaOfConstant | src/infrastructure/indicators/ccxt_service.py:284-289 | A window of equal closes averages to that close |
| Indicators.CrossOf | src/infrastructure/indicators/ccxt_service.py:210-216 | Bullish iff fast was below slow and is now at or above it; bearish iff fast was above and is now at or below |
| Indicators.CrossSymmetric | src/infrastructure/indicators/ccxt_service.py:210-216 | Swapping the roles of the two averages swaps bullish and bearish |
| Indicators.NoCrossWithoutChange | src/infrastructure/indicators/ccxt_service.py:210-216 | An average staying strictly on one side of the other gives no signal |
| Indicators.FirstSome | src/infrastructure/indicators/ccxt_service.py:100 | None exactly when no value is present; otherwise the first present index |
| Indicators.TsDict | src/infrastructure/indicators/ccxt_service.py:104 | The dictionary's keys are the timestamps of present values in the range, each holding one of them |
| Indicators.TsDictLast | src/infrastructure/indicators/ccxt_service.py:104 | A key holds the value of the last index that carries it |
| Indicators.MaxAtMost | src/infrastructure/indicators/ccxt_service.py:107-110 | The greatest timestamp at or before the target among present values, or None when there is none |
| Indicators.SelectRsi | src/infrastructure/indicators/ccxt_service.py:104-113 | The target's value if present; else the value at the greatest key at or before the target; an error exactly when every key is after the target |
| IndicatorService.MarketSymbol | src/infrastructure/indicators/ccxt_service.py:57 | An explicit non-empty market wins; otherwise the stripped upper-cased base, '/', and the stripped upper-cased quote |
| IndicatorService.MarketSymbolSplits | src/infrastructure/indicators/ccxt_service.py:57 | A derived symbol splits at its first '/' into the normalised base and quote |
| IndicatorService.ResolveMarket | src/infrastructure/indicators/ccxt_service.py:58-62 | Accepted exactly when the cached list or a successful reload has the symbol; a miss whose reload raises is an exchange failure, a miss on both lists the unknown-market error |
| IndicatorService.Fetch | src/infrastructure/indicators/ccxt_service.py:78-79 | A failed request is an error; otherwise the normalised rows |
| IndicatorService.Refetch | src/infrastructure/indicators/ccxt_service.py:83-93 | A first batch holding the target is kept; otherwise exactly `Merge` of the first batch with the normalised batch fetched from the target (the fetched candle wins on a shared timestamp), which holds every timestamp of either, strictly ascending |
| IndicatorService.RsiFromCandles | src/infrastructure/indicators/ccxt_service.py:95-113 | Fewer than `period + 1` candles is the insufficient-data error; when every candle from index `period` on lies after the target, the RSI is unavailable; otherwise the value, in [0, 100], is the RSI at the candle whose timestamp is the target's, or else the greatest one before it (the last such candle when timestamps repeat) |
| IndicatorService.SelectedIsRsiAt | src/infrastructure/indicators/ccxt_service.py:101-113 | The selection from the timestamp dict fails exactly when every candle with an RSI lies after the target; otherwise it is the RSI at that pick |
| IndicatorService.RsiAtTarget | src/infrastructure/indicators/ccxt_service.py:104-113 | With distinct ascending timestamps, a target candle with an RSI yields exactly that RSI |
| IndicatorService.RsiFromExchange | src/infrastructure/indicators/ccxt_service.py:74-79 | The first request asks for 3·period + 2 candles from 3·period frames before the target; a failure raises, otherwise the rest follows from its candles |
| IndicatorService.RsiFromFirst | src/infrastructure/indicators/ccxt_service.py:80-113 | An empty first batch is the no-data error; otherwise the target refetch, whose failure raises, and then the RSI read off the resulting candles |
| IndicatorService.GetRsi | src/infrastructure/indicators/ccxt_service.py:44-113 | Checks in order: UTC-aware, positive period, known market (the market error, or the exchange failure of the reload), a valid positive frame; past them the answer is the exchange part at the last closed candle's timestamp, so a value is the RSI of the fetched candles at the target |
| IndicatorService.SmaFromCandles | src/infrastructure/indicators/ccxt_service.py:148-156 | Insufficient data exactly when the target candle is missing or fewer than `period` closes end at its first occurrence; otherwise the average there |
| IndicatorService.Gather | src/infrastructure/indicators/ccxt_service.py:142-146 | Succeeds exactly when the first request and the target refetch do, giving the refetch's candles |
| IndicatorService.SmaFromExchange | src/infrastructure/indicators/ccxt_service.py:138-156 | `period + 2` candles from `period - 1` frames back, the target refetch, then the average; a failed request raises |
| IndicatorService.GetSma | src/infrastructure/indicators/ccxt_service.py:115-156 | Same checks, then an unknown timeframe and a zero frame fail; past them the answer is the exchange part at the last closed candle's timestamp, so a value is the average of the fetched candles ending at the target |
| IndicatorService.CrossAt | src/infrastructure/indicators/ccxt_service.py:201-216 | The fast and slow averages at the index and one earlier, and the cross rule applied to them |
| IndicatorService.SmaCrossFromCandles | src/infrastructure/indicators/ccxt_service.py:197-224 | Insufficient data exactly when the target candle is missing or has fewer than `slow` candles before it; otherwise the four averages and the signal at its first occurrence |
| IndicatorService.CrossFromExchange | src/infrastructure/indicators/ccxt_service.py:186-224 | `slow + 4` candles from `slow` frames back, the target refetch of `slow + 3`, then the cross; a failed request raises |
| IndicatorService.GetSmaCross | src/infrastructure/indicators/ccxt_service.py:158-224 | Non-positive periods, then fast ≥ slow, are rejected before the market lookup; then an unknown timeframe and a zero frame fail; past them the answer is the exchange part at the last closed candle's timestamp |
| IndicatorService.PeriodChecksPrecedeExchange | src/infrastructure/indicators/ccxt_service.py:53-55 | A query whose periods are rejected gives the same answer on every exchange |
| StableSort.SortSorted | src/application/use_cases/evaluate_round.py:75 | The sort orders by key |
| StableSort.SortStable | src/application/use_cases/evaluate_round.py:75 | Elements with equal keys keep their input order |
| StableSort.Sort | src/application/use_cases/evaluate_round.py:75 | The sort is a permutation |
| EvaluateRound.AgentOrder | src/application/use_cases/evaluate_round.py:64-72 | The scored agents: distinct, and exactly those with at least one contribution |
| EvaluateRound.Queries | src/application/use_cases/evaluate_round.py:46-61 | The symbols asked about: distinct, and exactly the normalised symbols of usable observations |
| EvaluateRound.Entries | src/application/use_cases/evaluate_round.py:66-73 | One line per scored agent, holding its total and its usable-observation count |
| EvaluateRound.Lookup | src/application/use_cases/evaluate_round.py:40-61 | One price lookup: an unusable observation is skipped; otherwise the oracle's answer, asked once per symbol, with failures remembered |
| EvaluateRound.Accumulate | src/application/use_cases/evaluate_round.py:63-64 | Adding a contribution keeps the running totals equal to the reference sums |
| EvaluateRound.Tally | src/application/use_cases/evaluate_round.py:39-64 | The scoring loop yields the agent order, per-agent totals equal to the sum of pct × zi_score, and the list of symbols queried |
| EvaluateRound.CountUsable | src/application/use_cases/evaluate_round.py:67-70 | Each agent's count is the number of its observations with a non-blank symbol and a score |
| EvaluateRound.CountTest | src/application/use_cases/evaluate_round.py:69 | The counting test on the stripped symbol agrees with the scoring filter on the upper-cased one |
| EvaluateRound.Run | src/application/use_cases/evaluate_round.py:22-88 | Non-UTC bounds fail first, then snapping, then an empty or future window, then a raising `list_in_window`; otherwise the caller's round with the sorted lines, each symbol queried once |
| EvaluateRound.EvaluationSorted | src/application/use_cases/evaluate_round.py:75 | The lines come out with scores non-increasing |
| EvaluateRound.EvaluationLines | src/application/use_cases/evaluate_round.py:66-75 | A line is present exactly for each contributing agent, with its total and count |
| EvaluateRound.EvaluationTiesKeepOrder | src/application/use_cases/evaluate_round.py:72-75 | Agents with equal scores keep the order of their first contribution |
| EvaluateRound.FailedSymbolStillCounted | src/application/use_cases/evaluate_round.py:59-70 | A usable observation whose symbol failed adds nothing to any score but still counts for its agent |
| Backfill.Windows | src/application/use_cases/backfill_recent_rounds.py:113-121 | `n` windows, the i-th counted back from the anchor |
| Backfill.WindowsTile | src/application/use_cases/backfill_recent_rounds.py:116-121 | Every window is one step long and UTC-aware; the first ends at the anchor; window i + 1 ends where window i starts |
| Backfill.WindowsOnGrid | src/application/use_cases/backfill_recent_rounds.py:109-121 | With the anchor on the grid, every bound is on the grid |
| Backfill.IngestCategories | src/application/use_cases/backfill_recent_rounds.py:157-162 | A missing or empty category list is passed to ingestion as `None`, any other list as it is |
| Backfill.WindowActions | src/application/use_cases/backfill_recent_rounds.py:143-204 | A processed window ingests (only when asked to) up to its end with the run's limit and the tuned categories, then generates over the window with the per-agent limit and token budget, then evaluates it with the run's quote and timeframe |
| Backfill.Run | src/application/use_cases/backfill_recent_rounds.py:96-206 | Defaults n = 10, "1h", limit 500, "USDT"; n ≤ 0 gives zeros and no work; a bad timeframe fails before any work, then a raising `existing_round_keys`; otherwise requested = n, existing = size of the stored-key set, processed + skipped = n, and the call log is the plan |
| Backfill.ProcessWindow | src/application/use_cases/backfill_recent_rounds.py:128-204 | One loop pass keeps the counters and the action log equal to their reference definitions |
| Backfill.PlanSkipsStored | src/application/use_cases/backfill_recent_rounds.py:129-131 | No action touches a window whose key is stored |
| Backfill.PlanEvaluates | src/application/use_cases/backfill_recent_rounds.py:128-204 | A window is evaluated exactly when it is one of the windows and its key is not stored, failures or not |
| Backfill.PlanIngests | src/application/use_cases/backfill_recent_rounds.py:143-162 | With distinct keys, a window is ingested exactly when it is processed and ingestion is not ruled out by a positive minimum it already meets |
| Backfill.PlanArguments | src/application/use_cases/backfill_recent_rounds.py:157-204 | Every call in the log carries the source's arguments: the ingest limit and categories, the per-agent limit and token budget, the quote and timeframe |
| Cron.TickFreqSeconds | examples/cron_backfill_loop.py:189 | The loop frequency "30m" is 1800 seconds |
| Cron.BackfillCall | examples/cron_backfill_loop.py:82-107 | The backfill call is made exactly when every integer setting it converts is readable; it carries the round count, timeframe, ingest limit and quote of `run` and the per-agent limit, token budget, categories, indicator timeframe, periods and minimum events of the constructor |
| Cron.HalfHourWindow | examples/cron_backfill_loop.py:122-123 | The end is the half-hour mark at or before `now`, the start 30 minutes earlier |
| Cron.WindowEndIsSnap | examples/cron_backfill_loop.py:122 | The window end equals `snap_to_interval(now, "30m", "floor")` |
| Cron.RunTick | examples/cron_backfill_loop.py:75-180 | Minute 0 logs exactly the backfill call `BackfillCall` builds from the settings, or nothing when one does not convert; minute 30 runs ingest, then generate; a call is skipped only when reading its settings raises, never because another call raised; other minutes do nothing |
| Cron.HalfHourTick | examples/cron_backfill_loop.py:120-163 | At :30, ingest runs up to the window end and generate covers the half hour just ended, from the full hour to :30 |
| Cron.HalfHourArguments | examples/cron_backfill_loop.py:126-163 | At :30, each call is stated on its own, guarded only by its own settings: ingest gets the ingest limit and categories and runs to the window end; generate gets the indicator timeframe and periods, the per-agent limit and the token budget, and covers the half-hour window |
| Cron.SleepSeconds | examples/cron_backfill_loop.py:198-202 | The sleep reaches the next half-hour mark (zero when on it), plus min(jitter, 5) for a positive jitter |
| Cron.NextTickIsSnap | examples/cron_backfill_loop.py:199 | The next tick is `snap_to_interval(now, "30m", "ceil")` |
| Cron.Start | examples/cron_backfill_loop.py:183-205 | A non-numeric jitter raises; an eager start runs one tick first; then the first sleep |
| Cron.DefaultSettings | examples/cron_backfill_loop.py:92-106 | With no configuration the settings are 256 tokens, RSI 14, SMA 50/200, minimum 0 events, 2 rounds, ingest limit 500, timeframes "1h", quote "USDT", no per-agent limit and no categories |
| Text.Strip | src/domain/events.py:15 | `str.strip()`: the result is the text with its leading and trailing whitespace removed and nothing else |
| Text.Upper | src/application/services/asset_extractor.py:24 | `str.upper()` upper-cases each ASCII letter in place |
| Text.JoinSplit | src/config/loader.py:40 | Splitting at a separator and joining back gives the text |
| Text.PartitionFirst | src/infrastructure/repositories/inmemory/events.py:22-23 | `split(sep, 1)`: None exactly when the separator is absent; otherwise a separator-free head, the separator and the rest |

## Left out

- Floating point: prices, averages, RSI and percentage changes are exact `real`s, so no IEEE rounding is modelled.
- Sub-second precision: instants are whole epoch seconds, and `at.timestamp() * 1000` is exact.
- The wall clock, `time.sleep`, logging and the infinite loop of the scheduler: `now` is a parameter, and `Cron.Start` models the first tick and the first sleep only.
- Network, database and exchange calls are oracle parameters. These are `fetch_ohlcv`, `load_markets` (the market list before and after a reload), `parse_timeframe` (already scaled to milliseconds), `existing_round_keys`, `count_in_window` and `list_in_window`. Each one that can raise returns `None` for the raise: outside a handler that is the exchange failure (`fetch_ohlcv`, the reload) or the repository failure (`existing_round_keys`, `list_in_window`), and for `parse_timeframe` the invalid-timeframe error.
- The use cases backfill and the scheduler call (ingest, generate observations, evaluate) are not modelled inside. They appear as logged calls whose failure is a parameter, because every one of them is wrapped in a try/except that only logs.
- `get_price_change` has no body among the modelled files, so it is an oracle from symbol to an optional percentage. `None` stands for a raised exception. It receives only the symbol, because the window, timeframe and quote are the same for every call in one run.
- Persisting the evaluation (`save_evaluation`) is left out; its failures are swallowed, so it cannot change the result.
- The score record follows the shape the evaluation use case builds and the rounds repository persists: agent, score and observations count. The declaration in src/domain/rounds.py lists an observation id instead.
- EvaluateRound.Run: as written, src/application/use_cases/evaluate_round.py:73 builds `RoundAgentScore(agent_id=..., score=..., observations_count=...)`, but the frozen dataclass at src/domain/rounds.py:26-30 declares `agent_id, observation_id, score`. That call sits outside any handler, so `run` raises TypeError whenever some agent has a contribution; it returns normally only when `by_agent_scores` stays empty. The model returns the sorted lines of the record shape the use case evidently intends, and does not promise the as-written TypeError.
- `load_base_config` reads a file, so the configuration is a parameter. YAML floats and `str()` of non-text values are not modelled: `render` stands for `str()`.
- `int()` of text reads ASCII digits only; non-ASCII decimal digits are not modelled.
- Text is ASCII: whitespace, letters, digits, `upper()` and the regular expression's IGNORECASE follow ASCII rules, not Unicode.
- The asset extractor reads title, content and categories. The domain event record has no categories field, so the extractor's input is its own record `Item`.
- A `None` observation symbol is read as the empty text, as `(o.asset_symbol or "")` does.
- The strftime round keys are an abstract function `keyOf`.
- Backfill.PlanIngests: requires the window keys to be distinct. They are when `keyOf` is injective, which the strftime format gives for distinct minutes.
- Cron.RunTick: reads the configuration once per tick (`Cron.ReadSettings`) instead of once per setting; the reads are pure, so the values are the same.
- Backfill.Run: the constructor's indicator settings (src/application/use_cases/backfill_recent_rounds.py:58-61) only configure the snapshot builder inside the observation generator, so `Tuning` leaves them out; the scheduler's `Cron.BackfillCall` does carry them.
- Constructor wiring is left out: the dependency dictionary, `make_supabase`, `build_dependencies` and the use-case constructors. Only the `run` methods are modelled.
- As the source stands, that wiring raises. `IngestEvents.__init__` (src/application/use_cases/ingest_events.py:8) takes no `assets` argument. `IndicatorSnapshotBuilder.__init__` (src/application/services/indicator_snapshot.py:15) takes no timeframe or period arguments. Yet src/application/use_cases/backfill_recent_rounds.py:81-92 and examples/cron_backfill_loop.py:127-131 and :150-156 pass them.
- So every backfill call and both :30 calls raise TypeError, which the scheduler catches and logs. In `Cron.RunTick` this is the case where `raises` is true for all three calls. The model keeps `raises` a parameter, so it also covers the calls once the wiring is fixed.
- Backfill.Run: returns a result for every `n`. Python's `datetime` raises OverflowError once `end_anchor - i * step` (src/application/use_cases/backfill_recent_rounds.py:117) falls before year 1, and the model's unbounded integer instants do not model that range.
