# traderbot core in Dafny

A model of the deterministic backtesting engine of traderbot, with proofs about it. It covers:

- **Price series.** `pkg/timeseries` and the older `pkg/coingecko/coin.go` provide series of `(ts, value)` points, a first-match date lookup, tuple conversion and day differences.
- **EMA indicators.** There are two exponential moving averages:
  - `pkg/trade/indicator.go` seeds with a simple average and walks forwards;
  - `pkg/coingecko/indicator.go` seeds from the newest prices and walks backwards.
- **Crossover strategy.** The EMA crossover strategy is in `pkg/trade/strategy.go`.
- **Trades.** `pkg/trade/trade.go` covers trade validation and the fiat/unit replay of a trade list.
- **LP farm.** `pkg/trade/farm.go` models a constant-product farm with these operations:
  - opening;
  - rebalancing;
  - harvest with APR decay;
  - adding liquidity;
  - keeping a date-keyed history.
- **Forecast.** `pkg/trade/forecast.go` covers:
  - synthetic price paths;
  - the harvest/compound/monthly top-up driver;
  - the export table.
- **Cache keys.** The cache-key normalisation is `createKey` in `pkg/jsoncache/jsoncache.go`.
- **Chart rows.** The chart-row reshaping is `prepareData` and `findUniqueFields` in `web/src/components/ForecastChart.jsx`.

Numbers are modelled as follows:

- `float64` is Dafny's `real`, and every property is stated over exact arithmetic.
- `math.Sqrt` is a function parameter `sqrt` that is required to be a correct non-negative square root (`IsSqrt`).
- `math.Floor(x*100)/100` is written with `real.Floor`.

Dates are modelled as follows:

- A date string is a day ordinal: days since 1970-01-01, in the `YYYY-MM-DD` layout of the "full-date" production in section 5.6 of RFC 3339.
- Text that does not parse is a separate case (`DateText.Unparseable`).
- The calendar day of a timestamp is `DateOf(ms)`, the floor of `ms / 86,400,000`.
- The `MM` field of a date is `Calendar.MonthOf`, computed from the day ordinal in 400-year eras of March-based years. It is proved against an independent proleptic Gregorian calendar (`DaysFromCivil`, counting days from year, month and day).

Errors are modelled as follows:

- The source returns `(value, error)` pairs, or stops the process with `log.Fatal`. The model uses a `Result` datatype whose `Error` has one constructor per distinct error message.

The model takes the form of each source file:

- **Imperative code becomes methods.** Loops become methods with loop invariants. Each method is proved equal to a specification function, and the properties are proved as lemmas about that function:
  - both EMA constructors;
  - the strategy scan;
  - the trade replay;
  - `CreateMarket`;
  - the harvest loop and the `ToJSON` loops;
  - `prepareData` and `findUniqueFields`.
- **The farm and the forecast are classes.** `LPFarm` and `Forecast` have mutable fields. Their methods are proved to leave the state that a value-level function of the old state describes (`Rebalanced`, `Logged`, `Added`, `Harvested`, `Planted`).
- **Pure code becomes functions.** `createKey`, `NewTrade`, `DiffDays` and similar helpers are functions with contracts.

Modules, one per file:

- `Outcomes` (outcomes.dfy)
- `Text` (text.dfy)
- `Timeseries` (timeseries.dfy)
- `Calendar` (calendar.dfy)
- `Coin` (coin.dfy)
- `TradeIndicator` (indicator.dfy)
- `CoinIndicator` (coin_indicator.dfy)
- `Strategy` (strategy.dfy)
- `Trade` (trade.dfy)
- `Farm` (farm.dfy)
- `FarmScenarios` (farm_scenarios.dfy)
- `Forecast` (forecast.dfy)
- `ForecastScenarios` (forecast_scenarios.dfy)
- `JsonCache` (jsoncache.dfy)
- `ForecastChart` (forecast_chart.dfy)

The scenario modules restate the repository's test vectors as lemmas.

Where the source disagrees with itself, the model follows the code and: 

- **Strategy signals.** `strategy.go` only prints its signals, so the model's strategy returns the signals it would print.
- **AddLP arguments.** `forecast.go` calls `AddLP` with three arguments, but `farm.go` declares two. The model uses the two-argument `AddLP`.
- **Farm names.** `forecast.go` reads a `farm.Name` field that `LPFarm` does not have. The export takes the farm names as a parameter.
- **Harvest compounding.** `farm_test.go` expects a harvest to compound the yield, but `Harvest` only returns it (see Findings).

## Model

| member | source | states |
|---|---|---|
| Timeseries.DateOf | pkg/timeseries/timeseries.go:37-43 | the calendar day of a timestamp is the day whose midnight is at or before it and whose next midnight is after it |
| Timeseries.FirstAtDate | pkg/timeseries/timeseries.go:21-30 | found exactly when some point has the date; then the price is the first such point (no earlier point matches); otherwise the zero `ValueAt` |
| Timeseries.AtDate | pkg/timeseries/timeseries.go:21-30 | the scan that stops at the first match returns what `FirstAtDate` describes |
| Timeseries.At | pkg/timeseries/timeseries.go:17-19 | the lookup at an instant is the lookup at that instant's formatted date |
| Timeseries.ToTime | pkg/timeseries/timeseries.go:74-77 | a well-formed date parses to its midnight UTC; text that does not parse gives the zero time |
| Timeseries.ToDateOfToTime | pkg/timeseries/timeseries.go:74-81 | formatting the parsed time of a well-formed date gives the date back |
| Timeseries.DiffDays | pkg/timeseries/timeseries.go:65-72 | 0 when either date does not parse; otherwise the absolute number of days between them, up to the span a `time.Duration` holds, and never above it |
| Timeseries.DiffDaysSymmetric | pkg/timeseries/timeseries.go:65-72 | the day difference is symmetric and 0 from a date to itself |
| Timeseries.Truncate | pkg/timeseries/timeseries.go:57 | converting a float timestamp to `int64` truncates towards zero |
| Timeseries.FromTuples | pkg/timeseries/timeseries.go:53-63 | one point per tuple in order: the timestamp is the first element truncated, the value the second |
| Timeseries.DateOfShift | pkg/timeseries/timeseries.go:41-43 | moving an instant by whole days moves its date by as many days |
| Timeseries.DailyLookup | pkg/timeseries/timeseries.go:21-30 | in a series with one point per day, the lookup at the k-th day finds point k |
| Coin.NewCoin | pkg/coingecko/coin.go:26-28 | the id is lower-cased rune by rune (same length, no ASCII capital left), the currency is kept, and there is no price data yet |
| Coin.PriceAtDate | pkg/coingecko/coin.go:30-39 | found exactly when some price has the date; then the first such price; otherwise the zero value |
| Coin.NewTimeSeries | pkg/coingecko/coin.go:64-74 | one value per tuple in order, with the timestamp truncated and the value kept |
| Coin.DateDependsOnlyOnTimestamp | pkg/coingecko/coin.go:48-54 | two values with the same timestamp have the same date |
| Text.ToLower | pkg/coingecko/coin.go:27 | `strings.ToLower` keeps the length, lowers each rune and leaves no ASCII capital |
| Text.ToLowerIdempotent | pkg/jsoncache/jsoncache.go:96 | lower-casing twice is lower-casing once |
| Text.DecimalString | pkg/trade/indicator.go:30 | `%d` of a natural number is a non-empty string of decimal digits |
| TradeIndicator.Multiplier | pkg/trade/indicator.go:56 | the smoothing factor `2 / (days + 1)` lies in (0, 1] |
| TradeIndicator.EmaStepIs | pkg/trade/indicator.go:70 | the loop's expression with the precomputed multiplier is one EMA step |
| TradeIndicator.Indicator.ForTimestamp | pkg/trade/indicator.go:16-19 | a stored timestamp reads its EMA; any other reads 0, the map's zero value |
| TradeIndicator.Indicator.ForDate | pkg/trade/indicator.go:21-24 | a stored date reads its EMA; any other reads 0, the map's zero value |
| TradeIndicator.NewEMAIndicator | pkg/trade/indicator.go:26-82 | fails exactly when `days == 0` or there are fewer prices than days; otherwise the name is `"<days>-Day EMA"` and both maps are those of the reference fold over every point; with exactly `days` prices both maps are empty |
| TradeIndicator.TimestampMapKeys | pkg/trade/indicator.go:59-79 | exactly the timestamps of the points from index `days` on are stored |
| TradeIndicator.TimestampMapAt | pkg/trade/indicator.go:67-79 | a point that no later point shares its timestamp with is stored with its EMA: the SMA-seeded step at index `days`, and each later step seeded by the previous EMA |
| TradeIndicator.DateMapKeys | pkg/trade/indicator.go:66-78 | exactly the dates of the points from index `days` on are keys of the date map |
| TradeIndicator.DateMapAt | pkg/trade/indicator.go:76 | the same for the date map, for a point whose date no later point has |
| TradeIndicator.ForTimestampOfPoint | pkg/trade/indicator.go:16-19 | on a chronological series the first `days` points read as 0 (the map's zero value) and every later point reads as its EMA |
| TradeIndicator.ForDateEarly | pkg/trade/indicator.go:21-24 | one of the first `days` points whose date no later point has reads 0 by date |
| TradeIndicator.DateAgreesWithTimestamp | pkg/trade/indicator.go:75-76 | for a stored point with a unique date, the date map and the timestamp map hold the same EMA |
| TradeIndicator.EmaWithinRange | pkg/trade/indicator.go:56-79 | if every price lies in [lo, hi], so does every EMA, each being a convex combination |
| TradeIndicator.SmaWithinRange | pkg/trade/indicator.go:59-65 | the SMA seed lies within the range of the prices |
| TradeIndicator.StoredWithinRange | pkg/trade/indicator.go:67-79 | every stored value lies within the range of the prices |
| TradeIndicator.TestVector | pkg/trade/indicator_test.go:23-38 | prices 1 to 5 with period 3 read 0, 0, 0, 3.0 and 4.0 |
| CoinIndicator.Indicator.ForTimestamp | pkg/coingecko/indicator.go:13-16 | a stored timestamp reads its EMA; any other reads 0, the map's zero value |
| CoinIndicator.NewEMAIndicator | pkg/coingecko/indicator.go:18-84 | fails exactly when `days == 0` or there are fewer prices than days; otherwise the name is `"<days>-Day EMA"` and the map is the backward walk's map down to index `days - 1` |
| CoinIndicator.WindowTotal | pkg/coingecko/indicator.go:65-68 | the inner loop sums the prices from `priceEndIndex` to `i` |
| CoinIndicator.BackEmaStep | pkg/coingecko/indicator.go:62-80 | one step of the walk back computes the EMA at `i` from the carried value, or from the window's SMA when the carried value is 0 |
| CoinIndicator.WindowSmaIs | pkg/coingecko/indicator.go:65-70 | the total over the window divided by `days` is the window's SMA |
| CoinIndicator.BackMapKeys | pkg/coingecko/indicator.go:50-57 | entries exist for exactly the points from index `days - 1` on |
| CoinIndicator.BackMapSize | pkg/coingecko/indicator.go:50-57 | with distinct timestamps there are `len - days + 1` entries |
| CoinIndicator.BackMapAt | pkg/coingecko/indicator.go:73-78 | with distinct timestamps every stored point holds its own EMA |
| CoinIndicator.NewestEntry | pkg/coingecko/indicator.go:62-73 | the newest entry is `p_last·m + SMA(last days)·(1−m)` |
| CoinIndicator.NewestEma | pkg/coingecko/indicator.go:62-73 | the EMA of the newest point is seeded by the SMA of the window ending at it |
| CoinIndicator.NewestWindow | pkg/coingecko/indicator.go:59-70 | the window ending at the newest point is the newest `days` prices |
| CoinIndicator.OlderEntry | pkg/coingecko/indicator.go:73-80 | each older entry is `p_i·m + V[ts_{i+1}]·(1−m)`, or is re-seeded by its window's SMA when that stored value is 0 |
| CoinIndicator.OldestReadZero | pkg/coingecko/indicator.go:13-16 | on a chronological series the points before index `days - 1` read as 0 |
| CoinIndicator.TestVector | pkg/coingecko/indicator_test.go:22-37 | prices 1 to 5 with period 3 read 0, 0, 3.625, 4.25 and 4.5 |
| Strategy.Classify | pkg/trade/strategy.go:35-45 | sell exactly when both previous values are positive, the previous short was above the long and the short is now below; buy exactly in the mirror case; an equal pair never signals |
| Strategy.Emit | pkg/trade/strategy.go:39-45 | a point yields at most one signal |
| Strategy.NewEMACrossOverStrategy | pkg/trade/strategy.go:15-53 | keeps the indicators and prices it is given; the signals the loop reports are those of the pointwise reference `Signals` |
| Strategy.CarriedStep | pkg/trade/strategy.go:25-50 | the previous pair moves on to a point only where both EMAs are defined |
| Strategy.ScanIsPointwise | pkg/trade/strategy.go:25-50 | the carried scan from any point equals the pointwise signals from that point |
| Strategy.SignalMeaning | pkg/trade/strategy.go:35-45 | a buy is reported exactly where both EMAs are defined, the carried pair is positive with short below long, and short is now above long; a sell exactly in the mirror case |
| Strategy.CarriedThroughUndefined | pkg/trade/strategy.go:26-31 | skipped points do not change the carried pair |
| Strategy.FirstDefinedPointIsSilent | pkg/trade/strategy.go:22-35 | the first point where both EMAs are defined never signals, because the pair starts at 0, 0 |
| Strategy.SignalPoints | pkg/trade/strategy.go:25-50 | the indices of the points that carry a signal: strictly ascending, each carrying a signal, and every such index listed |
| Strategy.SignalsFromOrder | pkg/trade/strategy.go:25-50 | the signals are exactly one per point that carries a signal, in series order: the k-th signal is at the k-th such point, with its side |
| Trade.NewTrade | pkg/trade/trade.go:37-55 | fails exactly on a size outside (0, 100] (checked first) or a date without a price; otherwise the trade carries the market's currency, the side, date, market and size, and the first matching point's price |
| Trade.NewBuyAtDate | pkg/trade/trade.go:29-31 | is `NewTrade` with side Buy |
| Trade.NewSellAtDate | pkg/trade/trade.go:33-35 | is `NewTrade` with side Sell |
| Trade.DaysBetween | pkg/trade/trade.go:122-124 | the signed days between two instants, exact while the difference fits an `int64` of nanoseconds and saturated beyond |
| Trade.MarkToMarket | pkg/trade/trade.go:126-132 | non-zero only when the replay ended on a buy; non-negative for non-negative prices |
| Trade.ExecuteTradesAndPrint | pkg/trade/trade.go:57-144 | no summary exactly for an empty list; otherwise the summary of the replay |
| Trade.OpenPosition | pkg/trade/trade.go:126-132 | with more buys than sells and units left, the open position is worth units times the latest price |
| Trade.SummariseReplay | pkg/trade/trade.go:121-143 | the summary gives the trade count, the first-buy and last-sell dates, the days between them, the fiat plus the mark-to-market, and the P/L |
| Trade.BuyStep | pkg/trade/trade.go:79-93 | a buy spends `Size`% of the fiat on units, counts, and sets the first-buy date once |
| Trade.SkippedSell | pkg/trade/trade.go:99-102 | a sell before the first buy changes nothing |
| Trade.SellStep | pkg/trade/trade.go:104-113 | a sell converts `Size`% of the units to fiat, counts, and sets the last-sell date |
| Trade.StepPreservesValue | pkg/trade/trade.go:82-110 | every trade at price p keeps `fiat + units·p` |
| Trade.StepSolvent | pkg/trade/trade.go:82-110 | with a valid size and a positive price neither balance goes negative |
| Trade.BuySolvent | pkg/trade/trade.go:82-88 | a buy keeps both balances non-negative |
| Trade.SellSolvent | pkg/trade/trade.go:104-110 | a sell keeps both balances non-negative |
| Trade.RunSolvent | pkg/trade/trade.go:78-119 | a replay of valid trades from non-negative balances stays non-negative |
| Trade.ReplaySolvent | pkg/trade/trade.go:69-119 | from a non-negative investment the replay never holds negative fiat or units |
| Trade.RunAppend | pkg/trade/trade.go:78-119 | replaying two lists in turn is replaying their concatenation |
| Trade.SellsBeforeFirstBuy | pkg/trade/trade.go:99-102 | sells before any buy change neither balances nor counters |
| Trade.RunAfterFirstBuy | pkg/trade/trade.go:78-119 | once a buy was seen every trade is counted and the first-buy date stays |
| Trade.RunWithoutSells | pkg/trade/trade.go:112-113 | a stretch without sells keeps the last-sell date |
| Trade.ReplayCounts | pkg/trade/trade.go:90-113 | with the first buy at k, all buys and only the sells after k are counted, and the first-buy date is that buy's |
| Trade.ReplayLastSell | pkg/trade/trade.go:112-113 | the last-sell date is the date of the last sell after a buy |
| Trade.RunFindsBuy | pkg/trade/trade.go:79-80 | a buy anywhere in the list marks the first buy as found |
| Trade.RunLastSell | pkg/trade/trade.go:98-113 | after the first buy, a sell with none after it sets the last-sell date |
| Trade.FlatReplayIsFiat | pkg/trade/trade.go:126-140 | a replay that does not end on a buy is worth its fiat alone |
| Trade.ProfitIffGain | pkg/trade/trade.go:142-143 | the P/L is positive exactly when the portfolio is worth more than a positive investment |
| Trade.EmptyListIsNoop | pkg/trade/trade.go:58-61 | an empty trade list produces nothing |
| Farm.RootsKeepProduct | pkg/trade/farm.go:130-134 | the two rebalanced unit counts are non-negative and multiply back to `k` |
| Farm.RootsBalance | pkg/trade/farm.go:130-136 | the rebalanced sides are worth the same at the prices |
| Farm.RootsOfBalanced | pkg/trade/farm.go:130-134 | balanced non-negative units are their own rebalanced units |
| Farm.RebalanceKeepsProduct | pkg/trade/farm.go:129-138 | `RebalanceLP` keeps `UnitsA·UnitsB`, leaves non-negative balanced units, makes the value twice one side and the HODL value that of the initial units, and changes nothing else |
| Farm.RebalanceBalanced | pkg/trade/farm.go:129-138 | a pool already balanced at the prices keeps its units |
| Farm.RebalanceIdempotent | pkg/trade/farm.go:204-211 | rebalancing twice at the same prices is rebalancing once, so the second call in `Harvest` changes nothing |
| Farm.PoolBelowHodl | pkg/trade/farm.go:129-138 | while the product of units is that of the initial units, the pool is worth at most the HODL value (impermanent loss) |
| Farm.ProportionalMove | pkg/trade/farm.go:129-138 | prices moving by a common factor keep a balanced pool's units and scale its value |
| Farm.Logged | pkg/trade/farm.go:79-93 | `LogChange` adds or overwrites only the entry of the date and keeps the history filed by date |
| Farm.LoggedEntry | pkg/trade/farm.go:81-92 | the entry records the date, prices, units, values and APR, with `OnlyA = 2·InitialUnitsA·pA` and `OnlyB = 2·InitialUnitsB·pB` |
| Farm.PricesAt | pkg/trade/farm.go:111-127 | fails exactly when either asset lacks a price at the date, naming A first; otherwise each price is its asset's `FirstAtDate` lookup: the first point of the series at the date |
| Farm.Launched | pkg/trade/farm.go:46-77 | `NewLPFarm` fails exactly when a price is missing at the start date, with that error |
| Farm.OpenedFarm | pkg/trade/farm.go:46-77 | a new farm holds half the investment in each asset; its initial units are its units; both values equal the investment; it was last harvested at the start, with the given APR and no change rate; its history is the start date alone |
| Farm.HalfUnitsWorth | pkg/trade/farm.go:64-65 | the units half an amount buys are worth half the amount |
| Farm.Added | pkg/trade/farm.go:152-170 | `AddLP` fails exactly when a price is missing at the date, with that error |
| Farm.DepositAtBalance | pkg/trade/farm.go:159-167 | adding liquidity to a pool balanced at the deposit's prices adds exactly the amount to its value, keeps the HODL value, adds half the amount's units to each side and stays balanced |
| Farm.AddHalf | pkg/trade/farm.go:159-163 | units topped up with half an amount are worth half the amount more |
| Farm.Decayed | pkg/trade/farm.go:191-194 | the decayed APR is the APR less the rate, floored at 0 |
| Farm.AprDecay | pkg/trade/farm.go:189-195 | the harvest's decay changes only the APR, and only when the rate is positive |
| Farm.HarvestRefusesEarlyDates | pkg/trade/farm.go:173-181 | a date not after the start, or not after the last harvest, is refused with no change, in that order; after the checks, a harvest fails exactly when a price is missing |
| Farm.HarvestDaysPositive | pkg/trade/farm.go:183-184 | after the checks the day count is positive, so the `days > 0` branch is always taken |
| Farm.HarvestWithoutPrice | pkg/trade/farm.go:189-201 | with a price missing, the APR has already decayed but nothing else changed |
| Farm.CollectedOnce | pkg/trade/farm.go:204-213 | a harvest with both prices is one rebalance, the yield on its value, the new date and the log |
| Farm.CollectedPosition | pkg/trade/farm.go:203-213 | such a harvest keeps the APR, rate, initial units and product of units; it records the date; it leaves balanced non-negative units; the yield is `TotalValue·APR/100/365·days`; the units do not include the yield |
| Farm.HarvestWithPrices | pkg/trade/farm.go:183-215 | a successful harvest is the APR decay followed by that collection, over the days since the last harvest |
| Farm.OpenedSound | pkg/trade/farm.go:46-77 | a farm opened with a non-negative investment is sound and has had no liquidity added |
| Farm.HarvestSound | pkg/trade/farm.go:172-218 | a harvest keeps a farm sound and, with no liquidity added, still none |
| Farm.CollectedSound | pkg/trade/farm.go:203-213 | the same for the collection step |
| Farm.HarvestBelowHodl | pkg/trade/farm.go:203-213 | with no liquidity added, a successful harvest leaves the pool worth at most the HODL value |
| Farm.CollectedBelowHodl | pkg/trade/farm.go:203-213 | the same for the collection step |
| Farm.AddedSound | pkg/trade/farm.go:152-170 | adding a non-negative amount keeps a farm sound |
| Farm.DepositedSound | pkg/trade/farm.go:159-167 | the same for the deposit step |
| Farm.HarvestYieldNonNegative | pkg/trade/farm.go:206-207 | with a non-negative APR a harvest pays a non-negative yield |
| Farm.CollectedYieldNonNegative | pkg/trade/farm.go:206-207 | the same for the collection step |
| Farm.AddAfterHarvest | pkg/trade/farm.go:152-170 | `AddLP(d, y)` right after a successful `Harvest(d)` succeeds, raises the value by exactly `y` and keeps the HODL value |
| Farm.DepositAfterCollect | pkg/trade/farm.go:159-167 | the same for the deposit after a collection |
| Farm.InsertByDate | pkg/trade/farm.go:100-102 | one insertion step of the stable sort keeps the items as a multiset |
| Farm.InsertKeepsAscending | pkg/trade/farm.go:100-102 | inserting into an ascending history keeps it ascending |
| Farm.SortByDate | pkg/trade/farm.go:100-102 | the sort by date is a permutation and ascending |
| Farm.SortedHistory | pkg/trade/farm.go:95-105 | a sorted permutation of one item per key lists every entry once, in strictly ascending date order |
| Farm.LPFarm.constructor | pkg/trade/farm.go:47-57 | the struct literal: last harvested at the start, APR and initial APR as given, no units, an empty history |
| Farm.LPFarm.LogChange | pkg/trade/farm.go:79-93 | the new state is `Logged` of the old |
| Farm.LPFarm.GetChangeHistoryAsc | pkg/trade/farm.go:95-105 | every history entry exactly once, in strictly ascending date order |
| Farm.LPFarm.SetAPRChangeRateAtHarvest | pkg/trade/farm.go:107-109 | only the change rate changes |
| Farm.LPFarm.GetPrices | pkg/trade/farm.go:111-127 | returns `PricesAt` of the farm's markets |
| Farm.LPFarm.RebalanceLP | pkg/trade/farm.go:129-138 | the new state is `Rebalanced` of the old |
| Farm.LPFarm.AddLP | pkg/trade/farm.go:152-170 | a missing price is reported with nothing changed; otherwise the new state is `Added` of the old |
| Farm.LPFarm.Harvest | pkg/trade/farm.go:172-218 | the new state is `Harvested` of the old; the yield is returned on success, and the error (with yield 0) on failure |
| Farm.NewLPFarm | pkg/trade/farm.go:46-77 | fails exactly as `Launched` does; otherwise a fresh farm with the given fields, whose state is the opened position |
| FarmScenarios.DailySeries | pkg/trade/farm_test.go:28-42 | a series of the given values, one per day from an instant |
| FarmScenarios.PricesOnDay | pkg/trade/farm_test.go:65 | both test markets have day k's prices at the date k days after the first |
| FarmScenarios.OpenedAtTenAndOne | pkg/trade/farm_test.go:60-61 | 10,000 opened at prices 10 and 1 gives 500 units of A and 5,000 of B, worth 10,000 |
| FarmScenarios.HarvestOnDayTwo | pkg/trade/farm_test.go:65 | the harvest on the next day rebalances at that day's prices, pays one day's yield, and keeps the initial units and the APR |
| FarmScenarios.ProportionalPricesNoLoss | pkg/trade/farm_test.go:58-72 | prices doubling together at 0% APR: the units stay the initial units, the value is 20,000 and the yield is 0 |
| FarmScenarios.ProportionalCase | pkg/trade/farm_test.go:58-72 | the same for any daily markets with those prices |
| FarmScenarios.StablePairLoss | pkg/trade/farm_test.go:90-118 | A going from 10 to 20 against a stable coin rounds to 354 and 7,071 units and a value of 14,142, against a HODL value of 15,000 |
| FarmScenarios.StableCase | pkg/trade/farm_test.go:90-118 | the same for any daily markets with those prices |
| FarmScenarios.StableRebalance | pkg/trade/farm_test.go:114-117 | bounds on the rebalanced units and value of 500 A and 5,000 B at prices 20 and 1 |
| FarmScenarios.AprHarvestPaysOut | pkg/trade/farm_test.go:74-88 | the code as written at 365% APR: the harvest pays 200 but the units stay the initial units, and the value stays 20,000, not 20,200 |
| FarmScenarios.AprCase | pkg/trade/farm_test.go:74-88 | the same for any daily markets with those prices |
| Forecast.Cents | pkg/trade/forecast.go:193 | flooring to cents gives a whole number of cents, at most the value and within a cent of it |
| Forecast.Pick | pkg/trade/forecast.go:159-185 | picking a segment moves the index on by one, cyclically, and keeps the price |
| Forecast.Step | pkg/trade/forecast.go:157-195 | one day's step keeps the segment index within the segments |
| Forecast.StateOn | pkg/trade/forecast.go:154-195 | with segments given, the index stays within them on every day |
| Forecast.NoChangesConstant | pkg/trade/forecast.go:157 | without changes the price never moves |
| Forecast.IndexCycles | pkg/trade/forecast.go:180-184 | the segment index stays in `[0, len)`, moves on by one and wraps to 0 after the last |
| Forecast.IncreaseBeatsDecrease | pkg/trade/forecast.go:162-169 | a segment with a rise runs `IncDays` days with the rise's floored step, even when a fall is also set |
| Forecast.DecreaseWithoutIncrease | pkg/trade/forecast.go:170-178 | without a rise, a fall runs `DecDays` days with the fall's floored step |
| Forecast.IdleSegment | pkg/trade/forecast.go:159-186 | a segment with neither keeps the price that day and the next segment is picked the following day |
| Forecast.SegmentRuns | pkg/trade/forecast.go:187-194 | while a segment runs each day adds its step and floors to cents |
| Forecast.SegmentLength | pkg/trade/forecast.go:187-194 | a segment with k days applies its step on exactly k days |
| Forecast.PricesInCents | pkg/trade/forecast.go:157-194 | on a day when a segment runs, or the segment due next sets a rise or a fall, the price is a whole number of cents; on any other day it is the previous day's price |
| Forecast.AllPricesInCents | pkg/trade/forecast.go:154-195 | from a starting price in whole cents, every price of the path is in whole cents |
| Forecast.HarvestSchedule | pkg/trade/forecast.go:82-93 | the harvest dates are exactly the `Days` days after the start, in order |
| Calendar.MonthOf | pkg/trade/forecast.go:114 | the `MM` of a date is between 1 and 12 |
| Calendar.NextDateIsNextDay | pkg/timeseries/timeseries.go:12 | the reference calendar counts 1970-01-01 as day 0, and the next calendar date is the next day |
| Calendar.PreviousDateIsPreviousDay | pkg/timeseries/timeseries.go:12 | the previous calendar date is the day before |
| Calendar.CivilOf | pkg/timeseries/timeseries.go:12 | every day ordinal is the day of a valid calendar date |
| Calendar.MonthOfCivil | pkg/trade/forecast.go:114 | the month computed from the day ordinal of a valid date is that date's month |
| Calendar.MonthChangesOnFirst | pkg/trade/forecast.go:114-115 | the month differs from the previous day's exactly when the date is the first of a month |
| Calendar.MarchFirst1970 | pkg/trade/forecast.go:114 | a check of the month calculation: 1970-02-28 is in month 2 and 1970-03-01 in month 3 |
| Calendar.LeapDay2024 | pkg/trade/forecast.go:114 | a check of the leap-year case: 2024-02-29 is day 19,782, in month 2, and the next day is in month 3 |
| Forecast.TopUpOnFirstOfMonth | pkg/trade/forecast.go:113-124 | the monthly top-up is never due on the first harvest date, and on a later one exactly when that date is the first of a month |
| Forecast.AddedOrKept | pkg/trade/forecast.go:112 | `AddLP` with its error ignored: a missing price keeps the farm as it was |
| Forecast.Reinvested | pkg/trade/forecast.go:106-112 | a date fails exactly when its harvest does, with that error |
| Forecast.Compounded | pkg/trade/forecast.go:106-124 | the same for the whole date, top-up included |
| Forecast.WithAprTarget | pkg/trade/forecast.go:98-103 | a positive `finalAPR` sets the change rate to `(apr − finalAPR)/harvests`; otherwise nothing changes |
| Forecast.Planted | pkg/trade/forecast.go:76-129 | `AddLPFarm` fails with the error of `NewLPFarm` when that fails |
| Forecast.LaunchedApr | pkg/trade/farm.go:53-55 | a new farm starts at its APR with no change rate, last harvested at the start |
| Forecast.HarvestedApr | pkg/trade/farm.go:189-209 | a successful harvest decays the APR once, keeps the rate, and records the date |
| Forecast.AddedKeepsApr | pkg/trade/farm.go:152-170 | adding liquidity keeps the APR, its rate and the last harvest date |
| Forecast.CompoundedApr | pkg/trade/forecast.go:106-124 | a successful date decays the APR exactly once |
| Forecast.DriveNext | pkg/trade/forecast.go:106-124 | the loop from a date is that date's step, then the rest; a failed step ends it |
| Forecast.DriveApr | pkg/trade/forecast.go:106-124 | with a positive rate the APR can afford, a loop that succeeds ends at the APR less one rate per date |
| Forecast.DriveKeepsApr | pkg/trade/forecast.go:106-124 | without a positive rate the APR never changes |
| Forecast.TargetRate | pkg/trade/forecast.go:99-101 | the rate is positive exactly when `finalAPR < apr`, and that many decays reach `finalAPR` |
| Forecast.TargetSchedule | pkg/trade/forecast.go:98-103 | a positive target below the APR gives a positive rate whose decays end at the target |
| Forecast.AprReachesTarget | pkg/trade/forecast.go:95-124 | with `0 < finalAPR < apr`, a forecast whose harvests all succeed ends at `finalAPR` |
| Forecast.AprWithoutTarget | pkg/trade/forecast.go:95-124 | without such a target the APR stays where it started |
| Forecast.CompoundedSound | pkg/trade/forecast.go:106-124 | with a non-negative top-up, a date keeps the farm sound and its APR non-negative |
| Forecast.DriveSound | pkg/trade/forecast.go:106-124 | the whole loop keeps the farm sound |
| Forecast.PlantedSound | pkg/trade/forecast.go:76-129 | a forecast farm with non-negative investment, APR and top-up ends sound |
| Forecast.AllDates | pkg/trade/forecast.go:38-44 | the dates map holds exactly the dates of some farm's history |
| Forecast.SortedDays | pkg/trade/forecast.go:46-53 | the unique dates, in strictly ascending order |
| Forecast.SortedUnique | pkg/trade/forecast.go:51-53 | two ascending listings of the same dates are equal, so the map's iteration order does not matter |
| Forecast.SortDays | pkg/trade/forecast.go:51-53 | sorting distinct dates gives those dates in ascending order |
| Forecast.RowsOnStep | pkg/trade/forecast.go:56-65 | one more farm adds its row for the date, if it has one |
| Forecast.PairsOn | pkg/trade/forecast.go:56-65 | a date is paired only with farms that have it, in farm order |
| Forecast.Pairs | pkg/trade/forecast.go:55-66 | every pair is a listed date and a farm that has it |
| Forecast.PairsOnComplete | pkg/trade/forecast.go:56-65 | every farm that has the date is paired with it |
| Forecast.PairsComplete | pkg/trade/forecast.go:55-66 | every listed date is paired with every farm that has it |
| Forecast.PairsOrdered | pkg/trade/forecast.go:55-66 | for ascending dates, pairs are ordered by date, then by farm |
| Forecast.RowsArePairs | pkg/trade/forecast.go:55-66 | the rows are the rows of the pairs, one each |
| Forecast.RowsOnArePairs | pkg/trade/forecast.go:56-65 | the same for one date |
| Forecast.ExportTable | pkg/trade/forecast.go:33-66 | the table is one row per (date, farm) pair present in the histories, each exactly once, dates ascending and farms in order within a date |
| Forecast.SortedDates | pkg/trade/forecast.go:46-53 | the `uniqueDates` slice is the sorted dates |
| Forecast.CollectDates | pkg/trade/forecast.go:38-44 | the loop collects every date of every history |
| Forecast.TableRows | pkg/trade/forecast.go:34-66 | the header, then the rows of the dates in order |
| Forecast.Reinvest | pkg/trade/forecast.go:107-112 | harvest and add the yield back; the new state is `Reinvested` of the old, or the harvest error |
| Forecast.ReinvestedThenTopUp | pkg/trade/forecast.go:106-124 | a date is the reinvestment, then `AddLP` of the monthly amount exactly when the top-up is due and positive |
| Forecast.HarvestDate | pkg/trade/forecast.go:106-124 | one date of the loop leaves `Compounded` of the old state, or its error, and the date's month |
| Forecast.DriveFarm | pkg/trade/forecast.go:105-124 | the loop leaves `Drive` of the old state, or the first harvest error |
| Forecast.Forecast.constructor | pkg/trade/forecast.go:23-31 | no farms; the balance is the investment; the start date is the clock's date |
| Forecast.Forecast.CreateMarket | pkg/trade/forecast.go:138-204 | `Days + 1` points, point i at midnight i days after the start, carrying the price path's price of day i (day 0 at the starting price) |
| Forecast.Forecast.HarvestDates | pkg/trade/forecast.go:82-93 | the loop gives exactly the harvest schedule |
| Forecast.Forecast.AddLPFarm | pkg/trade/forecast.go:76-129 | on failure nothing is added and the error is returned; on success one fresh farm is appended, whose state is `Planted` |
| Forecast.Forecast.Histories | pkg/trade/forecast.go:57-60 | each farm paired with the name it is shown under |
| Forecast.Forecast.ToJSON | pkg/trade/forecast.go:33-66 | the header, then the rows of the ascending unique dates |
| ForecastScenarios.PathPrices | pkg/trade/forecast_test.go:24 | the prices of days 0 to n, one per day |
| ForecastScenarios.RiseThenFallPricesA | pkg/trade/forecast_test.go:19-46 | 20% up over 5 days and 20% down over 5 days gives 100, 104, …, 120, 115.2, …, 96 |
| ForecastScenarios.RiseThenFallPricesB | pkg/trade/forecast_test.go:50-78 | 25% up and 20% down gives 100, 105, …, 125, 120, …, 100 |
| ForecastScenarios.AprReinvestCompounds | pkg/trade/farm_test.go:85-87 | at 365% APR, harvesting and adding the yield back grows both unit counts by 1% and makes the value 20,200 |
| ForecastScenarios.AprCompoundCase | pkg/trade/farm_test.go:85-87 | the same for any daily markets with those prices |
| JsonCache.TwoDigits | pkg/jsoncache/jsoncache.go:93 | `%02d` is at least two digits, ending in the last digit of the number |
| JsonCache.ReplacedChars | pkg/jsoncache/jsoncache.go:96 | every character of the replacement is a dash or a word character of the input |
| JsonCache.DashThenWord | pkg/jsoncache/jsoncache.go:96 | a dash is followed by a word character or ends the text |
| JsonCache.ReplacedShape | pkg/jsoncache/jsoncache.go:96 | the replacement is canonical: its only non-word characters are single dashes |
| JsonCache.NoDoubleDash | pkg/jsoncache/jsoncache.go:96 | the replacement never holds "--" |
| JsonCache.CanonicalFixed | pkg/jsoncache/jsoncache.go:96 | canonical text is left as it is |
| JsonCache.ReplaceIdempotent | pkg/jsoncache/jsoncache.go:96 | replacing twice is replacing once |
| JsonCache.WordsKept | pkg/jsoncache/jsoncache.go:79 | text of word characters only is kept |
| JsonCache.RunReplaced | pkg/jsoncache/jsoncache.go:79 | a maximal run of non-word characters becomes one dash |
| JsonCache.ReplaceAppend | pkg/jsoncache/jsoncache.go:96 | the replacement of a concatenation is the replacement of the parts, the second read from where the first ended |
| JsonCache.ReplaceKeepsWordChars | pkg/jsoncache/jsoncache.go:96 | the replacement neither loses nor adds a word character |
| JsonCache.NormalisedAlphabet | pkg/jsoncache/jsoncache.go:96 | the normalised part uses only `[0-9a-z_-]`, never "--", and keeps the word characters of the lower-cased input |
| JsonCache.NormaliseIdempotent | pkg/jsoncache/jsoncache.go:96 | normalising twice is normalising once |
| JsonCache.CreateKey | pkg/jsoncache/jsoncache.go:82-96 | the key is the period's prefix and a dash, followed only by lower-case letters, digits, underscores and single dashes |
| JsonCache.KeyShape | pkg/jsoncache/jsoncache.go:82-96 | the key is the prefix, a dash and the normalised input; any other period gives an empty prefix |
| JsonCache.PeriodPrefixes | pkg/jsoncache/jsoncache.go:85-94 | hourly uses the UTC hour, daily the local date, and weekly the local month followed by `week` and the two-digit ISO week |
| JsonCache.HourlyKeyVector | pkg/jsoncache/jsoncache_test.go:20 | "ABC" hourly normalises to "abc" |
| JsonCache.DailyKeyVector | pkg/jsoncache/jsoncache_test.go:21 | "@ABC@" daily normalises to "-abc-" |
| JsonCache.WeeklyKeyVector | pkg/jsoncache/jsoncache_test.go:22 | "a/B/c" weekly normalises to "a-b-c" |
| ForecastChart.FieldsOfLastIndex | web/src/components/ForecastChart.jsx:129 | a field name maps to the last column carrying it; names no column carries are absent |
| ForecastChart.LoadFieldsMap | web/src/components/ForecastChart.jsx:129 | the `forEach` builds that map |
| ForecastChart.Distinct | web/src/components/ForecastChart.jsx:161 | the distinct elements are exactly the elements |
| ForecastChart.DistinctNoRepeats | web/src/components/ForecastChart.jsx:161 | no element is listed twice |
| ForecastChart.DistinctOrder | web/src/components/ForecastChart.jsx:161 | they are ordered by first appearance |
| ForecastChart.DistinctMeaning | web/src/components/ForecastChart.jsx:161 | all three together |
| ForecastChart.Names | web/src/components/ForecastChart.jsx:143 | one name per row, in order |
| ForecastChart.PrepareData | web/src/components/ForecastChart.jsx:124-170 | the names are the distinct names of the data rows; the output is the prepared table |
| ForecastChart.GroupRows | web/src/components/ForecastChart.jsx:138-159 | the object `names` holds exactly the distinct names, in insertion order, each mapped to its group |
| ForecastChart.AddRow | web/src/components/ForecastChart.jsx:143-158 | a new name is appended with an empty array; the row's three chart rows are appended to its name's array; other names are untouched |
| ForecastChart.AddRowKeeps | web/src/components/ForecastChart.jsx:143-158 | one more row keeps `names` equal to the groups of the rows seen |
| ForecastChart.JoinGroups | web/src/components/ForecastChart.jsx:161-168 | the `reduce` gives the header, then the groups in key order |
| ForecastChart.NamesStep | web/src/components/ForecastChart.jsx:143-147 | a row's name joins the distinct names only when it is new, and then at the end |
| ForecastChart.GroupStepAt | web/src/components/ForecastChart.jsx:154-158 | one more row grows only its own name's group, by its three chart rows |
| ForecastChart.GroupSize | web/src/components/ForecastChart.jsx:154-158 | a group holds three chart rows per data row of the name |
| ForecastChart.GroupedSize | web/src/components/ForecastChart.jsx:162-168 | the joined groups hold three chart rows per counted row |
| ForecastChart.CountDistinctNames | web/src/components/ForecastChart.jsx:161-168 | each data row is counted once under the distinct names |
| ForecastChart.PreparedSize | web/src/components/ForecastChart.jsx:161-168 | the output is the header `Date, Name, Value, APR` plus three rows per data row |
| ForecastChart.ExpandShape | web/src/components/ForecastChart.jsx:154-158 | a row yields `[date, name+' Farm', value, apr]`, `[date, name+' HODL', hodl, 0]` and `[date, name+' Only A', onlyA, 0]` |
| ForecastChart.GroupEndsWithRow | web/src/components/ForecastChart.jsx:143-158 | the group of the rows up to some row ends with that row's chart rows |
| ForecastChart.GroupGrows | web/src/components/ForecastChart.jsx:143-158 | the group of a prefix of the rows is a prefix of the group |
| ForecastChart.RowsInOrder | web/src/components/ForecastChart.jsx:143-158 | within a group, each row's chart rows sit where the rows before it end, keeping the input order |
| ForecastChart.Column | web/src/components/ForecastChart.jsx:184 | the cells of the named column, one per row |
| ForecastChart.FindUniqueFields | web/src/components/ForecastChart.jsx:172-189 | the distinct cells of the column below the header, with the header's field map; empty data gives nothing |
| ForecastChart.ColumnStep | web/src/components/ForecastChart.jsx:184 | one more row adds its cell only when it is new |
| ForecastChart.UniqueFieldsMeaning | web/src/components/ForecastChart.jsx:172-188 | the values found are exactly the column's values below the header, each once |
| ForecastChart.TwoFarmsGrouped | web/src/components/ForecastChart.jsx:124-170 | for rows X, Y, X the names are X, Y and the table is the header, then both X rows' chart rows in order, then Y's |

## Left out

- **Printing.** Every `Printf`, `PrintChange`, `Series.Print` and `console.log`/`console.error` is dropped. `ExecuteTradesAndPrint` returns the summary it would print, and the strategy returns the signals it would print.
- **I/O.** `jsoncache` `Get`, `Set`, `readJSON` and `writeJSON` (temp files) are not modelled. Neither are the HTTP clients, chart rendering, `cmd/*`, `examples/*` and the ECharts option building of `ForecastChart`.
- **Clock.** The clock is a parameter:
  - `createKey` takes its prefixes as a `Clock` value (the UTC hour, the local date, the local month and the ISO week);
  - `NewForecast` takes the instant `now`.
- **ISO week.** The calendar computation of the ISO week number is not modelled.
- **Time zone.** The local time zone is taken as UTC. `DateOf` floors a millisecond timestamp to a day ordinal, and the only other calendar conversion modelled is the month of a date (`Calendar`), which the monthly top-up needs.
- **Floating point.** IEEE rounding, NaN and Inf are not modelled.
  - `sqrt` is any correct non-negative square root.
  - `roundTo2` and `Number.EPSILON` are left out.
  - Positive prices are a precondition of the farm and forecast operations (`PositivePrices`), as a zero price makes the source divide by zero.
- **Fatal EMA errors.** The `log.Fatalf` of both `NewEMAIndicator` functions is modelled as an `InsufficientData` error result.
- **Fatal harvest errors.** The `log.Fatal` of `AddLPFarm` ends the model's loop with the harvest's error, and no farm is added.
- **JSON.** `ToJSON` returns the rows; the JSON encoding and its `MarshalIndent` error are not modelled.
- **Farm names.** The farm names of the export are passed to `Forecast.Forecast.ToJSON`, since `LPFarm` has no name field.
- **Lower-casing.** `strings.ToLower` is modelled for ASCII and for the two non-ASCII runes whose lower case is ASCII (U+0130, U+212A). Other runes are kept unchanged, so full Unicode case mapping is not modelled.
- **The `\W+` pattern.** The pattern is modelled directly as a left-to-right scan that turns each maximal run into one dash, not as a regular-expression engine.
- **Object keys in `ForecastChart`.** The model keeps insertion order for object keys. JavaScript puts integer-like keys first and treats prototype property names specially; neither is modelled. Number cells are turned into key text by a parameter `numberText`.
- Forecast.SortDays: requires distinct dates. The slice it sorts comes from the keys of a map, so the dates are always distinct; with duplicates, the stable order among them is not modelled.
- Forecast.Forecast.AddLPFarm: requires `Days > 0`. With no harvest dates, the source indexes `harvestDates[0]` and panics.
- ForecastChart.PrepareData: requires at least the header row. The source reads `data[0]` and throws on empty data.
- Trade.ExecuteTradesAndPrint: requires
  - a non-zero investment and a non-zero price for every buy, because the source divides by both;
  - a non-empty price series when the replay ends on a buy, because the source reads `prices[len(prices)-1]`.
- Farm.LPFarm.Harvest: the source's `days == 0` branch is kept in the code, but it is never taken on well-formed dates, which are all the model represents. After the date checks the day count is positive, as `Farm.HarvestDaysPositive` shows. In the source the checks compare date strings lexically, so a malformed date text that sorts after both dates reaches that branch, since `DiffDays` gives 0 when parsing fails.
- **Split helpers.** `GroupRows`, `AddRow` and `JoinGroups` (ForecastChart) and `DriveFarm`, `HarvestDate`, `Reinvest`, `CollectDates`, `SortedDates` and `TableRows` (Forecast) are the source's loops and callbacks written as separate methods. The order of steps is kept.
- **Reused lookups.** `Coin.PriceAtDate` and `Coin.NewTimeSeries` reuse the series lookup and tuple conversion of `Timeseries`, whose loops they repeat in the source.
- **`DiffDays` saturation.** `Timeseries.DiffDays` saturates at the 292-year span of a `time.Duration`, as `time.Sub` does. The truncation of `Hours()` is exact for whole days.
- **`coingecko` date layout.** The `dateFormat` of `pkg/coingecko` is not among the files of this model. It is taken to be the same `YYYY-MM-DD` layout as `pkg/timeseries`.
- TradeIndicator.NewEMAIndicator: takes `days` as a natural number. Go's `days int` also admits a negative period, which is not modelled. Every call in the source passes a positive period (3, 9 or 21).
- CoinIndicator.NewEMAIndicator: takes `days` as a natural number, for the same reason; a negative period is not modelled.
- Forecast.Forecast.constructor: requires `days <= MaxDurationDays`. Beyond that, `time.Duration(fc.Days) * 24 * time.Hour` wraps around in the source, and that is not modelled. The forecasts in the source run for 10 days.
- **Trade sides.** `Side` is a Go `int`, and `NewTrade` accepts any value. The model only has `Buy` and `Sell`, so it does not capture a trade of another side, which `ExecuteTrades` skips (pkg/trade/trade.go:79, 98).
- **Market fields.** A `Market` has only the fields the core reads.
- **Aliasing.** Farms hold their markets by pointer (`*Market`) in the source. Here a `Market` is a value. The core never writes to a market, so this sharing is not modelled.

## Findings

| source | as written | input that shows it | evidently intended | confidence | as-written member | corrected member |
|---|---|---|---|---|---|---|
| pkg/trade/farm_test.go:85-87 | The 365% APR case calls only `Harvest` and then expects both unit counts to grow by 1% and the value to be 20,200. `Harvest` only returns the yield (farm.go:206-213), so the units stay the initial units and the value stays 20,000. | A and B priced 10 and 1, then 20 and 2 on the next day; 10,000 invested at 365% APR; one harvest on day two | The yield is compounded into the pool by adding it back with `AddLP`, as the forecast does (forecast.go:107-112). This gives 1% more units and a value of 20,200. | not executed | FarmScenarios.AprHarvestPaysOut | ForecastScenarios.AprReinvestCompounds |
