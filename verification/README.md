# TradePro algorithms, modelled and proved in Dafny

A model of the decision-carrying algorithms of TradePro: the backtest executor and the
backend simulator it is documented to match, drawdown statistics, the analog evaluator, the
EPS revision history, the candle cache and its alarm, the macro-catalyst sweep, entry grading,
exchange pagination, cross-sectional ranking and position sizing. `dafny verify dfyconfig.toml`
checks everything.

Prices, cash and percentages are `real`; dates and clocks are integers; NaN and missing values
are `Option`. Code that loops or updates state is a method (of a class where the source keeps
the state in a file or an object), proved equal to a specification function; what the source
promises is then proved about that function.

## How the modules fit

- `Backtest` is the executor; `Ledger` proves its trade log and equity curve account for every
  unit of cash, `Solvency` bounds its cash and says what "as much as the cash allows" means,
  `PositionReadout` compares the dashboard's long/flat shortcut with it, and `Simulator`,
  `SimulatorDrawdown` and `DrawdownGap` compare the backend's simulator with it.
- `Drawdown` relates the one-pass drawdown to its definition over all pairs of bars,
  `NegativeEquity` says when equity below zero parts the two.
- `Analogs` has states, outcomes and neighbours, `AnalogMeanings` what their numbers mean;
  `Noninterference` proves the absence of lookahead, `ScaleFree` and `PriceScale` that neither
  the unit of a dimension nor the unit of the prices matters.
- `EpsHistory` is the 104-entry file, `EpsRevision` the query and its agreement with the
  unbounded history.
- `CandleCache`, `GarbageFilter`, `RefreshSettles` and `RepeatedRefresh` are the cache; `AlarmOnce` is the alarm.
- `Catalysts`, `TwoStageDedupe` and `MacroSweep` are the catalyst sweep.
- `EntryEdge`, `EntrySummary` and `FirstAppearances` grade entries; `Pagination`, `CrossSection` and `Sizing`
  stand alone. `Ordering` is a stable sort, `Rounding`, `Reals` and `Lists` are shared tools.

## Where the code and its documentation part

- `backtest.py` says it matches the C# simulator. Trades and final equity always agree
  (`SimulatorMatchesExecutor`), but the simulator records no equity point at a bar whose entry
  does not fill, so its curve is shorter exactly when there is one; when that is the first bar,
  its maximum drawdown can differ too (`FirstBarUnfilledHidesDrawdown`); `SameMaxDrawdown` says
  what the executor's is in terms of the simulator's curve, `SameDrawdownIff` exactly when the
  two agree, and `DifferOnlyAfterPurchase` that otherwise the first recorded bar pays fees.
- `cache.py` calls a refresh idempotent. It is not: a second identical refresh can drop a bar
  the first one kept (`RefreshIsNotIdempotent`). `IdempotentIff` says exactly when it changes
  nothing, by the rows of the first merge that stand next to a dropped and unfetched one; that
  includes every fetch that covers the dropped timestamps. Repeating any refresh settles after
  a bounded number of repeats.
- `cache.py` alarms each bar-date once; with intraday bars the one alarm names a date once for
  each of its dropped bars (`AlarmedExactlyOnce`).
- `cache.py` says a garbage bar that reappears weeks later alarms again. It never does: by then
  it is more than 5 days old (`AlarmedExactlyOnce`). What can alarm twice is a bar dated two
  or more days ahead; `MarginIsExact` gives the exact limit on dates and clocks.
- `cache.py` says only isolated spikes are dropped. Its rule presupposes prices that are not
  negative: a flat series passes exactly then, or when it has no interior bar, and otherwise
  only its ends survive (`FlatSeriesPassesIff`); adjacent bars can be spikes the same way only
  when both closes are negative (`SameWayIffNegative`).
- `analogs.py` documents None for an unresolved outcome; the code answers 0 when neither
  barrier is reached, and the model follows the code.
- `entry_edge.py` sets the signals against a benchmark over the identical dates; when the
  benchmark lacks some of them the signal mean still counts those rows, and the verdict can be
  the opposite of the one on the shared dates (`BeatsMeans`, `MissingControlMisleads`).
- The `in_position` shortcut promises what the executor holds; it is wrong exactly when it says
  long and no entry since the last exit passes the sizing guard (`ShortcutAgreement`).
- `eps_tracker.py` announces the snapshot closest to 90 days ago; the code takes the oldest of
  the window, which is the closest exactly when none is dated between it and its mirror image
  on the other side of that day (`BaselineIsClosestIff`).
- `cross_sectional.py` documents rank percentiles from 1.0 down to 0.0; the last of n gets 1/n
  (`PlaceMeans`).
- The EPS fallback (no snapshot around 90 days ago) reads the oldest snapshot on file, which
  differs from the oldest in the history as soon as one has been evicted (`FallbackDiffers`).

## Model

| member | source | states |
|---|---|---|
| Backtest.TradeBar | strategies/tradepro_strategies/backtest.py:59-84 | one bar of the executor changes cash, quantity and log as the specification step says |
| Backtest.RunBacktest | strategies/tradepro_strategies/backtest.py:38-101 | the loop with its forced close returns the specified equity curve and trade log, including the empty series |
| Ledger.LedgerConservation | strategies/tradepro_strategies/backtest.py:50-96 | at every bar equity is the initial capital plus sales minus purchases minus logged fees so far plus the log's open quantity at the close; at the end nothing is held |
| Ledger.LogShape | strategies/tradepro_strategies/backtest.py:54-96 | the log is closed round trips: buy and sale alternate with equal quantities, bars increase (the forced sale may share the last bar), every trade has its bar's close, its side's fees, whole lots, and a signal that asked for it |
| Solvency.BoughtIsLargestAffordable | strategies/tradepro_strategies/backtest.py:62-67 | a number of lots fits the budget with stamp duty exactly when it is at most what is bought |
| Solvency.FillsIffAffordable | strategies/tradepro_strategies/backtest.py:62-68 | the sizing guard passes exactly when there is cash and one lot fits it with stamp duty and commission |
| Solvency.StepMeans | strategies/tradepro_strategies/backtest.py:59-86 | flat at +1 a bar buys the most lots the cash affords, if any, and pays price, duty and commission; long at -1 it sells all; otherwise only the equity moves |
| Solvency.StepSolvent | strategies/tradepro_strategies/backtest.py:61-86 | one bar keeps cash non-negative while long and above minus one commission, and a purchase leaves less than one lot's cost idle |
| Solvency.Solvency | strategies/tradepro_strategies/backtest.py:59-96 | the same over whole runs, and the reported equity is never below minus one commission |
| PositionReadout.LastNonZero | strategies/tradepro_strategies/compare.py:319-326 | the index of the last non-zero signal |
| PositionReadout.LongIffSomeEntryFills | strategies/tradepro_strategies/backtest.py:59-86 | the executor is long after n bars exactly when at some entry since the last exit signal one lot was affordable with the cash that exit left |
| PositionReadout.ShortcutAgreement | strategies/tradepro_strategies/compare.py:315-326 | long implies the shortcut says long; the shortcut agrees with the executor exactly when it says flat or a lot was affordable at some entry since the last exit |
| PositionReadout.ShortcutCanDisagree | strategies/tradepro_strategies/compare.py:315-326 | an entry whose commission exceeds the capital makes the shortcut wrong |
| Simulator.SimulateBar | backend/TradePro.Api/Simulation/Simulator.cs:129-160 | one bar of the backend loop is the executor's step, except that an unfilled entry records nothing |
| Simulator.Run | backend/TradePro.Api/Simulation/Simulator.cs:53-174 | the backend loop with its close-out returns the specified trades, curve and final equity |
| Simulator.UnfilledIff | backend/TradePro.Api/Simulation/Simulator.cs:129-136 | a bar goes unrecorded exactly at a +1 seen while flat with cash but not for a single lot |
| Simulator.SimFollowsRun | backend/TradePro.Api/Simulation/Simulator.cs:68-161 | bar for bar the simulator holds the executor's cash, quantity and trades |
| Simulator.SimulatorMatchesExecutor | strategies/tradepro_strategies/backtest.py:1-2 | same trades and final equity for all prices, signals and fees; same curve exactly when no entry goes unfilled |
| SimulatorDrawdown.MaxDrawdown | backend/TradePro.Api/Simulation/Simulator.cs:211-226 | the running-peak loop computes the worst fall from a positive running peak |
| SimulatorDrawdown.WorstIsMaxDrawdown | backend/TradePro.Api/Simulation/Simulator.cs:211-226 | on a curve starting above zero the loop equals the executor's maximum drawdown |
| SimulatorDrawdown.SameMaxDrawdown | strategies/tradepro_strategies/backtest.py:118-120 | for every run whose first equity is above zero, the executor's maximum drawdown is the simulator's although the curves differ, or, when the first bar is an unfilled entry, that of the simulator's curve behind the initial capital |
| DrawdownGap.SameBehindIff | backend/TradePro.Api/Simulation/Simulator.cs:211-226 | a first point in front of a curve leaves its worst fall as it was exactly when no point before the curve reaches it is below zero or further below it than that fall |
| DrawdownGap.SameDrawdownIff | strategies/tradepro_strategies/backtest.py:1-2 | with positive prices and no rebates the two report the same maximum drawdown except exactly when the first bar is an unfilled entry and the simulator's curve breaks that condition on the initial capital |
| DrawdownGap.DifferOnlyAfterPurchase | backend/TradePro.Api/Simulation/Simulator.cs:129-160 | if they differ the run opens with unfilled entries and the first bar recorded is a purchase that pays fees |
| SimulatorDrawdown.FirstBarUnfilledHidesDrawdown | backend/TradePro.Api/Simulation/Simulator.cs:129-136 | a concrete run where the two drawdowns differ |
| Drawdown.CumMaxIsMax | strategies/tradepro_strategies/backtest.py:118 | the running maximum is an upper bound of the prefix and is attained in it |
| Drawdown.MaxDrawdownIsWorstPair | strategies/tradepro_strategies/backtest.py:118-120 | the one-pass drawdown is attained by a pair i<=j and no pair ending at a non-negative equity is worse |
| NegativeEquity.BacktestStaysDown | strategies/tradepro_strategies/backtest.py:59-96 | with positive prices and no rebates a backtest below zero stays at that level to the end |
| NegativeEquity.UndercutIff | strategies/tradepro_strategies/backtest.py:118-120 | some pair of bars falls further than the reported drawdown exactly when the backtest ends below zero after two different positive levels |
| NegativeEquity.NegativeEquityBreaksPairs | strategies/tradepro_strategies/backtest.py:59-120 | a run whose two commissions take it there |
| Drawdown.NoDrawdownIffNeverFalls | strategies/tradepro_strategies/backtest.py:118-120 | the maximum drawdown is zero exactly for a curve that never falls |
| Drawdown.RecoveryIsFirstNewHigh | strategies/tradepro_strategies/backtest.py:130-142 | exactly one of recovered and still in drawdown; recovery is the first bar from the trough on that is at least everything before it |
| Drawdown.TroughIsFirstWorst | strategies/tradepro_strategies/backtest.py:120-128 | the trough is the fall from the highest equity so far, and before it no pair of bars falls as far |
| Drawdown.RecoveryGain | strategies/tradepro_strategies/backtest.py:197-200 | a recovered drawdown d has gained at least 1/(1+d)-1 from its trough |
| Analogs.Outcome | strategies/tradepro_strategies/analogs.py:49-65 | 1 exactly when some bar of the window reaches the up barrier with no down touch at or before it; None when the window runs off the data |
| Analogs.OutcomeIsMonotone | strategies/tradepro_strategies/analogs.py:49-65 | a nearer target, further stop or longer horizon never turns 1 into 0 |
| Analogs.Latest | strategies/tradepro_strategies/analogs.py:75 | the latest bar of a pool |
| Analogs.ZscoreStats | strategies/tradepro_strategies/analogs.py:82-95 | the per-dimension loop returns means and sample deviations, 1 where nothing varies, None below two states |
| Analogs.Nearest | strategies/tradepro_strategies/analogs.py:98-115 | the distance loops, sort and cut return the specified neighbours and P(up) |
| AnalogMeanings.StateExistsIff | strategies/tradepro_strategies/analogs.py:27-38 | a bar has a state exactly with 252 bars before it and every level it is measured by above zero |
| AnalogMeanings.StateMeans | strategies/tradepro_strategies/analogs.py:27-46 | the dimensions, by the bars themselves: the last 200, 50 and 20 closes, 14 true ranges, the highest of 252 highs and the close 20 bars before |
| AnalogMeanings.OutcomeMeans | strategies/tradepro_strategies/analogs.py:49-65 | the outcome by moves from the close: when it is unresolved, and which gains and losses make it 1 |
| AnalogMeanings.VectorMeans | strategies/tradepro_strategies/analogs.py:39-46 | the close is each average, and the close 20 bars before, moved by its dimension's percentage, the 52-week high moved down by the fifth, and the average true range is the fourth percent of it |
| AnalogMeanings.SmaSlides | strategies/tradepro_strategies/analogs.py:23-24 | one bar on a moving average gains that bar and loses the one n bars before, each over n |
| AnalogMeanings.TrueRangeIsSpan | strategies/tradepro_strategies/analogs.py:34 | the true range spans the bar's range extended to the previous close |
| AnalogMeanings.VarianceIsSample | strategies/tradepro_strategies/analogs.py:91-94 | n-1 times the variance is the sum of squares less n times the squared mean |
| AnalogMeanings.ChosenInRawValues | strategies/tradepro_strategies/analogs.py:98-110 | the chosen positions are the nearest by the sum of squared differences of the raw values, each over its dimension's deviation, lower position first on ties |
| AnalogMeanings.PredictIsOfNearest | strategies/tradepro_strategies/analogs.py:98-115 | the whole prediction: nothing without a pool or a k, otherwise the bars of the min(k, n) nearest states and the share of them that went up |
| AnalogMeanings.EqualStateComesFirst | strategies/tradepro_strategies/analogs.py:102-110 | with a pool state equal to the target the first neighbour equals it |
| AnalogMeanings.PUpIsShareOfNeighbours | strategies/tradepro_strategies/analogs.py:110-115 | P(up) is the share of the chosen neighbours that went up, between 0 and 1 |
| ScaleFree.ChosenAreNearest | strategies/tradepro_strategies/analogs.py:102-115 | the chosen positions are min(k, n) distinct ones in order of (distance, position), none farther than any left out |
| Noninterference.StateSeesOnlyThePast | strategies/tradepro_strategies/analogs.py:27-46 | a state vector depends only on bars up to its own |
| Noninterference.OutcomeSeesItsWindow | strategies/tradepro_strategies/analogs.py:49-65 | an outcome depends only on bars up to the end of its window |
| Noninterference.NoLookaheadIsNoninterference | strategies/tradepro_strategies/analogs.py:11-14 | histories agreeing on bars 0..i give bar i the same verdict on any pool: rejection, or statistics, neighbours and P(up) |
| Noninterference.GuardIsExact | strategies/tradepro_strategies/analogs.py:68-79 | the guard passes exactly when no pooled outcome can depend on bar i or later |
| AnalogMeanings.EvaluationMeans | strategies/tradepro_strategies/analogs.py:11-14 | the evaluation step by step: the error exactly for a pooled bar that is not early enough, then the pool's bars with a state and an outcome in pool order, no verdict without a state or with fewer than two, else their prediction |
| AnalogMeanings.StatsMean | strategies/tradepro_strategies/analogs.py:82-95 | statistics exist from two states on, a mean and a spread for each dimension's values |
| AnalogMeanings.SpreadMeans | strategies/tradepro_strategies/analogs.py:91-94 | a dimension's spread is 1 when all its values are equal, otherwise n-1 times its square is the sum of squared distances from the mean |
| ScaleFree.StatsRescaled | strategies/tradepro_strategies/analogs.py:89-95 | an affine change of a dimension moves its mean along and scales its deviation by the absolute factor, or leaves the fallback 1 |
| ScaleFree.NeighboursAreScaleFree | strategies/tradepro_strategies/analogs.py:98-115 | changing unit and origin of every dimension leaves neighbours, count and P(up) unchanged, dimensions without variance included |
| PriceScale.StateIsPriceScaleFree | strategies/tradepro_strategies/analogs.py:27-46 | multiplying all prices by k>0 leaves the state vector unchanged |
| PriceScale.OutcomeIsPriceScaleFree | strategies/tradepro_strategies/analogs.py:49-65 | and the outcome |
| PriceScale.EvaluationIsPriceScaleFree | strategies/tradepro_strategies/analogs.py:6-9 | and the whole evaluation |
| EpsHistory.EpsStore.Append | strategies/tradepro_strategies/eps_tracker.py:203-211 | the file becomes the old one without the date, plus the snapshot, sorted, cut to the last 104 |
| EpsHistory.MergedContents | strategies/tradepro_strategies/eps_tracker.py:205-209 | merging keeps dates strictly increasing and replaces exactly the entry of that date |
| EpsHistory.AppendKeepsLatest | strategies/tradepro_strategies/eps_tracker.py:203-211 | every append keeps the file the 104 latest dates of the last-write-wins history |
| EpsHistory.FileKeepsLatest | strategies/tradepro_strategies/eps_tracker.py:203-211 | so after any run of appends in any date order |
| EpsRevision.LatestOf | strategies/tradepro_strategies/eps_tracker.py:91 | the snapshot with the latest date |
| EpsRevision.EarliestOf | strategies/tradepro_strategies/eps_tracker.py:121 | the snapshot with the earliest date |
| EpsRevision.AnswerMeans | strategies/tradepro_strategies/eps_tracker.py:121-144 | up or down exactly when the estimate moved by at least a cent; the delta is the difference to within its rounding, and the percentage of the past estimate's size gives it back to within its own |
| EpsRevision.BaselineMeans | strategies/tradepro_strategies/eps_tracker.py:96-121 | the baseline is the earliest snapshot dated 83 to 97 days back, or failing any the earliest of 30 days or more, or none |
| EpsRevision.RevisionMeans | strategies/tradepro_strategies/eps_tracker.py:84-144 | the whole answer by the snapshots on file: no data, the current estimate alone, or the comparison |
| EpsRevision.InsufficientIff | strategies/tradepro_strategies/eps_tracker.py:102-118 | the current estimate stands alone exactly when it exists and no snapshot is in the window or 30 days old |
| EpsRevision.NoDataIff | strategies/tradepro_strategies/eps_tracker.py:88-124 | there is no data exactly when nothing is on file, the latest has no estimate, or the baseline has none or zero |
| EpsRevision.CandidatesAre | strategies/tradepro_strategies/eps_tracker.py:97-119 | the candidates are the snapshots within 7 days of today-90, or failing that all at least 30 days old |
| EpsRevision.BaselineIsClosestIff | strategies/tradepro_strategies/eps_tracker.py:96-121 | the oldest snapshot of the window is the closest to 90 days ago exactly when none is dated strictly between it and its mirror image |
| EpsRevision.RecentIsKept | strategies/tradepro_strategies/eps_tracker.py:209-210 | pigeonhole: a snapshot less than 104 days old cannot have been evicted |
| EpsRevision.FileAnswersLikeFull | strategies/tradepro_strategies/eps_tracker.py:84-144 | the file chooses the full history's baseline exactly when the history has a snapshot in the window or nothing was evicted, and then the whole answer is the same |
| EpsRevision.BoundedStoreRefinesHistory | strategies/tradepro_strategies/eps_tracker.py:84-144 | the same for the files after any run of appends dated no later than today |
| EpsRevision.FallbackDiffers | strategies/tradepro_strategies/eps_tracker.py:102-121 | a family of histories on which the fallback answers differently |
| CandleCache.SymbolCache.RefreshSymbol | strategies/tradepro_strategies/cache.py:211-243 | the cache becomes the cleaned merge, or stays when nothing was fetched; the count is its length |
| CandleCache.MergeKeepsLast | strategies/tradepro_strategies/cache.py:223-224 | merging into a cache gives strictly increasing timestamps holding the last row of each |
| CandleCache.MergeStrictIff | strategies/tradepro_strategies/cache.py:219-224 | the merge is strictly sorted exactly when there was a cache or the fetch already was |
| CandleCache.MergeMembers | strategies/tradepro_strategies/cache.py:219-224 | between sorted tables: every fetched row and every cached row not fetched again |
| GarbageFilter.CleanMembers | strategies/tradepro_strategies/cache.py:99-105 | the rows kept are exactly those that are not garbage |
| GarbageFilter.MissingClosesGo | strategies/tradepro_strategies/cache.py:97-105 | no row without a close survives; first and last rows go only for that |
| GarbageFilter.MonotonePasses | strategies/tradepro_strategies/cache.py:102-105 | a monotone series of closes that are not negative passes unchanged |
| GarbageFilter.DroppedIffFourfold | strategies/tradepro_strategies/cache.py:102-105 | a priced interior bar goes exactly when it is over four times both neighbours or both are over four times it |
| GarbageFilter.SameWayIffNegative | strategies/tradepro_strategies/cache.py:102-105 | two adjacent bars are spikes the same way exactly when both closes are negative, each is over four times the other and the outer neighbours are as far off on that side |
| GarbageFilter.AdjacentSpikesAlternate | strategies/tradepro_strategies/cache.py:102-105 | of two adjacent dropped spikes, one of them not below zero, one is up and one is down |
| GarbageFilter.FilterIsScaleFree | strategies/tradepro_strategies/cache.py:97-105 | scaling every close by k>0 drops the same rows |
| GarbageFilter.FlatSeriesPassesIff | strategies/tradepro_strategies/cache.py:102-105 | a flat series passes exactly when its price is not negative or it has at most two rows; otherwise only the ends survive |
| RefreshSettles.RefreshKeepsHistory | strategies/tradepro_strategies/cache.py:211-231 | after a refresh a row is cached exactly when it is in the merge and not garbage there |
| RefreshSettles.SecondMerge | strategies/tradepro_strategies/cache.py:219-226 | a second refresh merges the first one's table without the rows dropped from it and not fetched |
| RepeatedRefresh.SecondMergeIsRemaining | strategies/tradepro_strategies/cache.py:219-226 | that table is the first merge without its rows that are garbage and not fetched, in order |
| RepeatedRefresh.VerdictStays | strategies/tradepro_strategies/cache.py:97-105 | a row with no such row beside it keeps its verdict |
| RepeatedRefresh.IdempotentIff | strategies/tradepro_strategies/cache.py:13-14 | a second refresh with the same rows changes nothing exactly when every row of the first merge beside such a row keeps its verdict without it |
| RefreshSettles.CoveredRefreshIsIdempotent | strategies/tradepro_strategies/cache.py:13-14 | a repeated refresh changes nothing when the fetch covers every dropped timestamp |
| RefreshSettles.RepeatedRefreshSettles | strategies/tradepro_strategies/cache.py:226-231 | any repeated refresh is settled after one repeat more than there are cached rows outside the fetch |
| RefreshSettles.RefreshIsNotIdempotent | strategies/tradepro_strategies/cache.py:13-14 | a clean cache and one fetched bar on which the second refresh drops another row |
| AlarmOnce.RecentMeans | strategies/tradepro_strategies/cache.py:110-131 | the dropped dates at most 5 days old, each as often as it was dropped, in order |
| AlarmOnce.AlarmState.FirstSightingOnly | strategies/tradepro_strategies/cache.py:165-193 | alarms each recent date not alarmed within 7 days as often as it is given, in that order; the memory forgets what is older, keeps the rest and notes those, or stays when nothing is recent |
| AlarmOnce.RecentWithinRetention | strategies/tradepro_strategies/cache.py:131-144 | two refreshes that drop a bar while recent are at most 7 days apart, whatever the time zone drift the margin allows |
| AlarmOnce.AlarmedExactlyOnce | strategies/tradepro_strategies/cache.py:136-144 | over any run exactly one refresh alarms a bar-date dropped while recent, the first that drops it, and mentions it once for each bar of that date it drops; no refresh alarms any other |
| AlarmOnce.MarginIsExact | strategies/tradepro_strategies/cache.py:124-186 | no run alarms a bar twice exactly when the days a bar may be dated ahead and the drift of the calendar offset together stay within one day and one clock tick |
| AlarmOnce.BeyondMarginAlarmsTwice | strategies/tradepro_strategies/cache.py:181-186 | for any greater margin two refreshes that alarm the same bar twice |
| AlarmOnce.KeyTextIsInjective | strategies/tradepro_strategies/cache.py:188-190 | the stored key text tells bars apart as long as no provider name contains the separator |
| Catalysts.Dedupe | strategies/tradepro_strategies/catalysts_gdelt.py:248-265 | the dictionary loop and sort return the specified list |
| Catalysts.KeepsBest | strategies/tradepro_strategies/catalysts_gdelt.py:253-258 | per key the highest confidence is kept, the earliest on ties; every key once |
| Catalysts.SameKeyIff | strategies/tradepro_strategies/catalysts_gdelt.py:255 | two catalysts share a key exactly when kind and date are equal and the titles agree letter by letter up to case |
| Catalysts.DedupedIsBestAndSorted | strategies/tradepro_strategies/catalysts_gdelt.py:248-265 | in those terms: no signal twice, a duplicate of every one given, each the first of its most confident duplicates, dated first, by date, then by confidence |
| TwoStageDedupe.CollapseAbsorbs | strategies/tradepro_strategies/catalysts_gdelt.py:253-258 | collapsing a batch first and noting the result is noting the batch |
| TwoStageDedupe.StagingKeepsRecords | strategies/tradepro_strategies/catalysts_gdelt.py:319-335 | collapsing per batch and then together keeps the same records as collapsing everything at once |
| TwoStageDedupe.StagingKeepsTheList | strategies/tradepro_strategies/catalysts_gdelt.py:319-335 | and the very same list when each batch has one confidence |
| MacroSweep.FetchForQuery | strategies/tradepro_strategies/catalysts_gdelt.py:268-290 | a query's titled articles as catalysts, deduplicated |
| MacroSweep.MappedMeans | strategies/tradepro_strategies/catalysts_gdelt.py:283-289 | a query's catalysts are those its titled articles make: its kind, the article's title and date, and the confidence of its severity |
| MacroSweep.MappedInOrder | strategies/tradepro_strategies/catalysts_gdelt.py:283-289 | one for each titled article, in the articles' order |
| MacroSweep.CandidatesInOrder | strategies/tradepro_strategies/catalysts_gdelt.py:312-329 | a symbol's catalysts gather query by query, in the order the successful ones ran |
| MacroSweep.RunQuery | strategies/tradepro_strategies/catalysts_gdelt.py:318-329 | a symbol's report after one more query, successful or broken |
| MacroSweep.FetchAll | strategies/tradepro_strategies/catalysts_gdelt.py:293-340 | exactly the queried symbols, each with its counts, its last error and its articles' catalysts deduplicated as if at once |
| MacroSweep.ErrorMeans | strategies/tradepro_strategies/catalysts_gdelt.py:324-327 | the reported error is the message of the symbol's last query that broke, and empty when none did |
| MacroSweep.ReportMeans | strategies/tradepro_strategies/catalysts_gdelt.py:293-340 | a final report without its stages: the symbol's query count, no signal twice, every catalyst from a titled article of one of its queries, for every such article a duplicate at least as confident, of equally confident ones the first |
| EntryEdge.ForwardReturnMeans | strategies/tradepro_strategies/entry_edge.py:57-62 | the forward return is the percentage between the two closes and exists exactly when both bars do and the first is positive |
| EntryEdge.RowMeans | strategies/tradepro_strategies/entry_edge.py:108-122 | a row is the return of the signal's own series from the first bar of its day, with both controls, and exists exactly when that bar has a positive close and a bar h later |
| EntryEdge.ControlAMeans | strategies/tradepro_strategies/entry_edge.py:65-73 | control A is the mean over the other bars that have a return, and missing exactly when none has |
| EntryEdge.ControlBMeans | strategies/tradepro_strategies/entry_edge.py:118-121 | control B is the benchmark's return from its own first bar of the day, exactly where it has one |
| EntryEdge.LostMeans | strategies/tradepro_strategies/entry_edge.py:99-110 | which signals have no bar to start from, by reason |
| EntryEdge.ControlLeavesOutSignal | strategies/tradepro_strategies/entry_edge.py:65-73 | control A's returns are all of the series' but the signal bar's own |
| EntryEdge.Grade | strategies/tradepro_strategies/entry_edge.py:113-126 | the horizon loop adds a located signal's rows and reports whether there was one |
| EntryEdge.Evaluate | strategies/tradepro_strategies/entry_edge.py:93-126 | rows per horizon, the list of unmeasured signals with reasons, and the number of measured symbols |
| EntryEdge.EverySignalAccounted | strategies/tradepro_strategies/entry_edge.py:99-126 | over a whole run the list holds an unmeasured signal's entry, with its reason, as often as the signal occurs, nothing for a measured one, and no other entries |
| EntryEdge.UnmeasuredInOrder | strategies/tradepro_strategies/entry_edge.py:99-126 | the list is in the order of the signals |
| EntryEdge.SignalHasRowOrReason | strategies/tradepro_strategies/entry_edge.py:100-126 | among all the other signals, each one's rows are a stretch of every horizon's rows; it has one at some horizon exactly when the list does not name it, and a listed one adds none |
| EntryEdge.CountFallsWithHorizon | strategies/tradepro_strategies/entry_edge.py:114-123 | for distinct horizons a longer one never measures more signals |
| EntryEdge.TotalsAddUpIff | strategies/tradepro_strategies/entry_edge.py:160-164 | symbols measured plus signals listed is the number of signals exactly when no symbol is measured twice |
| EntrySummary.Summaries | strategies/tradepro_strategies/entry_edge.py:128-158 | exactly the horizons with rows are summarised, each from its rows |
| EntrySummary.SummaryMeans | strategies/tradepro_strategies/entry_edge.py:147-156 | the hit rate is the share of rows above zero to one decimal, the mean is given to three, and each control is compared under its own name |
| EntrySummary.BeatsMeans | strategies/tradepro_strategies/entry_edge.py:133-137 | the signals beat a control exactly when their mean margin over it exceeds what the rows without a control take off the mean, which is nothing when every row has one |
| EntrySummary.MissingControlMisleads | strategies/tradepro_strategies/entry_edge.py:133-137 | two rows that beat the benchmark although the one on its dates lost to it |
| EntrySummary.ConcentrationMeans | strategies/tradepro_strategies/entry_edge.py:138-146 | with one row a symbol the row that deviates most is left out, the rest averaged, and the sign flips exactly when that return carries the sign of the sum |
| EntrySummary.FirstAppearancesDistinct | strategies/tradepro_strategies/entry_edge.py:177-192 | fed from first appearances every horizon has one row a symbol |
| FirstAppearances.Collect | strategies/tradepro_strategies/entry_edge.py:177-192 | each symbol of any board once, dated by the first board that lists it, in the order of the boards' days |
| FirstAppearances.FirstAppearancesAddUp | strategies/tradepro_strategies/entry_edge.py:160-192 | fed from first appearances the totals add up |
| Pagination.FetchAll | strategies/tradepro_strategies/data.py:107-124 | the paging loop terminates and returns every bar with start <= open < end once, in order, plus the bar at end unless whole pages stop just before it |
| Pagination.ExpectedMeans | strategies/tradepro_strategies/data.py:107-124 | what those bars are, one by one: opening from start up to but not at end, and the one at end under its condition, ascending |
| CrossSection.RanksAreABijection | strategies/tradepro_strategies/cross_sectional.py:51-52 | ranks are a bijection onto 1..n, missing values have none, a strictly better value ranks strictly better |
| CrossSection.EqualValuesKeepOrder | strategies/tradepro_strategies/cross_sectional.py:51-52 | equal values rank in the basket's order |
| CrossSection.PlaceMeans | strategies/tradepro_strategies/cross_sectional.py:66-82 | what an annotation says: value, rank, share ranked at or behind, distance from the mean in deviations, peers, basket figures, and the quartile mark as rank 1 or a rank within a quarter |
| CrossSection.UnplacedMeans | strategies/tradepro_strategies/cross_sectional.py:66-69 | what it says of a symbol without data |
| CrossSection.RankByMomentum | strategies/tradepro_strategies/cross_sectional.py:22-83 | one annotation per symbol with its value, rank, percentile, z-score, quartile mark and the basket's mean and median, or the basket's figures alone |
| CrossSection.MedianIsMiddle | strategies/tradepro_strategies/cross_sectional.py:86-93 | the median is the middle value in ascending order or halfway between the middle two |
| CrossSection.MedianSplits | strategies/tradepro_strategies/cross_sectional.py:86-93 | at most half of the values lie below the median and at most half above |
| CrossSection.ZscoresSumToZero | strategies/tradepro_strategies/cross_sectional.py:55-71 | the z-scores of a basket sum to zero |
| CrossSection.DeviationMeans | strategies/tradepro_strategies/cross_sectional.py:60-61 | the deviation's square is the mean squared distance from the mean |
| CrossSection.ZscoresHaveUnitVariance | strategies/tradepro_strategies/cross_sectional.py:55-71 | unless all values are equal their squares sum to n |
| CrossSection.TopQuartileSize | strategies/tradepro_strategies/cross_sectional.py:62-81 | the top quartile has max(1, n//4) members |
| CrossSection.QuartileBucket | strategies/tradepro_strategies/cross_sectional.py:314-350 | one flag per symbol, from its rank |
| CrossSection.QuartilesSplitTheBasket | strategies/tradepro_strategies/cross_sectional.py:322-344 | for two or more values max(1, n//4) symbols are cheap, as many expensive, the rest fair |
| CrossSection.FlagsRespectValues | strategies/tradepro_strategies/cross_sectional.py:322-344 | a cheaper flag means a value at least as cheap |
| Rounding.RoundIsNearest | strategies/tradepro_strategies/exit_framework.py:212-232 | rounding gives a whole number of steps, no step is closer, and ties go to the even one |
| Sizing.SizeIsLargestWithinBudget | strategies/tradepro_strategies/exit_framework.py:269-276 | the share count is the largest whose loss at the stop fits the budget, with its notional in both currencies, and there is none exactly when an input is not positive or one share is too many |
| Sizing.LevelsMean | strategies/tradepro_strategies/exit_framework.py:121-147 | stop and target distances to within half a tick: 1.5 and 3 ATR, or the fixed shares of the strategy type, and the recorded percentages |
| Sizing.OrderMeans | strategies/tradepro_strategies/exit_framework.py:212-232 | the printed limit, target and stop are within half a cent of entry, take-profit and stop-loss |
| Sizing.CardExistsIff | strategies/tradepro_strategies/compare.py:753-780 | a card exists exactly when the rounded stop is below the entry, the settings are positive and one share fits the budget |
| Sizing.LevelsRewardTwiceTheRisk | strategies/tradepro_strategies/exit_framework.py:114-162 | levels exist for a positive entry, pass the reward/risk gate, and put the target twice as far as the stop to within rounding |
| Sizing.CardRespectsBudget | strategies/tradepro_strategies/compare.py:753-780 | the printed bracket can lose at most the risk budget plus a cent a share, and one more share would exceed the budget |
| Sizing.ExtraCentIsReached | strategies/tradepro_strategies/compare.py:753-780 | a row sized end to end whose printed bracket loses exactly a cent a share over the budget |

## Left out

- Backtest.Step: needs prices whose unit cost with stamp duty is not zero; the floating-point infinities of a zero price are not modelled, nor is the alignment of the signal series to the price index.
- Drawdown.ComputeStats: needs a first equity above zero; below that the source divides by zero or compares with NaN. Total return, CAGR, Sharpe and the suspect-bar heuristics are not part of this model.
- Simulator.Run: models requests without a stop loss; trailing and ATR stops, which the Python executor lacks, are not modelled.
- DrawdownGap.SameDrawdownIff: a curve that rises again from below zero, which takes a negative price or a rebate, is covered one way only (`FallBehindIsOwn`).
- Analogs.ZscoreStats: the square root is a parameter, assumed positive with the right square wherever a scale matters.
- Noninterference.NoLookaheadIsNoninterference: the evaluation composes the five functions over the pool bars of one symbol that have a state and an outcome; pooling across symbols is not modelled.
- RefreshSettles.CoveredRefreshIsIdempotent: covering the dropped timestamps is sufficient, not necessary; `IdempotentIff` has the exact condition.
- AlarmOnce.AlarmedExactlyOnce: assumes the state file can be read and written; on failure the source alarms everything. Keys are compared as triples, and `KeyTextIsInjective` says when their stored text is as good.
- AlarmOnce.MarginIsExact: takes a refresh's clock as read once; the source reads it separately for the cut-off, the time stamp and the calendar date, which the clock tick of margin does not cover.
- Catalysts.Dedupe: lower-casing covers the letters A to Z only, and titles are taken as already stripped.
- EntryEdge.Evaluate: a missing close is not distinguished from a non-positive one, and the reason for a bar not in the store does not name the last bar.
- Pagination.FetchAll: the server is a fixed, strictly ascending list of bars; the conversion to a data frame is not modelled.
- EpsRevision.FileAnswersLikeFull: leaves out the number of snapshots on file, which differs whenever something was evicted.
- Input and output (HTTP, yfinance, storage formats, logging): feeds and files are sequences and maps.
- The verdict demotion pipeline of compare.py: its rules live in modules outside the modelled files.
- Floating-point rounding: all arithmetic is exact; only the roundings the code asks for are kept.
