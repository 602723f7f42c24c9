# A verified model of the backtesting, synchronisation and scheduling core

This project models the parts of the repository where a small slip would silently corrupt a
backtest or a synchronised history, and proves what those parts are for. Every file holds one module.

**The simulated executor.** `Pricing`, `CrossPosition` and `Trades` model prices on the half-dollar
grid, inverse-contract P/L, the cross-margin position and the isolated trade as values, as the code
does. `ExecutorSpec` is the executor as a state machine over values; `Executor` is the object whose
methods update its fields in place, each method proved to do exactly one step of that machine,
including what an error leaves behind; below, only those with a loop or a partial commit have a row.
`Valuation` has P/L and funding in whole satoshis by formulas of their own. `CrossLaws` proves what
one cross operation keeps, `TradeOutcomes` and `StepOutcomes` which trades a candle, a settlement and
a manual close close, at what price, and what becomes of the others, each from the market data and
the stored trade alone, `Ledgers` the two money ledgers over whole runs, `TriggerLaws` exactly when
the cached price trigger skips only work that would change nothing, and that trailing stops only
tighten, `TriggerExact` that the trigger asks for no more work than it must, `Carry` what the carry
operator's hedge check asks for and that its order is never rejected after its own deposit.

**Consolidation and replay.** `Consolidator` proves that the incremental consolidator always equals
batch grouping of everything pushed. `HistoryCheck` proves which lookbacks the engine's check of the
stored history covers, `Lookbacks` and `ReplaySlices` that over the minutes it asks for every slice an
evaluator sees is its own full window exactly as far as the check covers it, `OperatorRuns` how often
each evaluator runs. `Replay` proves that the buffered engine loop equals an unbuffered replay for any
buffer size; `ReplayLaws` proves what such a replay feeds, settles and reports, `ReplayClock` what the
executor's clock and market price make of it.

**History.** `Grid` is the three-phase settlement calendar and the search for missing settlements;
`Backfill` the funding backfill loop with its termination measure; `CandleStore` the `gap` and
`stable` flags of the candle table and what `is_range_available` then guarantees, `FlaggingLaws`
exactly which rows a flagging unsettles and which it flags. `TimeSets` holds
the first and last of a stored set of times.

**Scheduling.** `Scheduler` is the live evaluation loop: what runs at each wake and how late.

Satoshis, quantities and times (in whole seconds) are integers; rates, dollar amounts and P/L before
flooring are exact reals; a price is a whole number of half-dollar ticks.

Where the code and its documentation or intent part ways, the code is followed and the difference is
a lemma with its exact condition. A long that a candle takes to both its stop and its take profit is
stopped, a short takes profit, since the lower price is looked at first (`LongUnderCandle`,
`ShortUnderCandle`). A losing reduction that asks for an entry beyond the price bounds collapses it to
a bound and creates value (`CollapsedEntryCreatesValue`, `CollapsedLong`). An off-tick candle can make
the price trigger skip a trailing update (`FastPathAgreesIff`, `OffTickCandleDiffers`). The history check of the engine looks at the longest lookback alone, which
does not cover every evaluator when resolutions are mixed (`AlwaysCheckedIff`,
`CheckMissesMixedResolutions`). Opening a trade can leave a debt of up to its opening fee
(`OpeningOverdrawsIff`, `OpeningOverdraws`). A raw operator can see more rows than it asked for
(`RawOperatorSeesItsWindowIff`, `RawOperatorSeesMore`). One dead-zone instant is accepted as a
settlement time (`StrayInstant`). An empty first page or a page that repeats known rows keeps the
backfill in place for ever (`RoundProgress`). A candle page that stops short of the row whose gap flag
it clears, or that has a hole in it, hides a hole until the next flagging (`AddingKeepsMarkedIff`). One
missing minute before midnight makes the daily report of a backtest fail (`DailyReportsInTimeIff`,
`BacktestClock`). The first candle of a backtest is loaded and evaluated before anything is settled, so
a settlement due by its end comes after that evaluation and is charged to a trade opened there
(`ReplaySettlesFirstIff`, `FirstSettlementIsLate`, `LateSettlementCharges`); and an order placed at that
evaluation is filled at the open of a candle whose close was already shown (`EvaluationMarket`).

The formulas of the exchange SDK are not part of this repository. Those the model needs are either
parameters (`Pricing.Sdk`: fees, margins, liquidation prices, leverage and stop checks, added margin)
or fixed here by what the code implies of them: the inverse-contract P/L, the quantity-weighted
harmonic mean of entry prices, half-dollar ticks from 1 to 100 million dollars, and rounding to the
nearest tick.

## Model

| member | source | states |
|---|---|---|
| CrossLaws.OrderKeepsNetValue | src/trade/backtest/executor/models.rs:238-405 | any accepted market order, whatever its kind, charges exactly its fee and books the floored P/L of what it unwinds; margin is forgiven exactly when the order saturates it; net asset value falls by the fee and less than one satoshi, up to the rounding of a rewritten entry, which is nothing if and only if the entry is on the price grid, is at most half a tick of it while the entry is between the price bounds, and creates value beyond them |
| CrossLaws.OrderWithoutBookingIsExact | src/trade/backtest/executor/models.rs:238-405 | an opening, increasing or losing-reducing order loses nothing but its fee if and only if the averaged or carried entry is on the price grid |
| CrossLaws.CollapsedEntryCreatesValue | src/trade/backtest/executor/models.rs:377-403 | an order that asks for an entry beyond the price bounds is always a losing reduction, gets the bound as its entry and always ends with more than it had less its fee |
| CrossLaws.CollapsedLong | src/trade/backtest/executor/models.rs:377-403 | a long of 1000 at 100 000 dollars reduced by 999 at 50 000, with a margin that covers the fee and the floor of what is left: the order is accepted, its entry becomes one dollar, and over 0.9 BTC appears |
| Pricing.PriceKeepsInverse | src/trade/core.rs:684-717 | a price made from an inverse that is between the bounds has that inverse up to half a tick |
| CrossLaws.EstimatesMatchOrder | src/trade/core.rs:652-791 | the order that moves to a target exposure lands on the estimated entry, charges the estimated fee, and ends with the estimated margin less that fee if and only if nothing saturates |
| CrossLaws.OrderAcceptedIff | src/trade/backtest/executor/models.rs:238-405 | an order to a target is accepted if and only if its exposure is valid, an increase stays within the maximum, and the margin it leaves meets the floor: the estimated margin less the fee, or only the booked P/L when the fee exceeds the margin; and when it saturates |
| CrossLaws.CollateralIsExact | src/trade/core.rs:793-865 | when nothing saturates, an amount added to the margin makes the target order leave at least the margin floor and at least the margin its wanted liquidation needs if and only if it is at least the estimate: with one satoshi less one of the two fails |
| CrossLaws.CollateralWithoutOrder | src/trade/core.rs:793-865 | the same for a position that already has the target exposure |
| CrossLaws.CollateralDefinedIff | src/trade/core.rs:793-865 | the estimate exists if and only if the exposure, its floor, the order and the liquidation price are within their limits |
| CrossLaws.DepositMakesOrderValid | src/trade/core.rs:793-865 | depositing the estimated collateral difference, when positive, always makes the target order pass validation, even when its fee saturates the margin, and the position then holds the margin its wanted liquidation needs |
| CrossLaws.ExposureIff | src/trade/backtest/executor/models.rs:32-56 | a running exposure is made exactly if its shape is valid and the margin exceeds its running and maintenance margin, and carries the liquidation that margin gives |
| CrossLaws.CloseKeepsLedger | src/trade/backtest/executor/models.rs:198-236 | closing books P/L and fee, and forgives exactly the shortfall below zero |
| CrossLaws.FundingKeepsLedger | src/trade/backtest/executor/models.rs:104-178 | a settlement books its fee once; it leaves a coherent position, and a force-closed one is flat |
| CrossLaws.FundingForcesFlatIff | src/trade/backtest/executor/models.rs:104-178 | the three checks of a settlement come to one: the position is closed by force if and only if the margin left after the nearest whole number of satoshis of funding is no more than it requires or the market has passed the liquidation price that margin gives |
| Pricing.RepresentableIffExact | src/trade/core.rs:684-717 | the price made from an inverse has that very inverse if and only if the inverse belongs to a price on the grid |
| Carry.CheckHedgeIs | examples/operators/cross_carry.rs:405-470 | the hedge check asks for nothing exactly within the rebalance threshold, and otherwise for an order that takes its whole quantity off the drift, all of it unless the order is the greatest allowed |
| Carry.HedgeOrderAccepted | examples/operators/cross_carry.rs:405-470 | after the deposit the hedge check asks for, its order is accepted, reaches the hedge target and leaves the margin the target liquidation needs |
| Carry.BalanceHedgeSize | examples/operators/cross_carry.rs:195-230 | balancing either stops short of an unaffordable deposit, or fails with the deposit's own error, or ends exactly at the hedge target with the margin its target liquidation needs, having paid exactly the deposit; its order is never rejected |
| Executor.SimulatedTradeExecutor.CandleUpdate | src/trade/backtest/executor/mod.rs:104-288 | a candle does one step of the state machine; an error leaves everything as it was, except that trailing stops of running trades may have moved, each only closer; a candle out of time order changes nothing |
| Executor.SimulatedTradeExecutor.RepriceTrade | src/trade/backtest/executor/mod.rs:148-252 | one iteration: the lower of stop and take profit first, then the higher, then the trailing update, as one visit of the pass; of the stored trade only the stop moves, and only closer |
| Executor.SimulatedTradeExecutor.ApplyFundingSettlement | src/trade/backtest/executor/mod.rs:290-382 | a settlement does one step; a failed one changes nothing |
| Executor.SimulatedTradeExecutor.CloseRunning | src/trade/backtest/executor/mod.rs:384-453 | closes exactly the selected trades and returns their ids in the order they join the history |
| Executor.SimulatedTradeExecutor.CreateRunning | src/trade/backtest/executor/mod.rs:477-548 | opens a trade as the state machine does; an error of any check changes nothing, an error of the trigger leaves exactly the balance debited and the last trade time set |
| StepOutcomes.LongUnderCandle | src/trade/backtest/executor/mod.rs:160-200 | a running long is in the closed history at its stop, or its liquidation if it has none, if and only if the low reaches it, at its take profit if and only if only the high reaches that, at no other price, and runs on otherwise |
| StepOutcomes.ShortUnderCandle | src/trade/backtest/executor/mod.rs:160-200 | the same for a short, whose take profit comes before its stop |
| StepOutcomes.CandleOutcome | src/trade/backtest/executor/mod.rs:104-288 | over all trades: the closed history, the trades kept with their trailed stops, the balance, fees and P/L after a candle are those of the exit prices and trailed stops; short of the cached trigger nothing exits and nothing changes |
| StepOutcomes.CandleCrossOutcome | src/trade/backtest/executor/mod.rs:104-126 | the cross position is closed at its liquidation price exactly if the candle reaches it |
| StepOutcomes.CandleSucceedsIff | src/trade/backtest/executor/mod.rs:104-288 | a candle fails exactly when it is out of time order or, past the cached trigger, some trade it does not close cannot be trailed or bounded |
| TradeOutcomes.TrailIs | src/trade/backtest/executor/mod.rs:200-252 | a trailed stop becomes the rounded extreme less (for shorts plus) its percentage, when that is a step past the old stop and short of the close, and otherwise stays |
| TradeOutcomes.LongTriggerIsFirst | src/trade/core.rs:2110-2168 | the trigger of a trailing long is the least price whose trailed stop is a step past its stop, and exists exactly if the step and such a price are within the bounds |
| TradeOutcomes.ShortTriggerIsLast | src/trade/core.rs:2110-2168 | that of a trailing short is the greatest such price |
| TradeOutcomes.PassOutcome | src/trade/backtest/executor/mod.rs:128-453 | a pass over the running trades adds up, in order, what becomes of each: closed history, trades kept, balance, funding, fees and P/L |
| StepOutcomes.TradeAtSettlement | src/trade/backtest/executor/models.rs:609-615 | at a settlement a long is charged, and a short paid, the whole number of satoshis nearest to quantity over fixing price times rate; a trade is closed, at the rounded market, if and only if a charge leaves too little margin or too high a leverage; kept, a charge comes out of its margin, leverage and liquidation follow, and a payment leaves it alone |
| StepOutcomes.AccountAtSettlement | src/trade/backtest/executor/mod.rs:290-382 | with one trade: the margin falls by a charge, the balance rises by a payment, and a forced close pays the charge out of the balance |
| StepOutcomes.FundingOutcome | src/trade/backtest/executor/mod.rs:290-382 | the same over all trades |
| StepOutcomes.FundingCrossOutcome | src/trade/backtest/executor/models.rs:104-178 | a cross position that stays has the charge less margin and the liquidation that gives; one closed by force is closed at the market and charged what is left |
| StepOutcomes.TradeAtClose | src/trade/backtest/executor/mod.rs:384-453 | a manual close closes a trade, at the rounded market, if and only if its id, its side or all were meant; the others are left alone |
| StepOutcomes.OpeningOutcome | src/trade/backtest/executor/mod.rs:477-548 | an opened trade has what was ordered, the clock and the rounded market price, the stop ordered, a trailing one its percentage behind that price, and the amounts the exchange computes, which are what the balance pays |
| StepOutcomes.OrderMakesTradeIff | src/trade/backtest/executor/mod.rs:477-508 | an order makes a trade if and only if the market and its first stop are within the price bounds, a trailing percentage is at least a step and the exchange accepts it |
| StepOutcomes.OpenSucceedsIff | src/trade/backtest/executor/mod.rs:510-548 | it is filled if and only if the balance covers the margins, fewer trades than the maximum run and a trailing stop has a trigger |
| StepOutcomes.AddMarginOutcome | src/trade/backtest/executor/mod.rs:560-581 | added margin goes from the balance to the one trade, with the margin, leverage and liquidation the exchange computes, and to nothing else |
| StepOutcomes.DepositIff | src/trade/backtest/executor/mod.rs:625-652 | collateral comes in exactly if the balance has it and the position is held with it: valid, above the floor and above what a loss requires, short of the liquidation the new margin gives |
| StepOutcomes.WithdrawIff | src/trade/backtest/executor/mod.rs:654-685 | collateral goes out exactly if the position is held, in the same sense, without it |
| StepOutcomes.SetLeverageIff | src/trade/backtest/executor/mod.rs:687-703 | the leverage changes exactly if the position is held, in the same sense, with the new one |
| StepOutcomes.CrossOrderOutcome | src/trade/backtest/executor/mod.rs:455-475 | a cross order is placed at the rounded market price and sets the last trade time, exactly if that is a price and the position takes it |
| StepOutcomes.CrossCloseOutcome | src/trade/backtest/executor/mod.rs:711-729 | a close flattens a running position at the rounded market price: P/L less fee go into the margin, which stops at zero |
| ExecutorSpec.InsertSorted | src/trade/core.rs:388-414 | adding a trade keeps the map ordered newest first |
| Ledgers.IsolatedLedger | src/trade/backtest/executor/mod.rs:290-543 | after any run: balance, locked margin and fees, funding fees and net transfers equal the start balance plus realized P/L less closed fees, and the totals are those of the closed history |
| Ledgers.StepKeepsWorth | src/trade/backtest/executor/mod.rs:104-581 | every operation, the funding force-close included, conserves the isolated account up to its transfer |
| Ledgers.OpeningOverdrawsIff | src/trade/backtest/executor/mod.rs:510-525 | the balance check leaves out the opening fee: opening ends in debt if and only if the balance covers the margins but not that fee, and by no more than the fee |
| Ledgers.OpeningOverdraws | src/trade/backtest/executor/mod.rs:510-525 | a start balance of 1015 satoshis and a trade with margin 1000 and fees 10 and 5 end at -10 |
| Ledgers.CrossLedger | src/trade/backtest/executor/models.rs:58-405 | after any run the cross margin is transfers plus realized P/L less fees and funding plus a forgiven amount, which is never negative and zero exactly when no step clamped the margin |
| Ledgers.StepKeepsCrossLedger | src/trade/backtest/executor/models.rs:58-405 | an operation forgives a positive amount exactly when it would have taken the margin below zero |
| Ledgers.StepKeepsWellFormed | src/trade/backtest/executor/models.rs:32-102 | after every operation the exposure of the cross position is the one its margin and leverage give |
| TriggerLaws.StepKeepsCovered | src/trade/core.rs:2294-2332 | every operation keeps the cached trigger inside the bounds of every running trade |
| TriggerExact.StepKeepsTight | src/trade/core.rs:2294-2332 | every operation but added margin keeps it no wider than that: it is reached exactly by the prices at or beyond the bounds of some running trade |
| TriggerExact.AttendsIffConcerns | src/trade/core.rs:2170-2197 | inside the price bounds these are exactly the prices that stop a trade, take its profit or move its trailing stop by a step |
| TriggerExact.AddMarginKeepsTight | src/trade/backtest/executor/mod.rs:560-581 | added margin keeps it so for a trade with a stop |
| TriggerLaws.AddedMarginKeepsCoveredIff | src/trade/backtest/executor/mod.rs:560-581 | adding margin, which does not refresh the trigger, keeps it inside the bounds of the trade if and only if the trade has a stop or its new liquidation stays outside the cached interval |
| TriggerLaws.FastPathAgreesIff | src/trade/backtest/executor/mod.rs:128-262 | for a candle in time order, the executor and one that re-evaluates every trade do the same, errors included, if and only if the candle reaches the trigger or would disturb no running trade, which the candle and each trade alone tell |
| TriggerLaws.InwardCandleAgrees | src/trade/backtest/executor/mod.rs:128-262 | a candle whose high does not round up and whose low does not round down, as any on the tick grid, is such a candle |
| TriggerLaws.TriggerEqualsFullScan | src/trade/backtest/executor/mod.rs:128-262 | over any run of such candles and any other operations, from the start of a backtest, both executors end alike, errors included |
| TriggerLaws.OffTickCandleDiffers | src/trade/backtest/executor/mod.rs:212-247 | a run of two steps: after a market order with a trailing stop, a candle high just below the trigger rounds up to it: the full scan moves the stop, the fast path does not |
| TriggerLaws.TrailingStopsOnlyTighten | src/trade/backtest/executor/mod.rs:200-252 | over any run, a trade still running has a stop at least as tight as before |
| Trades.TriggerGuaranteesStep | src/trade/core.rs:2110-2168 | an extreme past the division-form trigger makes the rounded new stop at least one step tighter |
| Consolidator.RuntimeConsolidator.Push | src/trade/backtest/consolidator.rs:199-228 | with a bucket open, fails exactly on a candle of an older bucket; otherwise the rows stay the last groups of everything pushed, the newest open and mirrored by the current bucket |
| Consolidator.RuntimeConsolidator.FromStored | src/trade/backtest/consolidator.rs:100-158 | of the stored candles up to the cursor, fails exactly when a minute comes after a later minute or, for other resolutions, after a later bucket; otherwise it holds what pushing them all gives, and one-minute candles one for one |
| Consolidator.RuntimeConsolidator.TrimOldCandles | src/trade/backtest/consolidator.rs:160-165 | trimming keeps exactly the last period of rows |
| Consolidator.AccumulateSummarises | src/trade/backtest/consolidator.rs:29-79 | for candles in any order, an accumulated bucket has the open of the first of the earliest, the close of the first of the latest, the highest high, the lowest low and the summed volume |
| Consolidator.OrderedEnds | src/trade/backtest/consolidator.rs:44-60 | for candles in time order that is the first open and the last close |
| Consolidator.GroupsAreGrouping | src/trade/backtest/consolidator.rs:189-228 | grouping splits time-ordered candles into consecutive runs of one bucket each, losing none |
| Lookbacks.RowsDescribeGroups | src/trade/backtest/consolidator.rs:62-79 | every row of a buffer has the bucket, open, close, extremes, volume and times of its group of candles, and is stable exactly if all of them are and it is not the bucket in progress |
| Lookbacks.MergeLookbacks | src/trade/backtest/operator.rs:36-71 | the merged configuration is the largest period of each resolution and the first longest lookback |
| Lookbacks.SharedSliceIsDedicated | src/trade/backtest/operator.rs:131-140 | the slice from a shared, longer buffer equals a dedicated consolidator's rows |
| Lookbacks.SliceIsFullWindow | src/trade/backtest/operator.rs:131-140 | when the candles pushed end with the minutes of the window, whatever came before, the slice has exactly the evaluator's number of rows, one per consecutive bucket, each covering every minute of it |
| Lookbacks.BufferReachesWindow | src/trade/backtest/single/engine.rs:190-202 | a buffer that starts the longest lookback early reaches the window of every evaluator at any later time |
| Lookbacks.RawOperatorSeesItsWindowIff | src/trade/backtest/operator.rs:216-250 | a raw operator, which is handed the shared buffer unsliced, sees its own window if and only if no longer period was asked for or no more buckets than its own period have been seen |
| Lookbacks.RawOperatorSeesMore | src/trade/backtest/operator.rs:216-250 | with candles of two buckets and a shared period of two, an operator that asked for one row sees both |
| HistoryCheck.AlwaysCheckedIff | src/trade/backtest/single/engine.rs:108-124 | the history check covers an evaluator at every start if and only if its window less the greatest common divisor of both resolutions is no longer than the longest lookback less one of its own candles |
| HistoryCheck.FinerIsCheckedIff | src/trade/backtest/single/engine.rs:108-124 | for a resolution that divides the longest one, if and only if its candles before the last cover no more than those of the longest |
| HistoryCheck.CoarserIsChecked | src/trade/backtest/single/engine.rs:108-124 | a resolution that the longest one divides is always covered |
| HistoryCheck.CheckCoversOneResolution | src/trade/backtest/single/engine.rs:108-124 | with one resolution the history check covers every evaluator, at every start |
| HistoryCheck.CheckMissesMixedResolutions | src/trade/backtest/single/engine.rs:108-124 | with a one-day and 24 one-hour candles it checks nothing before the start although 23 hours are needed |
| Lookbacks.SignalOperator.Iterate | src/trade/backtest/operator.rs:110-154 | evaluates exactly what is due, in order, each with its own slice, and records the time |
| OperatorRuns.Drive | src/trade/backtest/operator.rs:110-154 | over the cursors of a run the operator calls each evaluator at exactly the cursors that are an interval after its last run, in their order, each with the last rows of the buffer of its resolution, as many as its period |
| OperatorRuns.NeverOverdue | src/trade/backtest/operator.rs:116-126 | over any ascending cursors an evaluator runs no sooner than its interval after its last run and is never left overdue |
| OperatorRuns.RunsEveryKthMinute | src/trade/backtest/operator.rs:116-126 | over gap-free minutes it runs at the end of exactly every k-th minute, k being its interval in minutes, rounded up, from the first minute that ends an interval after the start |
| Replay.Run | src/trade/backtest/single/engine.rs:185-335 | for any buffer size the loop does what the unbuffered replay does; it stops early only on an empty fetch, having done a prefix; on gap-free minutes and a buffer that holds the lookback it never does; it terminates |
| Replay.QueryIsSlice | src/db/postgres/ohlc_candles.rs:166-187 | a range query returns a stretch of the stored candles without a hole |
| ReplayLaws.ReplayOfGapFreeMinutes | src/trade/backtest/single/engine.rs:196-332 | every candle from the lookback to the end is loaded or fed once and in order; every settlement before the end is applied once, before the fed candle covering it; reports come for the start of every day and for nothing else; the executor is never sent back in time |
| ReplayLaws.SettlesEachOnce | src/trade/backtest/single/engine.rs:309-321 | with or without gaps, exactly the settlements up to the final cursor are applied, in order |
| ReplayLaws.SettlesBeforeCoveringCandle | src/trade/backtest/single/engine.rs:309-327 | with or without gaps, a settlement comes after every fed candle that ends before it and before every fed candle that covers it; the first candle is loaded, not fed |
| ReplayLaws.ReplaySettlesFirstIff | src/trade/backtest/single/engine.rs:196-332 | every settlement of a replay comes before the evaluations at or past its time if and only if none is due at the end of the first candle or the replay ends there |
| ReplayLaws.MidnightRun | src/trade/backtest/single/engine.rs:211-219 | a run from midnight settles everything before the evaluations past it as long as it starts before the third settlement phase; from then on, the settlement of the start itself comes after the first evaluation |
| ReplayLaws.FirstSettlementIsLate | src/trade/backtest/single/engine.rs:239-321 | two minutes and a settlement at the start give the log load, report, evaluate, settle, feed, evaluate |
| ReplayClock.LateSettlementCharges | src/trade/backtest/executor/mod.rs:290-382 | that settlement charges a trade opened at the first evaluation the nearest whole number of satoshis, or pays it |
| ReplayLaws.DailyReportsInTimeIff | src/trade/backtest/single/engine.rs:264-280 | the daily report never asks the executor to go back in time if and only if the first candle is no later than the end of the first day and the last minute of each day passed since is stored |
| ReplayClock.StepClock | src/trade/backtest/executor/mod.rs:90-126 | an operation is refused for its time exactly when it would take the clock back, and sets the clock when it succeeds |
| ReplayClock.BacktestClock | src/trade/backtest/single/engine.rs:260-327 | whatever orders the operator places in between, a backtest that meets this condition never fails for its time, and any other always fails |
| ReplayClock.EvaluationMarket | src/trade/backtest/executor/mod.rs:64-126 | whatever orders were placed before, an evaluation finds the executor at the end and the close of the candle just shown, the first one of a backtest at the start and the open of that candle, and orders are filled there |
| ReplayLaws.FedBefore | src/trade/backtest/single/engine.rs:258-332 | when the end of a candle is evaluated, exactly the candles after the first one up to it have been fed |
| ReplaySlices.Consolidate | src/trade/backtest/single/engine.rs:236-332 | a consolidator run along a log, loaded once and pushed each candle fed, never fails, and every slice taken at an evaluation is the tail of the groups of all candles fed before it |
| ReplaySlices.EvaluatorSeesItsWindow | src/trade/backtest/operator.rs:110-154 | for every run with all minutes stored from where the engine's check asks, whatever the buffer size and whatever is stored before: it evaluates at the end of every minute, and each slice is the evaluator's own full window whenever the history check covers the window needed at the start; when it does not and nothing is stored before, the first slice is not |
| ReplaySlices.UncheckedRun | src/trade/backtest/single/engine.rs:108-124 | whenever the check falls short of an evaluator's window, some run with all the minutes it asks for gives the evaluator a first slice that is not its window |
| Grid.ValidIsOnGrid | src/util/dates/mod.rs:94-105 | validity is membership of the three-phase grid, but for one instant |
| Grid.FloorCeilAdjunction | src/util/dates/mod.rs:107-219 | floor is the greatest and ceiling the least grid point on its side of any other instant |
| Grid.FloorCeilMonotone | src/util/dates/mod.rs:107-219 | both are monotone away from that instant and idempotent everywhere |
| Grid.StrayInstant | src/util/dates/mod.rs:94-105 | exactly at that instant both results are off the grid, and monotonicity fails around it |
| Grid.GetMissingSettlementTimes | src/db/postgres/funding_settlements.rs:193-239 | rejects exactly the invalid bounds; else returns, ascending, exactly the grid points of the range absent from the store |
| Backfill.Evaluate | src/sync/process/sync_funding_settlements_task/funding_settlements_state.rs:58-136 | fails exactly on a settlement out of reach; else describes the store: its bounds and exactly the gaps of the scanned window |
| Backfill.MissingRequestIsAllMissing | src/sync/process/sync_funding_settlements_task/funding_settlements_state.rs:182-243 | a request for missing times covers no stored settlement, ends at the last missing time and stays within reach |
| Backfill.NextRequestIs | src/sync/process/sync_funding_settlements_task/funding_settlements_state.rs:182-253 | the request of every state, in terms of the store: the latest page for an empty store, the last run of missing times from its earliest to its last, what precedes the earliest settlement while the history is short of the reach, and otherwise what follows the newest |
| Backfill.NewestMovesOn | src/sync/process/sync_funding_settlements_task/funding_settlements_state.rs:245-253 | after that last kind of request, a page with a later settlement moves the newest entry on |
| Backfill.NextRangeIsDefined | src/sync/process/sync_funding_settlements_task/funding_settlements_state.rs:202-267 | for a state that was evaluated with a reach the next request always exists, and nothing missing means history back to the reach |
| Backfill.RoundProgress | src/sync/process/sync_funding_settlements_task/mod.rs:222-266 | a round after which the loop goes on makes the lexicographic measure smaller, except in exactly two cases in which it repeats the very same state and request |
| Backfill.SyncFundingSettlementsTask.PartialDownload | src/sync/process/sync_funding_settlements_task/mod.rs:162-198 | stores a whole page or, on an invalid time or an empty lower page, nothing |
| Backfill.SyncFundingSettlementsTask.Round | src/sync/process/sync_funding_settlements_task/mod.rs:223-253 | one download and evaluation, and the exclusion of a time the service did not deliver |
| Backfill.SyncFundingSettlementsTask.Backfill | src/sync/process/sync_funding_settlements_task/mod.rs:210-267 | terminates; success means history back to the reach and every time of the scanned window stored or refused by a logged request; when it is not current, the last request asked for what follows the newest entry; the result tells whether the newest entry is current |
| CandleStore.GapsAreExactAndDisjoint | src/db/postgres/ohlc_candles.rs:376-407 | the reported gaps are exactly the flagged stable rows with the last stable row before them, ascending and without overlap |
| CandleStore.FlaggingMakesAvailabilitySound | src/db/postgres/ohlc_candles.rs:444-579 | after flagging, every minute of an available range between two stable candles from the cutoff on is stored and stable |
| CandleStore.AvailableIsStable | src/sync/process/sync_price_history_task/price_history_state.rs:118-142 | the same for any table whose holes are marked |
| CandleStore.TailIsStable | src/sync/process/sync_price_history_task/price_history_state.rs:198-210 | the tail reported as continuous has no hole between stable candles |
| CandleStore.FlaggingIsIdempotent | src/db/postgres/ohlc_candles.rs:444-579 | flagging again with the same cutoff changes nothing |
| CandleStore.SafetyMargin | src/db/postgres/ohlc_candles.rs:416-443 | no row within five minutes of a newly found hole stays stable |
| FlaggingLaws.StaysStableIff | src/db/postgres/ohlc_candles.rs:481-509 | a stable row from the cutoff on stays stable if and only if every newly found hole has at least five stored rows between itself and that row, counting the row next to the hole |
| FlaggingLaws.GapFlagIff | src/db/postgres/ohlc_candles.rs:511-579 | a gap flag is added exactly to the sixth stored row after a new hole and to stable rows right after an unstable one |
| FlaggingLaws.BeforeCutoffUnchanged | src/db/postgres/ohlc_candles.rs:444-579 | rows before the cutoff are unchanged |
| CandleStore.AvailableIff | src/sync/process/sync_price_history_task/price_history_state.rs:118-142 | a range is available if and only if it lies between the first and the last row and meets no gap |
| CandleStore.UnreachableIff | src/sync/process/sync_price_history_task/price_history_state.rs:20-80 | an evaluation fails exactly when a lone row, or some gap, starts before the reach |
| CandleStore.TailStartsAfterLastGap | src/sync/process/sync_price_history_task/price_history_state.rs:198-210 | the continuous tail starts at the end of the last gap, or at the first row |
| CandleStore.AddingKeepsMarkedIff | src/db/postgres/ohlc_candles.rs:38-164 | storing any accepted batch, with or without holes in it, keeps all holes marked if and only if at each row it leaves unflagged the minute before is stable afterwards or nothing before it is |
| CandleStore.AddingKeepsMarked | src/db/postgres/ohlc_candles.rs:38-164 | for a run of minutes: if and only if the run closes the gap above it or that gap keeps its flag |
| CandleStore.ClearingKeepsMarkedIff | src/sync/process/sync_price_history_task/mod.rs:191-196 | clearing a gap flag after an empty page keeps all holes marked if and only if no hole ends at that row |
| CandleStore.OhlcCandlesRepo.AddCandles | src/db/postgres/ohlc_candles.rs:38-164 | rejects a batch with its first fault and changes nothing, or stores it |
| CandleStore.OhlcCandlesRepo.PartialDownload | src/sync/process/sync_price_history_task/mod.rs:172-201 | an empty page below the history is an error that changes nothing, an empty page for a gap clears its flag, any other is stored; the table then has its holes marked exactly under the conditions above |
| CandleStore.OhlcCandlesRepo.FlagMissingCandles | src/db/postgres/ohlc_candles.rs:444-579 | the three updates leave a table whose holes are marked and which flagging does not change any more |
| Scheduler.LiveSignalSchedule.constructor | src/signal/process/mod.rs:86-122 | the first wake is planned one shortest interval after the start |
| Scheduler.LiveSignalSchedule.Wake | src/signal/process/mod.rs:210-293 | runs exactly the evaluators that are due and plans the earliest next run among them |
| Scheduler.EveryWakeRuns | src/signal/process/mod.rs:228-292 | every wake runs the evaluators with the shortest interval, so the plan is never the end of time |
| Scheduler.SpacingAndLateness | src/signal/process/mod.rs:228-292 | runs of one evaluator are at least its interval apart and less than one shortest interval and the delay of a wake late |
| Scheduler.OnTimeRuns | src/signal/process/mod.rs:228-292 | with wakes on time, an evaluator runs at every k-th wake, k being its interval in shortest intervals, rounded up |
| Scheduler.PunctualIff | src/signal/process/mod.rs:228-292 | that keeps its interval exactly if and only if the shortest interval divides it |

## Left out

- The SDK's own formulas (fees, liquidation prices, margin and leverage evaluation): parameters of the model; nothing proved depends on their form.
- IEEE rounding and overflow of `i64` and `u64`: arithmetic is exact and the checked conversions are taken to succeed.
- `isolated_trade_cash_in`, which depends on an SDK formula and replaces a trade without refreshing the trigger.
- Ledgers.IsolatedLedger: assumes that trade ids are fresh, as random UUIDs are, and that the SDK adds exactly the margin it is asked to add.
- TriggerLaws.TriggerEqualsFullScan: for candles on which both paths agree and added margin that keeps the trade covered, both of which are exact.
- TriggerExact.StepKeepsTight: for new trade ids, and not for margin added to a trade without a stop, whose liquidation moves while the trigger stays.
- StepOutcomes.LongUnderCandle: for a sorted map and a trigger that covers the running trades, which every step keeps except margin added to a trade without a stop; likewise `ShortUnderCandle` and `CandleOutcome`. The creation and closing times shown in the trade history are not modelled.
- CrossLaws.CollateralIsExact: for an order that saturates nothing; `DepositMakesOrderValid` covers those that do.
- CrossLaws.DepositMakesOrderValid: for a fee charged that is at most the fee estimated; the carry operator chooses its estimate.
- Carry.BalanceHedgeSize: for an order below the operator's order cap; a capped order does not reach the target by design. The liquidation side of the operator is not modelled.
- Executor.SimulatedTradeExecutor.CandleUpdate: the totals of one pass over the trades are one record and the ordered map of running trades is a sorted sequence; the id index beside that map is not modelled.
- Consolidator.RuntimeConsolidator.FromStored: one-minute candles equal their grouping only when they ascend on whole minutes, as the candle table returns them; a repeated minute is kept twice.
- Consolidator.AccumulateSummarises: for candles with representable prices, below the largest finite double, which the bucket starts its low from.
- Lookbacks.MergeLookbacks: one operator's evaluators; the merging of whole configurations by the parallel engine and the map of consolidators by resolution are the same maxima again.
- Replay.Run: for candles stored in ascending order on whole minutes, as the candle table returns them; the executor, the consolidator and the operator appear as the log of what is done to them, in order. Their own failures end a run early. The parallel engine shares this loop.
- Backfill.Evaluate: for a store of valid settlement times, which every download checks before it stores a page.
- Backfill.RoundProgress: pages hold only times of a finite horizon, and the clock does not run back; the retries inside one request are one reply.
- Backfill.SyncFundingSettlementsTask.Backfill: requires a non-empty first page and lower pages that are empty or reach below their bound, without which the loop need not end.
- CandleStore.FlaggingMakesAvailabilitySound: for rows on whole minutes, as `AddCandles` guarantees them.
- CandleStore.AddingKeepsMarkedIff: prices and volumes of the rows are not modelled.
- The candle backfill loop, price ticks, persistence of running trades and migrations.
- Scheduler.LiveSignalSchedule.constructor: for at least one evaluator and positive intervals, as the configuration demands.
- Scheduler.SpacingAndLateness: the wait for synchronisation is part of the delay of a wake; the candles the live evaluators are given are not modelled.
- Times below a second, local time formatting, metrics, the user interface, the REST and stream clients, tasks, channels and status broadcasting, and the live executor.
