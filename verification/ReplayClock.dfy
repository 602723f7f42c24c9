/** What a replay asks of the executor's clock, and what the executor answers whatever the operator does in between. */
module ReplayClock {
  import opened Basics
  import opened Market
  import opened Pricing
  import opened CrossPosition
  import opened Valuation
  import opened Trades
  import opened ExecutorSpec
  import Replay
  import ReplayLaws

  // ----- When an operation goes back in time

  /** The executor's clock after an operation that succeeds. */
  function ClockAfter(op: Op, time: int): int {
    match op
    case OpTime(t) => t
    case OpCandle(candle) => candle.time + 59
    case _ => time
  }

  lemma TrailError(cfg: Config, candle: Candle, trade: Trade, tsl: PercentageCapped)
    ensures Trail(cfg, candle, trade, tsl) != Err(TimeSequenceViolation)
    ensures NextTrigger(cfg, trade, tsl) != Err(TimeSequenceViolation)
  {
    hide RoundTick, RoundTickUp, RoundTickDown;
  }

  lemma VisitError(cfg: Config, pass: Pass, entry: Entry, book: Book)
    ensures VisitOne(cfg, pass, entry, book) != Err(TimeSequenceViolation)
  {
    hide Trail, RoundTick, EstimatePl, Trade.ApplyFunding;
    if pass.CandlePass? && entry.tsl.Some? {
      TrailError(cfg, pass.candle, entry.trade, entry.tsl.value);
    }
    var visit := VisitEntry(cfg, pass, entry);
    if visit.Ok? && visit.value.Keeps? {
      UpdateError(cfg, book.trigger, visit.value.entry);
    }
  }

  lemma UpdateError(cfg: Config, trigger: Trigger, entry: Entry)
    ensures trigger.Update(cfg, entry) != Err(TimeSequenceViolation)
  {
    hide NextTrigger;
    if entry.tsl.Some? {
      TrailError(cfg, Candle(0, 0.0, 0.0, 0.0, 0.0, 0, 0, 0, true), entry.trade, entry.tsl.value);
    }
  }

  lemma {:induction false} PassError(cfg: Config, pass: Pass, entries: seq<Entry>, book: Book)
    ensures VisitAll(cfg, pass, entries, book) != Err(TimeSequenceViolation)
    decreases |entries|
  {
    hide VisitOne;
    if entries != [] {
      VisitError(cfg, pass, entries[0], book);
      var next := VisitOne(cfg, pass, entries[0], book);
      if next.Ok? {
        PassError(cfg, pass, entries[1..], next.value);
      }
    }
  }

  lemma OpenError(cfg: Config, s: State, order: Order)
    ensures CreateRunning(cfg, s, order) != Err(TimeSequenceViolation)
  {
    hide Insert, Trigger.Update, RoundTick;
    if OrderedEntry(cfg, s, order).Ok? {
      UpdateError(cfg, s.trigger, OrderedEntry(cfg, s, order).value);
    }
  }

  lemma CrossError(cfg: Config, s: State, op: Op)
    requires op.OpDeposit? || op.OpWithdraw? || op.OpLeverage? || op.OpCrossOrder? || op.OpCrossClose?
    ensures Step(cfg, s, op, false) != Err(TimeSequenceViolation)
  {
    hide MarginFloor, CrossPosition.IsCoherent, CrossPosition.EstFreeMargin, RoundTick, BoundedPrice, EstimatePl,
         AggregateEntryPrice, PriceFromInverse, CarriedInverse, CrossPosition.Close;
  }

  /** A step is refused for its time exactly when it would take the clock back; a step that succeeds sets it. */
  lemma StepClock(cfg: Config, s: State, op: Op, always: bool)
    ensures Step(cfg, s, op, always) == Err(TimeSequenceViolation) <==> ClockAfter(op, s.time) < s.time
    ensures Step(cfg, s, op, always).Ok? ==> Step(cfg, s, op, always).value.time == ClockAfter(op, s.time)
  {
    hide VisitAll, CreateRunning, Deposit, Withdraw, SetLeverage, CrossOrder, CrossClose, RoundTick, IndexOf,
         CrossPosition.ApplyFunding, CrossPosition.Liquidate, CrossPosition.LiquidationReached, Trigger.WasReached;
    match op
    case OpCandle(candle) => PassError(cfg, CandlePass(candle), s.running, OpenBook(s));
    case OpFunding(settlement) => PassError(cfg, FundingPass(settlement, s.marketPrice), s.running, OpenBook(s));
    case OpClose(selection) =>
      if RoundPrice(s.marketPrice).Ok? {
        PassError(cfg, ClosePass(selection, RoundPrice(s.marketPrice).value), s.running, OpenBook(s));
      }
    case OpOpen(order) =>
      OpenError(cfg, s, order);
      OpenKeepsTime(cfg, s, order);
    case OpTime(time) =>
    case OpAddMargin(id, amount) =>
    case _ =>
      CrossError(cfg, s, op);
      CrossKeepsTime(cfg, s, op);
  }

  lemma OpenKeepsTime(cfg: Config, s: State, order: Order)
    ensures CreateRunning(cfg, s, order).Ok? ==> CreateRunning(cfg, s, order).value.time == s.time
  {
    hide OrderedEntry, Insert, Trigger.Update;
  }

  lemma CrossKeepsTime(cfg: Config, s: State, op: Op)
    requires op.OpDeposit? || op.OpWithdraw? || op.OpLeverage? || op.OpCrossOrder? || op.OpCrossClose?
    ensures Step(cfg, s, op, false).Ok? ==> Step(cfg, s, op, false).value.time == s.time
  {
    hide CrossPosition.IsCoherent, CrossPosition.EstFreeMargin, RoundPrice, BoundedPrice, CrossPosition.Close,
         CrossPosition.WithMarketOrder, CrossPosition.WithMargin, CrossPosition.WithLeverage;
  }

  // ----- The operations of a replay

  /** What the engine asks the executor for. */
  function OpsOf(e: Replay.Event): seq<Op> {
    match e
    case Feed(candle) => [OpCandle(candle)]
    case Report(time) => [OpTime(time)]
    case Settle(settlement) => [OpFunding(settlement)]
    case _ => []
  }

  predicate ByEngine(op: Op) {
    op.OpTime? || op.OpCandle? || op.OpFunding?
  }

  /** The engine's operations among all operations; the others are the operator's orders. */
  function EngineOps(ops: seq<Op>): seq<Op> {
    if ops == [] then [] else (if ByEngine(ops[0]) then [ops[0]] else []) + EngineOps(ops[1..])
  }

  /** The operations are those of the log, with any orders of the operator in between. */
  predicate Interleaves(ops: seq<Op>, log: seq<Replay.Event>) {
    EngineOps(ops) == ReplayLaws.Project(log, OpsOf)
  }

  predicate OpsInTime(ops: seq<Op>, time: int) {
    ops == [] || (time <= ClockAfter(ops[0], time) && OpsInTime(ops[1..], ClockAfter(ops[0], time)))
  }

  lemma {:induction false} OrdersTakeNoTime(ops: seq<Op>, time: int)
    ensures OpsInTime(ops, time) <==> OpsInTime(EngineOps(ops), time)
  {
    if ops != [] {
      OrdersTakeNoTime(ops[1..], ClockAfter(ops[0], time));
      if ByEngine(ops[0]) {
        assert EngineOps(ops)[1..] == EngineOps(ops[1..]);
      } else {
        assert EngineOps(ops) == EngineOps(ops[1..]);
      }
    }
  }

  lemma {:induction false} LogInTime(log: seq<Replay.Event>, time: int)
    ensures ReplayLaws.InTime(log, time) <==> OpsInTime(ReplayLaws.Project(log, OpsOf), time)
  {
    if log != [] {
      var ops, rest := OpsOf(log[0]), ReplayLaws.Project(log[1..], OpsOf);
      LogInTime(log[1..], ReplayLaws.Clock(log[0], time));
      if ops == [] {
        assert ops + rest == rest;
      } else {
        assert (ops + rest)[1..] == rest;
      }
    }
  }

  lemma {:induction false} RunClock(cfg: Config, s: State, ops: seq<Op>, always: bool)
    ensures Run(cfg, s, ops, always) == Err(TimeSequenceViolation) ==> !OpsInTime(ops, s.time)
    ensures Run(cfg, s, ops, always).Ok? ==> OpsInTime(ops, s.time)
    decreases |ops|
  {
    hide Step;
    if ops != [] {
      StepClock(cfg, s, ops[0], always);
      var next := Step(cfg, s, ops[0], always);
      if next.Ok? {
        RunClock(cfg, next.value, ops[1..], always);
      }
    }
  }

  /** Whatever the operator orders, a run fails for its time only on a log that goes back, and then never succeeds. */
  lemma InterleavedClock(cfg: Config, s: State, ops: seq<Op>, always: bool, log: seq<Replay.Event>)
    requires Interleaves(ops, log)
    ensures Run(cfg, s, ops, always) == Err(TimeSequenceViolation) ==> !ReplayLaws.InTime(log, s.time)
    ensures Run(cfg, s, ops, always).Ok? ==> ReplayLaws.InTime(log, s.time)
  {
    hide Run, EngineOps, ReplayLaws.Project, OpsInTime, ReplayLaws.InTime;
    RunClock(cfg, s, ops, always);
    OrdersTakeNoTime(ops, s.time);
    LogInTime(log, s.time);
  }

  /**
   A backtest whose first candle comes after the first day, or that misses the last minute of a later
   day, fails whatever its operator does; any other never fails for its time.
   */
  lemma BacktestClock(cfg: Config, store: seq<Candle>, settlements: seq<Settlement>, start: int, end: int,
                      lookback: nat, balance: nat, minLeverage: real, ops: seq<Op>)
    requires Ascending(store) && Replay.OnMinutes(store) && start % MINUTE == 0
    requires Replay.IndexFrom(store, start) < |store|
    requires Interleaves(ops, Replay.Replayed(store, settlements, start, end, lookback))
    ensures var p := Replay.IndexFrom(store, start);
      var run := Run(cfg, InitialState(store[p], balance, minLeverage), ops, false);
      if && store[p].time <= start + DAY
         && ReplayLaws.DayEndsStored(store, p, ReplayLaws.FirstDayEnd(start, store[p].time), end)
      then run != Err(TimeSequenceViolation) else run.Err?
  {
    hide Run, Interleaves, ReplayLaws.InTime, ReplayLaws.DayEndsStored, Replay.Replayed, Ascending,
         Replay.OnMinutes, Replay.IsIndexFrom;
    ReplayLaws.DailyReportsInTimeIff(store, settlements, start, end, lookback);
    InterleavedClock(cfg, InitialState(store[Replay.IndexFrom(store, start)], balance, minLeverage), ops, false,
                     Replay.Replayed(store, settlements, start, end, lookback));
  }

  // ----- The market at an evaluation

  /** The market price after an operation that succeeds: only a candle moves it, to its close. */
  function PriceAfter(op: Op, price: real): real {
    if op.OpCandle? then op.candle.close else price
  }

  /** The clock and the market price after operations that succeed. */
  function MarketAfter(ops: seq<Op>, time: int, price: real): (int, real) {
    if ops == [] then (time, price) else MarketAfter(ops[1..], ClockAfter(ops[0], time), PriceAfter(ops[0], price))
  }

  lemma StepPrice(cfg: Config, s: State, op: Op, always: bool)
    requires Step(cfg, s, op, always).Ok?
    ensures Step(cfg, s, op, always).value.marketPrice == PriceAfter(op, s.marketPrice)
  {
    hide VisitAll, OpenBook, OrderedEntry, Insert, IndexOf, RoundPrice, BoundedPrice, Trigger.Update,
         Trigger.WasReached,
         CrossPosition.ApplyFunding, CrossPosition.Liquidate, CrossPosition.LiquidationReached, CrossPosition.Close,
         CrossPosition.WithMarketOrder, CrossPosition.WithMargin, CrossPosition.WithLeverage, CrossPosition.IsCoherent,
         CrossPosition.EstFreeMargin;
  }

  lemma {:induction false} RunMarket(cfg: Config, s: State, ops: seq<Op>, always: bool)
    requires Run(cfg, s, ops, always).Ok?
    ensures var s' := Run(cfg, s, ops, always).value;
      (s'.time, s'.marketPrice) == MarketAfter(ops, s.time, s.marketPrice)
    decreases |ops|
  {
    hide Step;
    if ops != [] {
      StepClock(cfg, s, ops[0], always);
      StepPrice(cfg, s, ops[0], always);
      RunMarket(cfg, Step(cfg, s, ops[0], always).value, ops[1..], always);
    }
  }

  lemma {:induction false} OrdersMoveNothing(ops: seq<Op>, time: int, price: real)
    ensures MarketAfter(ops, time, price) == MarketAfter(EngineOps(ops), time, price)
  {
    if ops != [] {
      OrdersMoveNothing(ops[1..], ClockAfter(ops[0], time), PriceAfter(ops[0], price));
      if ByEngine(ops[0]) {
        assert EngineOps(ops)[1..] == EngineOps(ops[1..]);
      } else {
        assert EngineOps(ops) == EngineOps(ops[1..]);
      }
    }
  }

  lemma {:induction false} MarketAfterLast(ops: seq<Op>, op: Op, time: int, price: real)
    ensures var (before, priceBefore) := MarketAfter(ops, time, price);
      MarketAfter(ops + [op], time, price) == (ClockAfter(op, before), PriceAfter(op, priceBefore))
  {
    if ops == [] {
      assert [op][1..] == [] && ops + [op] == [op];
    } else {
      assert (ops + [op])[1..] == ops[1..] + [op];
      MarketAfterLast(ops[1..], op, ClockAfter(ops[0], time), PriceAfter(ops[0], price));
    }
  }

  /** The operations of a log end with those of its last event. */
  lemma OpsOfLast(log: seq<Replay.Event>, k: nat)
    requires 0 < k <= |log|
    ensures ReplayLaws.Project(log[..k], OpsOf) == ReplayLaws.Project(log[..k - 1], OpsOf) + OpsOf(log[k - 1])
  {
    hide ReplayLaws.Project, OpsOf;
    assert log[..k] == log[..k - 1] + [log[k - 1]];
    ReplayLaws.ProjectConcat(log[..k - 1], [log[k - 1]], OpsOf);
    ReplayLaws.ProjectOne(log[k - 1], OpsOf);
  }

  /** The market the operations of a log up to an evaluation leave. */
  lemma LogMarket(store: seq<Candle>, settlements: seq<Settlement>, start: int, end: int, lookback: nat,
                  k: nat, j: nat)
    requires Ascending(store) && Replay.IndexFrom(store, start) <= j < |store|
    requires k < |Replay.Replayed(store, settlements, start, end, lookback)|
    requires Replay.Replayed(store, settlements, start, end, lookback)[k] == Replay.Iterate(Replay.Cursor(store, j))
    ensures var p, log := Replay.IndexFrom(store, start), Replay.Replayed(store, settlements, start, end, lookback);
      MarketAfter(ReplayLaws.Project(log[..k], OpsOf), store[p].time, store[p].open)
      == if j == p then (store[p].time, store[p].open) else (Replay.Cursor(store, j), store[j].close)
  {
    hide Ascending, Replay.Query, Replay.Rounds, Replay.IsIndexFrom, Replay.Replayed, ReplayLaws.Project;
    var p, log := Replay.IndexFrom(store, start), Replay.Replayed(store, settlements, start, end, lookback);
    Replay.ReplayedFrom(store, settlements, start, end, lookback);
    var rounds := Replay.Rounds(store, p, settlements, start + DAY - 1, end);
    ReplayLaws.FeedsThenEvaluates(store, p, settlements, start + DAY - 1, end, k - 2, j);
    OpsOfLast(log, k);
    if k == 2 {
      OpsOfLast(log, 1);
      NoOps();
      MarketAfterLast([], OpTime(store[p].time), store[p].time, store[p].open);
      assert [] + [OpTime(store[p].time)] == [OpTime(store[p].time)];
    } else {
      assert log[k - 1] == rounds[k - 3];
      MarketAfterLast(ReplayLaws.Project(log[..k - 1], OpsOf), OpCandle(store[j]), store[p].time, store[p].open);
    }
  }

  lemma NoOps()
    ensures ReplayLaws.Project([], OpsOf) == []
  {
  }

  /**
   Whatever orders the operator placed before, an evaluation at the end of a candle finds the executor at
   that end and at the close of the candle, except the first one of a backtest: it finds the executor at
   the start and the open of the candle it is shown, and an order it places is filled there.
   */
  lemma EvaluationMarket(cfg: Config, store: seq<Candle>, settlements: seq<Settlement>, start: int, end: int,
                         lookback: nat, balance: nat, minLeverage: real, ops: seq<Op>, k: nat, j: nat, order: Order)
    requires Ascending(store) && Replay.IndexFrom(store, start) <= j < |store|
    requires k < |Replay.Replayed(store, settlements, start, end, lookback)|
    requires Replay.Replayed(store, settlements, start, end, lookback)[k] == Replay.Iterate(Replay.Cursor(store, j))
    requires Interleaves(ops, Replay.Replayed(store, settlements, start, end, lookback)[..k])
    requires Run(cfg, InitialState(store[Replay.IndexFrom(store, start)], balance, minLeverage), ops, false).Ok?
    ensures var p := Replay.IndexFrom(store, start);
      var s := Run(cfg, InitialState(store[p], balance, minLeverage), ops, false).value;
      var time, price := if j == p then store[p].time else Replay.Cursor(store, j),
                         if j == p then store[p].open else store[j].close;
      && s.time == time && s.marketPrice == price
      && (OrderedEntry(cfg, s, order).Ok? ==>
            && RoundPrice(price).Ok?
            && OrderedEntry(cfg, s, order).value.trade.price == RoundPrice(price).value
            && OrderedEntry(cfg, s, order).value.trade.entryTime == time)
  {
    hide Run, Ascending, Replay.Query, Replay.Rounds, Replay.IsIndexFrom, Replay.Replayed, EngineOps, MarketAfter,
         ReplayLaws.Project, EvaluateStoploss, RoundPrice;
    var p := Replay.IndexFrom(store, start);
    RunMarket(cfg, InitialState(store[p], balance, minLeverage), ops, false);
    OrdersMoveNothing(ops, store[p].time, store[p].open);
    LogMarket(store, settlements, start, end, lookback, k, j);
  }

  /**
   The settlement of the start itself, which comes after the first evaluation, charges or pays a trade
   that was opened at that evaluation.
   */
  lemma LateSettlementCharges(cfg: Config, first: Candle, balance: nat, minLeverage: real, order: Order,
                              settlement: Settlement)
    requires Run(cfg, InitialState(first, balance, minLeverage), [OpOpen(order), OpFunding(settlement)], false).Ok?
    ensures OrderedEntry(cfg, InitialState(first, balance, minLeverage), order).Ok?
    ensures var s := Run(cfg, InitialState(first, balance, minLeverage), [OpOpen(order), OpFunding(settlement)],
             false).value;
      var trade := OrderedEntry(cfg, InitialState(first, balance, minLeverage), order).value.trade;
      s.fundingFees == Charge(trade.side, trade.quantity, settlement)
  {
    var s0 := InitialState(first, balance, minLeverage);
    var ops := [OpOpen(order), OpFunding(settlement)];
    assert ops[1..] == [OpFunding(settlement)] && ops[1..][1..] == [];
    var s1 := Step(cfg, s0, ops[0], false).value;
    FirstTradeRuns(cfg, s0, order);
    var r := Step(cfg, s1, OpFunding(settlement), false);
    assert Run(cfg, s1, ops[1..], false) == r;
    OneTradeFunded(cfg, s1, settlement);
  }

  lemma FirstTradeRuns(cfg: Config, s: State, order: Order)
    requires s.running == [] && CreateRunning(cfg, s, order).Ok?
    ensures OrderedEntry(cfg, s, order).Ok?
    ensures CreateRunning(cfg, s, order).value.running == [OrderedEntry(cfg, s, order).value]
    ensures CreateRunning(cfg, s, order).value.fundingFees == s.fundingFees
  {
    hide OrderedEntry, Trigger.Update;
  }

  lemma OneTradeFunded(cfg: Config, s: State, settlement: Settlement)
    requires |s.running| == 1 && ApplyFunding(cfg, s, settlement).Ok?
    ensures var trade := s.running[0].trade;
      ApplyFunding(cfg, s, settlement).value.fundingFees
      == s.fundingFees + Charge(trade.side, trade.quantity, settlement)
  {
    hide CrossPosition.ApplyFunding, FundingFee, Charge, RoundPrice, Trigger.Update, EstimatePl;
    ChargeIs(s.running[0].trade.side, s.running[0].trade.quantity, settlement);
    var pass := FundingPass(settlement, s.marketPrice);
    var next := VisitOne(cfg, pass, s.running[0], OpenBook(s));
    assert s.running[1..] == [];
    assert next.Ok? ==> VisitAll(cfg, pass, [], next.value) == next;
    assert VisitAll(cfg, pass, s.running, OpenBook(s)) == next;
  }
}
