/** The money laws of the executor, over every run of successful steps. */
module Ledgers {
  import opened Basics
  import opened Market
  import opened Pricing
  import opened CrossPosition
  import opened CrossLaws
  import opened Trades
  import opened ExecutorSpec

  // ----- The isolated account

  function Lock(entry: Entry): int {
    entry.trade.margin + entry.trade.MaintenanceMargin() + entry.trade.openingFee
  }

  function Locked(entries: seq<Entry>): int {
    if entries == [] then 0 else Lock(entries[0]) + Locked(entries[1..])
  }

  function HistoryPl(closed: seq<ClosedTrade>): int {
    if closed == [] then 0 else HistoryPl(closed[..|closed| - 1]) + closed[|closed| - 1].Pl()
  }

  function HistoryFees(closed: seq<ClosedTrade>): int {
    if closed == [] then 0 else HistoryFees(closed[..|closed| - 1]) + closed[|closed| - 1].Fees()
  }

  function BookWorth(book: Book): int {
    book.balance + Locked(book.running) + book.fundingFees - book.realizedPl + book.closedFees
  }

  /** Everything the isolated account holds or has paid for, net of what it has earned. */
  function Worth(s: State): int {
    s.balance + Locked(s.running) + s.fundingFees - s.realizedPl + s.closedFees
  }

  ghost predicate HistoryBooked(realizedPl: int, closedFees: int, closed: seq<ClosedTrade>) {
    realizedPl == HistoryPl(closed) && closedFees == HistoryFees(closed)
  }

  /** Satoshis an operation moves from the balance to the cross margin. */
  function Transfer(op: Op): int {
    match op
    case OpDeposit(amount) => amount
    case OpWithdraw(amount) => -(amount as int)
    case _ => 0
  }

  function Transfers(ops: seq<Op>): int {
    if ops == [] then 0 else Transfer(ops[0]) + Transfers(ops[1..])
  }

  /** `evaluate_added_margin` adds exactly the amount it is given. */
  ghost predicate AddsExactly(sdk: Sdk) {
    forall side, quantity, price, margin: nat, amount: nat ::
      var added := sdk.addedMargin(side, quantity, price, margin, amount);
      added.Some? ==> added.value.margin == margin + amount
  }

  function Ids(entries: seq<Entry>): set<int> {
    set e | e in entries :: e.trade.id
  }

  /** Every opened trade gets an id that was never used. */
  predicate OpensFresh(used: set<int>, ops: seq<Op>)
    decreases |ops|
  {
    ops == [] ||
    (if ops[0].OpOpen? then ops[0].order.id !in used && OpensFresh(used + {ops[0].order.id}, ops[1..])
     else OpensFresh(used, ops[1..]))
  }

  lemma LockedAppend(a: seq<Entry>, b: seq<Entry>)
    ensures Locked(a + b) == Locked(a) + Locked(b)
  {
    if a == [] {
      assert a + b == b;
    } else {
      assert (a + b)[1..] == a[1..] + b;
      LockedAppend(a[1..], b);
    }
  }

  lemma LockedUpdate(entries: seq<Entry>, i: nat, entry: Entry)
    requires i < |entries|
    ensures Locked(entries[i := entry]) == Locked(entries) - Lock(entries[i]) + Lock(entry)
  {
    if i > 0 {
      assert entries[i := entry][1..] == entries[1..][i - 1 := entry];
      LockedUpdate(entries[1..], i - 1, entry);
    } else {
      assert entries[i := entry][1..] == entries[1..];
    }
  }

  lemma IdsOfCons(entry: Entry, rest: seq<Entry>)
    ensures Ids([entry] + rest) == {entry.trade.id} + Ids(rest)
  {
    assert forall e :: e in [entry] + rest <==> e == entry || e in rest;
  }

  lemma LockedOfCons(entry: Entry, rest: seq<Entry>)
    ensures Locked([entry] + rest) == Lock(entry) + Locked(rest)
  {
    assert ([entry] + rest)[1..] == rest;
  }

  /** Where a new trade goes: in front, or behind the first one. */
  lemma InsertNew(entries: seq<Entry>, entry: Entry)
    requires entries != [] && entry.trade.id !in Ids(entries)
    ensures Insert(entries, entry)
         == if Newer(entries[0], entry) then [entries[0]] + Insert(entries[1..], entry) else [entry] + entries
  {
    assert entries[0].trade.id in Ids(entries);
  }

  lemma LockedInsert(entries: seq<Entry>, entry: Entry)
    requires entry.trade.id !in Ids(entries)
    ensures Locked(Insert(entries, entry)) == Locked(entries) + Lock(entry)
    ensures Ids(Insert(entries, entry)) == Ids(entries) + {entry.trade.id}
  {
    hide Insert, Ids, Locked, Lock, Newer;
    if entries == [] {
      LockedInsertEmpty(entry);
    } else {
      InsertNew(entries, entry);
      if Newer(entries[0], entry) {
        var head, rest := entries[0], entries[1..];
        assert entries == [head] + rest;
        IdsOfCons(head, rest);
        LockedOfCons(head, rest);
        LockedInsert(rest, entry);
        IdsOfCons(head, Insert(rest, entry));
        LockedOfCons(head, Insert(rest, entry));
      } else {
        IdsOfCons(entry, entries);
        LockedOfCons(entry, entries);
      }
    }
  }

  lemma LockedInsertEmpty(entry: Entry)
    ensures Locked(Insert([], entry)) == Locked([]) + Lock(entry)
    ensures Ids(Insert([], entry)) == Ids([]) + {entry.trade.id}
  {
    hide Lock;
    IdsOfCons(entry, []);
    LockedOfCons(entry, []);
  }

  /** A visit either closes the trade it was given, or charges its fee to the margin it keeps. */
  lemma VisitCharges(cfg: Config, pass: Pass, entry: Entry)
    requires VisitEntry(cfg, pass, entry).Ok?
    ensures var visit := VisitEntry(cfg, pass, entry).value;
      && (visit.Closes? ==> visit.closed.trade == entry.trade)
      && (visit.Keeps? ==> visit.entry.trade.id == entry.trade.id
                           && Lock(visit.entry) == Lock(entry) - Max(visit.fee, 0))
  {
  }

  lemma BookVisitKeepsWorth(cfg: Config, entry: Entry, book: Book, visit: Visit)
    requires BookVisit(cfg, book, visit).Ok?
    requires visit.Closes? ==> visit.closed.trade == entry.trade
    requires visit.Keeps? ==> visit.entry.trade.id == entry.trade.id && Lock(visit.entry) == Lock(entry) - Max(visit.fee, 0)
    requires HistoryBooked(book.realizedPl, book.closedFees, book.closed)
    ensures var next := BookVisit(cfg, book, visit).value;
      && BookWorth(next) == BookWorth(book) + Lock(entry)
      && HistoryBooked(next.realizedPl, next.closedFees, next.closed)
      && Ids(next.running) <= Ids(book.running) + {entry.trade.id}
  {
    var next := BookVisit(cfg, book, visit).value;
    if visit.Keeps? {
      LockedAppend(book.running, [visit.entry]);
    } else {
      assert next.closed[..|next.closed| - 1] == book.closed;
    }
  }

  /** A pass moves the worth of the visited trades into the book, whatever it does to them. */
  lemma VisitAllKeepsWorth(cfg: Config, pass: Pass, entries: seq<Entry>, book: Book)
    requires VisitAll(cfg, pass, entries, book).Ok?
    requires HistoryBooked(book.realizedPl, book.closedFees, book.closed)
    ensures var book' := VisitAll(cfg, pass, entries, book).value;
      && BookWorth(book') == BookWorth(book) + Locked(entries)
      && HistoryBooked(book'.realizedPl, book'.closedFees, book'.closed)
      && Ids(book'.running) <= Ids(book.running) + Ids(entries)
    decreases |entries|
  {
    if entries != [] {
      var visit := VisitEntry(cfg, pass, entries[0]).value;
      VisitCharges(cfg, pass, entries[0]);
      BookVisitKeepsWorth(cfg, entries[0], book, visit);
      VisitAllKeepsWorth(cfg, pass, entries[1..], BookVisit(cfg, book, visit).value);
      assert entries[0].trade.id in Ids(entries);
    }
  }

  ghost predicate StepConserves(s: State, s': State, op: Op) {
    && Worth(s') == Worth(s) - Transfer(op)
    && HistoryBooked(s'.realizedPl, s'.closedFees, s'.closed)
    && Ids(s'.running) <= Ids(s.running) + (if op.OpOpen? then {op.order.id} else {})
  }

  lemma CandleConserves(cfg: Config, s: State, candle: Candle, always: bool)
    requires CandleUpdate(cfg, s, candle, always).Ok?
    requires HistoryBooked(s.realizedPl, s.closedFees, s.closed)
    ensures StepConserves(s, CandleUpdate(cfg, s, candle, always).value, OpCandle(candle))
  {
    hide VisitAll, Locked, Ids, HistoryBooked, CrossPosition.LiquidationReached, CrossPosition.Liquidate,
         Trigger.WasReached;
    if VisitAll(cfg, CandlePass(candle), s.running, OpenBook(s)).Ok? {
      VisitAllKeepsWorth(cfg, CandlePass(candle), s.running, OpenBook(s));
      NothingLocked();
    }
  }

  lemma FundingConserves(cfg: Config, s: State, settlement: Settlement)
    requires ApplyFunding(cfg, s, settlement).Ok?
    requires HistoryBooked(s.realizedPl, s.closedFees, s.closed)
    ensures StepConserves(s, ApplyFunding(cfg, s, settlement).value, OpFunding(settlement))
  {
    hide VisitAll, Locked, Ids, HistoryBooked, CrossPosition.ApplyFunding, CrossPosition.SignedQuantity;
    var pass := FundingPass(settlement, s.marketPrice);
    if VisitAll(cfg, pass, s.running, OpenBook(s)).Ok? {
      VisitAllKeepsWorth(cfg, pass, s.running, OpenBook(s));
      NothingLocked();
    }
  }

  lemma CloseConserves(cfg: Config, s: State, selection: Selection)
    requires CloseRunning(cfg, s, selection).Ok?
    requires HistoryBooked(s.realizedPl, s.closedFees, s.closed)
    ensures StepConserves(s, CloseRunning(cfg, s, selection).value, OpClose(selection))
  {
    hide VisitAll, Locked, Ids, HistoryBooked, RoundPrice;
    VisitAllKeepsWorth(cfg, ClosePass(selection, RoundPrice(s.marketPrice).value), s.running, OpenBook(s));
    NothingLocked();
  }

  lemma NothingLocked()
    ensures Locked([]) == 0 && Ids([]) == {}
  {
  }

  lemma OpenConserves(cfg: Config, s: State, order: Order)
    requires CreateRunning(cfg, s, order).Ok? && order.id !in Ids(s.running)
    requires HistoryBooked(s.realizedPl, s.closedFees, s.closed)
    ensures StepConserves(s, CreateRunning(cfg, s, order).value, OpOpen(order))
  {
    LockedInsert(s.running, OrderedEntry(cfg, s, order).value);
  }

  /**
   The balance check leaves out the opening fee: opening ends in debt exactly when the balance covers
   the margin and the maintenance margin but not that fee as well, and by no more than the fee.
   */
  lemma OpeningOverdrawsIff(cfg: Config, s: State, order: Order)
    requires CreateRunning(cfg, s, order).Ok?
    ensures var s' := CreateRunning(cfg, s, order).value;
      var trade := OrderedEntry(cfg, s, order).value.trade;
      && (s'.balance < 0 <==> s.balance < trade.margin + trade.MaintenanceMargin() + trade.openingFee)
      && s'.balance + trade.openingFee >= 0
  {
    hide OrderedEntry, Insert, Trigger.Update;
  }

  /** From a start balance of 1 015 satoshis, a trade with margin 1 000 and fees 10 and 5 leaves a debt of 10. */
  lemma OpeningOverdraws(cfg: Config, start: Candle, minLeverage: real, order: Order, liquidation: Price)
    requires cfg.maxRunning >= 1 && start.open == 100_000.0 && order.stoploss.None?
    requires cfg.sdk.openParams(order.side, order.size, order.leverage, 200_000, None, order.takeprofit, cfg.feePerc)
          == Some(OpenParams(1, 1_000, liquidation, 10, 5))
    ensures var r := Run(cfg, InitialState(start, 1_015, minLeverage), [OpOpen(order)], false);
      r.Ok? && r.value.balance == -10
  {
    hide Insert;
    var s := InitialState(start, 1_015, minLeverage);
    assert RoundPrice(100_000.0) == Ok(200_000);
    assert CreateRunning(cfg, s, order).Ok?;
    assert [OpOpen(order)][1..] == [];
  }

  lemma AddMarginConserves(cfg: Config, s: State, id: int, amount: nat)
    requires AddsExactly(cfg.sdk)
    requires AddMargin(cfg, s, id, amount).Ok?
    requires HistoryBooked(s.realizedPl, s.closedFees, s.closed)
    ensures StepConserves(s, AddMargin(cfg, s, id, amount).value, OpAddMargin(id, amount))
  {
    var i := IndexOf(s.running, id);
    var updated := s.running[i].(trade := s.running[i].trade.WithAddedMargin(cfg, amount).value);
    LockedUpdate(s.running, i, updated);
  }

  /** One step conserves the isolated account, up to transfers to the cross margin. */
  lemma StepKeepsWorth(cfg: Config, s: State, op: Op, always: bool)
    requires AddsExactly(cfg.sdk)
    requires Step(cfg, s, op, always).Ok?
    requires op.OpOpen? ==> op.order.id !in Ids(s.running)
    requires HistoryBooked(s.realizedPl, s.closedFees, s.closed)
    ensures StepConserves(s, Step(cfg, s, op, always).value, op)
  {
    hide StepConserves, CandleUpdate, ApplyFunding, CloseRunning, CreateRunning, AddMargin;
    match op
    case OpCandle(candle) => CandleConserves(cfg, s, candle, always);
    case OpFunding(settlement) => FundingConserves(cfg, s, settlement);
    case OpClose(selection) => CloseConserves(cfg, s, selection);
    case OpOpen(order) => OpenConserves(cfg, s, order);
    case OpAddMargin(id, amount) => AddMarginConserves(cfg, s, id, amount);
    case _ => TransferConserves(cfg, s, op, always);
  }

  lemma TransferConserves(cfg: Config, s: State, op: Op, always: bool)
    requires Step(cfg, s, op, always).Ok?
    requires op.OpTime? || op.OpDeposit? || op.OpWithdraw? || op.OpLeverage? || op.OpCrossOrder? || op.OpCrossClose?
    requires HistoryBooked(s.realizedPl, s.closedFees, s.closed)
    ensures StepConserves(s, Step(cfg, s, op, always).value, op)
  {
    hide CrossPosition.Close, CrossPosition.WithMarketOrder, CrossPosition.WithMargin, CrossPosition.WithLeverage,
         CrossPosition.IsCoherent, CrossPosition.EstFreeMargin, RoundPrice, BoundedPrice;
  }

  lemma RunKeepsWorth(cfg: Config, s: State, ops: seq<Op>, always: bool, used: set<int>)
    requires AddsExactly(cfg.sdk)
    requires Run(cfg, s, ops, always).Ok?
    requires Ids(s.running) <= used && OpensFresh(used, ops)
    requires HistoryBooked(s.realizedPl, s.closedFees, s.closed)
    ensures var s' := Run(cfg, s, ops, always).value;
      && Worth(s') == Worth(s) - Transfers(ops)
      && HistoryBooked(s'.realizedPl, s'.closedFees, s'.closed)
    decreases |ops|
  {
    if ops != [] {
      StepKeepsWorth(cfg, s, ops[0], always);
      var used' := if ops[0].OpOpen? then used + {ops[0].order.id} else used;
      RunKeepsWorth(cfg, Step(cfg, s, ops[0], always).value, ops[1..], always, used');
    }
  }

  /** The isolated ledger of a whole run from the start balance. */
  lemma {:induction false} IsolatedLedger(cfg: Config, start: Candle, balance: nat, minLeverage: real, ops: seq<Op>)
    requires AddsExactly(cfg.sdk)
    requires OpensFresh({}, ops)
    requires Run(cfg, InitialState(start, balance, minLeverage), ops, false).Ok?
    ensures var s := Run(cfg, InitialState(start, balance, minLeverage), ops, false).value;
      && s.balance + Locked(s.running) + s.fundingFees + Transfers(ops) == balance + s.realizedPl - s.closedFees
      && s.realizedPl == HistoryPl(s.closed)
      && s.closedFees == HistoryFees(s.closed)
  {
    RunKeepsWorth(cfg, InitialState(start, balance, minLeverage), ops, false, {});
  }

  // ----- The cross account

  /** Whether the step takes the cross margin below zero and clamps it. */
  predicate ClampsMargin(cfg: Config, s: State, op: Op) {
    match op
    case OpCrossOrder(side, quantity) =>
      RoundPrice(s.marketPrice).Ok? &&
      Saturates(cfg.sdk, s.cross, RoundPrice(s.marketPrice).value, side, quantity, cfg.feePerc)
    case OpCrossClose =>
      s.cross.exposure.Running? && RoundPrice(s.marketPrice).Ok? &&
      CloseShortfall(cfg, s.cross, RoundPrice(s.marketPrice).value) > 0
    case OpCandle(candle) =>
      s.cross.LiquidationReached(candle) && CloseShortfall(cfg, s.cross, s.cross.exposure.liquidation) > 0
    case OpFunding(settlement) =>
      var funded := s.cross.ApplyFunding(cfg.sdk, s.marketPrice, settlement, cfg.feePerc);
      var market := BoundedPrice(s.marketPrice);
      funded.forcedFlat && s.cross.exposure.Running? &&
      (CloseShortfall(cfg, s.cross, market) > 0
       || s.cross.Close(cfg.sdk, market, cfg.feePerc).margin < funded.fee)
    case _ => false
  }

  /** How much closing at `price` would take the margin below zero. */
  function CloseShortfall(cfg: Config, p: CrossPosition, price: Price): nat
    requires p.exposure.Running?
  {
    var e := p.exposure;
    Max(0, cfg.sdk.orderFee(cfg.feePerc, e.quantity, price)
           - EstimatePl(e.side, e.quantity, e.entry, price).Floor - p.margin)
  }

  lemma StepKeepsCrossLedger(cfg: Config, s: State, op: Op, always: bool)
    requires Step(cfg, s, op, always).Ok?
    ensures var s' := Step(cfg, s, op, always).value;
      var forgiven := LedgerGap(s'.cross) - LedgerGap(s.cross) - Transfer(op);
      && forgiven >= 0
      && (forgiven > 0 <==> ClampsMargin(cfg, s, op))
  {
    hide CrossPosition.WithMarketOrder, CrossPosition.IsCoherent, CrossPosition.EstFreeMargin, CrossPosition.Close,
         CrossPosition.ApplyFunding, VisitAll, CreateRunning, AddMargin, RoundPrice, BoundedPrice, EstimatePl,
         Saturates, CandleUpdate, ApplyFunding, Deposit, Withdraw, SetLeverage;
    var sdk, feePerc, p := cfg.sdk, cfg.feePerc, s.cross;
    match op
    case OpCrossOrder(side, quantity) =>
      OrderBooks(sdk, p, RoundPrice(s.marketPrice).value, side, quantity, feePerc);
    case OpCrossClose =>
      if p.exposure.Running? {
        CloseKeepsLedger(sdk, p, RoundPrice(s.marketPrice).value, feePerc);
      }
    case OpCandle(candle) =>
      CandleCross(cfg, s, candle, always);
      if p.LiquidationReached(candle) {
        CloseKeepsLedger(sdk, p, p.exposure.liquidation, feePerc);
      }
    case OpFunding(settlement) =>
      FundingCross(cfg, s, settlement);
      FundingForgives(cfg, s, settlement);
    case OpOpen(order) => OpenKeepsCross(cfg, s, order);
    case OpAddMargin(id, amount) => AddMarginKeepsCross(cfg, s, id, amount);
    case OpDeposit(amount) => TransfersOnly(cfg, s, op, always);
    case OpWithdraw(amount) => TransfersOnly(cfg, s, op, always);
    case OpLeverage(leverage) => TransfersOnly(cfg, s, op, always);
    case _ =>
  }

  lemma TransfersOnly(cfg: Config, s: State, op: Op, always: bool)
    requires Step(cfg, s, op, always).Ok?
    requires op.OpDeposit? || op.OpWithdraw? || op.OpLeverage?
    ensures LedgerGap(Step(cfg, s, op, always).value.cross) == LedgerGap(s.cross) + Transfer(op)
  {
    hide CrossPosition.IsCoherent, CrossPosition.RunningPl, NewExposure, BoundedPrice;
  }

  lemma CandleCross(cfg: Config, s: State, candle: Candle, always: bool)
    requires CandleUpdate(cfg, s, candle, always).Ok?
    ensures CandleUpdate(cfg, s, candle, always).value.cross
         == if s.cross.LiquidationReached(candle) then s.cross.Liquidate(cfg.sdk, cfg.feePerc) else s.cross
  {
    hide VisitAll, CrossPosition.Liquidate, CrossPosition.LiquidationReached, Trigger.WasReached;
  }

  lemma FundingCross(cfg: Config, s: State, settlement: Settlement)
    requires ApplyFunding(cfg, s, settlement).Ok?
    ensures ApplyFunding(cfg, s, settlement).value.cross
         == s.cross.ApplyFunding(cfg.sdk, s.marketPrice, settlement, cfg.feePerc).position
  {
    hide VisitAll, CrossPosition.ForceClose, CrossPosition.EstFreeMargin, FundingFee, BoundedPrice, Make;
  }

  lemma FundingForgives(cfg: Config, s: State, settlement: Settlement)
    ensures var f := s.cross.ApplyFunding(cfg.sdk, s.marketPrice, settlement, cfg.feePerc);
      && LedgerGap(f.position) >= LedgerGap(s.cross)
      && (LedgerGap(f.position) > LedgerGap(s.cross) <==> ClampsMargin(cfg, s, OpFunding(settlement)))
  {
    hide CrossPosition.Close, CrossPosition.IsCoherent, CrossPosition.EstFreeMargin, EstimatePl, BoundedPrice,
         FundingFee;
    if s.cross.exposure.Running? {
      CloseKeepsLedger(cfg.sdk, s.cross, BoundedPrice(s.marketPrice), cfg.feePerc);
    }
  }

  /** Every step leaves a cross position whose exposure is the one its margin and leverage give. */
  lemma StepKeepsWellFormed(cfg: Config, s: State, op: Op, always: bool)
    requires WellFormed(cfg.sdk, s.cross)
    requires Step(cfg, s, op, always).Ok?
    ensures WellFormed(cfg.sdk, Step(cfg, s, op, always).value.cross)
  {
    hide WellFormed, CrossPosition.WithMarketOrder, Make, CrossPosition.IsCoherent, CrossPosition.EstFreeMargin,
         CrossPosition.Close, CrossPosition.ApplyFunding, VisitAll, CreateRunning, AddMargin, RoundPrice, BoundedPrice;
    var sdk, p := cfg.sdk, s.cross;
    match op
    case OpCandle(candle) =>
      CandleCross(cfg, s, candle, always);
      if p.LiquidationReached(candle) {
        ClosedIsWellFormed(sdk, p, p.exposure.liquidation, cfg.feePerc);
      }
    case OpFunding(settlement) =>
      FundingCross(cfg, s, settlement);
      FundedIsWellFormed(sdk, p, s.marketPrice, settlement, cfg.feePerc);
    case OpCrossOrder(side, quantity) =>
      OrderIsWellFormed(sdk, p, RoundPrice(s.marketPrice).value, side, quantity, cfg.feePerc);
    case OpCrossClose =>
      if p.exposure.Running? {
        ClosedIsWellFormed(sdk, p, RoundPrice(s.marketPrice).value, cfg.feePerc);
      }
    case OpDeposit(amount) =>
      MadeIsWellFormed(sdk, p.margin + amount, p.leverage, p.exposure.AsParams(), p.tradingFees,
                       p.sessionFundingFees, p.realizedPl);
    case OpWithdraw(amount) =>
      MadeIsWellFormed(sdk, Max(0, p.margin - amount), p.leverage, p.exposure.AsParams(), p.tradingFees,
                       p.sessionFundingFees, p.realizedPl);
    case OpLeverage(leverage) =>
      MadeIsWellFormed(sdk, p.margin, leverage, p.exposure.AsParams(), p.tradingFees, p.sessionFundingFees,
                       p.realizedPl);
    case OpOpen(order) => OpenKeepsCross(cfg, s, order);
    case OpAddMargin(id, amount) => AddMarginKeepsCross(cfg, s, id, amount);
    case _ =>
  }

  lemma ClosedIsWellFormed(sdk: Sdk, p: CrossPosition, price: Price, feePerc: PercentageCapped)
    requires p.exposure.Running?
    ensures WellFormed(sdk, p.Close(sdk, price, feePerc))
  {
    hide EstimatePl;
  }

  lemma FundedIsWellFormed(sdk: Sdk, p: CrossPosition, market: real, settlement: Settlement,
                           feePerc: PercentageCapped)
    requires WellFormed(sdk, p)
    ensures WellFormed(sdk, p.ApplyFunding(sdk, market, settlement, feePerc).position)
  {
    hide EstimatePl, MarginFloor, CrossPosition.EstFreeMargin, CrossPosition.IsCoherent, FundingFee, BoundedPrice;
  }

  lemma OpenKeepsCross(cfg: Config, s: State, order: Order)
    requires CreateRunning(cfg, s, order).Ok?
    ensures CreateRunning(cfg, s, order).value.cross == s.cross
  {
    hide OrderedEntry, Insert;
  }

  lemma AddMarginKeepsCross(cfg: Config, s: State, id: int, amount: nat)
    requires AddMargin(cfg, s, id, amount).Ok?
    ensures AddMargin(cfg, s, id, amount).value.cross == s.cross
  {
    hide IndexOf;
  }

  /** Every step of a run at which the cross margin is clamped. */
  predicate EverClamps(cfg: Config, s: State, ops: seq<Op>, always: bool)
    decreases |ops|
  {
    ops != [] && (ClampsMargin(cfg, s, ops[0]) ||
                  (Step(cfg, s, ops[0], always).Ok? &&
                   EverClamps(cfg, Step(cfg, s, ops[0], always).value, ops[1..], always)))
  }

  lemma RunKeepsCrossLedger(cfg: Config, s: State, ops: seq<Op>, always: bool)
    requires Run(cfg, s, ops, always).Ok?
    ensures var forgiven := LedgerGap(Run(cfg, s, ops, always).value.cross) - LedgerGap(s.cross) - Transfers(ops);
      && forgiven >= 0
      && (forgiven > 0 <==> EverClamps(cfg, s, ops, always))
    decreases |ops|
  {
    if ops != [] {
      StepKeepsCrossLedger(cfg, s, ops[0], always);
      RunKeepsCrossLedger(cfg, Step(cfg, s, ops[0], always).value, ops[1..], always);
    }
  }

  /**
   The cross ledger of a whole run: what the margin holds beyond transfers, realized P/L, fees and
   funding is never negative, and is zero exactly when no step of the run clamped the margin.
   */
  lemma {:induction false} CrossLedger(cfg: Config, start: Candle, balance: nat, minLeverage: real, ops: seq<Op>)
    requires Run(cfg, InitialState(start, balance, minLeverage), ops, false).Ok?
    ensures var initial := InitialState(start, balance, minLeverage);
      var cross := Run(cfg, initial, ops, false).value.cross;
      var forgiven := cross.margin
                      - (Transfers(ops) + cross.realizedPl - cross.tradingFees - cross.sessionFundingFees);
      && forgiven >= 0
      && (forgiven == 0 <==> !EverClamps(cfg, initial, ops, false))
  {
    RunKeepsCrossLedger(cfg, InitialState(start, balance, minLeverage), ops, false);
  }
}
