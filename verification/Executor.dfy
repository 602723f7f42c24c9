/** The simulated executor: an object whose methods update its fields, proved against `ExecutorSpec`. */
module Executor {
  import opened Basics
  import opened Market
  import opened Pricing
  import opened CrossPosition
  import opened Trades
  import Spec = ExecutorSpec

  class SimulatedTradeExecutor {
    const cfg: Config
    var time: int
    var marketPrice: real
    var balance: int
    var lastTradeTime: Option<int>
    var trigger: Trigger
    var running: seq<Entry>
    var fundingFees: int
    var realizedPl: int
    var closedHistory: seq<ClosedTrade>
    var closedFees: nat
    var cross: CrossPosition

    ghost predicate Valid()
      reads this
    {
      Spec.Sorted(running)
    }

    ghost function State(): Spec.State
      reads this
    {
      Spec.State(time, marketPrice, balance, lastTradeTime, trigger, running,
                 fundingFees, realizedPl, closedHistory, closedFees, cross)
    }

    constructor (cfg: Config, start: Candle, startBalance: nat)
      ensures Valid() && this.cfg == cfg
      ensures State() == Spec.InitialState(start, startBalance, cfg.sdk.minLeverage)
    {
      this.cfg := cfg;
      time, marketPrice, balance, lastTradeTime := start.time, start.open, startBalance, None;
      trigger, running := NotSet, [];
      fundingFees, realizedPl, closedHistory, closedFees := 0, 0, [], 0;
      cross := InitialCross(cfg.sdk.minLeverage);
    }

    method UpdateTime(newTime: int) returns (r: Result<()>)
      requires Valid()
      modifies this`time
      ensures var spec := Spec.UpdateTime(old(State()), newTime);
        if spec.Ok? then r.Ok? && State() == spec.value else r == Err(spec.error) && unchanged(this)
    {
      if newTime < time {
        return Err(TimeSequenceViolation);
      }
      time := newTime;
      r := Ok(());
    }

    /** An error leaves everything as it was, but for trailing stops that were already moved closer. */
    method CandleUpdate(candle: Candle) returns (r: Result<()>)
      requires Valid()
      modifies this
      ensures Valid()
      ensures var spec := Spec.CandleUpdate(cfg, old(State()), candle, false);
        if spec.Ok? then r.Ok? && State() == spec.value
        else r == Err(spec.error) && State() == old(State()).(running := running)
             && AllOnlyTightened(old(running), running)
      ensures candle.time + 59 < old(time) ==> unchanged(this)
    {
      hide Spec.VisitAll, Spec.Sorted, Trigger.WasReached, CrossPosition.LiquidationReached, CrossPosition.Liquidate,
           AllOnlyTightened, Spec.OpenBook;
      OnlyTightenedSelf(running);
      var newTime := candle.time + 59;
      if newTime < time {
        return Err(TimeSequenceViolation);
      }
      var newLastTradeTime := lastTradeTime;
      var newCross := cross;
      if cross.LiquidationReached(candle) {
        newCross := cross.Liquidate(cfg.sdk, cfg.feePerc);
        newLastTradeTime := Some(newTime);
      }

      if !trigger.WasReached(candle.low) && !trigger.WasReached(candle.high) {
        time, marketPrice, lastTradeTime, cross := newTime, candle.close, newLastTradeTime, newCross;
        return Ok(());
      }

      var book :- RepriceRunning(candle);
      if |book.closed| > |closedHistory| {
        newLastTradeTime := Some(newTime);
      }
      WriteBack(book);
      time, marketPrice, lastTradeTime, cross := newTime, candle.close, newLastTradeTime, newCross;
      r := Ok(());
    }

    /** The candle loop: visits every running trade, raising trailing stops in place. */
    method RepriceRunning(candle: Candle) returns (r: Result<Spec.Book>)
      requires Valid()
      modifies this`running
      ensures Valid()
      ensures r == Spec.VisitAll(cfg, Spec.CandlePass(candle), old(running), Spec.OpenBook(old(State())))
      ensures r.Ok? ==> Spec.Sorted(r.value.running)
      ensures AllOnlyTightened(old(running), running)
    {
      OnlyTightenedSelf(running);
      hide Spec.VisitOne, Spec.Sorted, AllOnlyTightened, OnlyTightened;
      ghost var entries, pass := running, Spec.CandlePass(candle);
      var book := Spec.Book(balance, realizedPl, closedFees, fundingFees, NotSet, [], closedHistory);
      var i := 0;
      assert book.running + entries[i..] == entries;
      while i < |running|
        invariant 0 <= i <= |entries| == |running|
        invariant running[i..] == entries[i..]
        invariant AllOnlyTightened(entries, running)
        invariant Spec.Sorted(book.running + entries[i..])
        invariant Spec.VisitAll(cfg, pass, entries, Spec.OpenBook(old(State())))
               == Spec.VisitAll(cfg, pass, entries[i..], book)
      {
        assert running[i] == running[i..][0] == entries[i..][0];
        SortedPrefix(book.running, entries, i);
        var next, repriced := RepriceTrade(candle, running[i], book);
        ghost var before := running;
        running := running[i := repriced];
        OnlyTightenedNext(entries, before, i, repriced);
        if next.Err? {
          OnlyTightenedSorted(entries, running);
          return next;
        }
        Advance(cfg, pass, entries, i, book, next.value);
        book, i := next.value, i + 1;
      }
      assert book.running + entries[i..] == book.running;
      OnlyTightenedSorted(entries, running);
      r := Ok(book);
    }

    /** One iteration of the candle loop: the lower of stop and target, the higher, then the trailing stop. */
    method RepriceTrade(candle: Candle, entry: Entry, book: Spec.Book)
      returns (next: Result<Spec.Book>, repriced: Entry)
      requires Spec.Sorted(book.running + [entry])
      ensures next == Spec.VisitOne(cfg, Spec.CandlePass(candle), entry, book)
      ensures OnlyTightened(entry, repriced)
    {
      hide Trail, AtLeastAsTight;
      repriced := entry;
      var trade := entry.trade;
      var tradeMin, tradeMax := trade.takeprofit, trade.takeprofit;
      if trade.side == Buy {
        tradeMin := Some(trade.StopPrice());
      } else {
        tradeMax := Some(trade.StopPrice());
      }
      if tradeMin.Some? && candle.low <= Dollars(tradeMin.value) {
        next := CloseTrade(book, trade.ToClosed(cfg, tradeMin.value), 0);
        return;
      }
      if tradeMax.Some? && candle.high >= Dollars(tradeMax.value) {
        next := CloseTrade(book, trade.ToClosed(cfg, tradeMax.value), 0);
        return;
      }
      if entry.tsl.Some? {
        var trailed := Trail(cfg, candle, trade, entry.tsl.value);
        if trailed.Err? {
          next := Err(trailed.error);
          return;
        }
        TrailOnlyTightens(cfg, candle, entry);
        repriced := entry.(trade := trailed.value);
      }
      next := KeepTrade(book, entry, repriced, 0);
    }

    method ApplyFundingSettlement(settlement: Settlement) returns (r: Result<()>)
      requires Valid()
      modifies this
      ensures Valid()
      ensures var spec := Spec.ApplyFunding(cfg, old(State()), settlement);
        if spec.Ok? then r.Ok? && State() == spec.value else r == Err(spec.error) && unchanged(this)
    {
      hide Spec.VisitOne, Spec.Sorted, CrossPosition.ApplyFunding;
      if running == [] && cross.SignedQuantity() == 0 {
        return Ok(());
      }
      ghost var s, pass := State(), Spec.FundingPass(settlement, marketPrice);
      var book := Spec.Book(balance, realizedPl, closedFees, fundingFees, NotSet, [], closedHistory);
      var i := 0;
      assert book.running + running[i..] == running;
      while i < |running|
        invariant 0 <= i <= |running|
        invariant unchanged(this)
        invariant Spec.Sorted(book.running + running[i..])
        invariant Spec.VisitAll(cfg, pass, running, Spec.OpenBook(s)) == Spec.VisitAll(cfg, pass, running[i..], book)
      {
        assert running[i] == running[i..][0];
        SortedPrefix(book.running, running, i);
        var next := SettleTrade(settlement, running[i], book);
        if next.Err? {
          return Err(next.error);
        }
        Advance(cfg, pass, running, i, book, next.value);
        book, i := next.value, i + 1;
      }

      var funded := cross.ApplyFunding(cfg.sdk, marketPrice, settlement, cfg.feePerc);
      assert book.running + running[i..] == book.running;
      if funded.forcedFlat || |book.closed| > |closedHistory| {
        lastTradeTime := Some(settlement.time);
      }
      WriteBack(book);
      cross := funded.position;
      r := Ok(());
    }

    /** One iteration of the settlement loop. */
    method SettleTrade(settlement: Settlement, entry: Entry, book: Spec.Book) returns (next: Result<Spec.Book>)
      requires Spec.Sorted(book.running + [entry])
      ensures next == Spec.VisitOne(cfg, Spec.FundingPass(settlement, marketPrice), entry, book)
    {
      var (updated, fee) := entry.trade.ApplyFunding(cfg, settlement);
      if updated.Some? {
        next := KeepTrade(book, entry, entry.(trade := updated.value), fee);
      } else {
        var price := RoundPrice(marketPrice);
        if price.Err? {
          next := Err(price.error);
        } else {
          next := CloseTrade(book, entry.trade.ToClosed(cfg, price.value), fee);
        }
      }
    }

    /** Closes the selected trades at the market and returns their ids, newest first. */
    method CloseRunning(selection: Spec.Selection) returns (r: Result<seq<int>>)
      requires Valid()
      modifies this
      ensures Valid()
      ensures var spec := Spec.CloseRunning(cfg, old(State()), selection);
        if spec.Ok? then r.Ok? && State() == spec.value else r == Err(spec.error) && unchanged(this)
      ensures r.Ok? ==> ClosedSince(old(closedHistory), closedHistory, r.value)
    {
      ClosedNothing(closedHistory);
      hide Spec.Sorted, Spec.VisitOne, Spec.BookVisit, Spec.Selected, ClosedSince;
      var market := RoundPrice(marketPrice);
      if market.Err? {
        return Err(market.error);
      }
      ghost var s, pass := State(), Spec.ClosePass(selection, market.value);
      var book := Spec.Book(balance, realizedPl, closedFees, fundingFees, NotSet, [], closedHistory);
      var closedIds: seq<int> := [];
      var i := 0;
      assert book.running + running[i..] == running;
      while i < |running|
        invariant 0 <= i <= |running|
        invariant unchanged(this)
        invariant Spec.Sorted(book.running + running[i..])
        invariant ClosedSince(closedHistory, book.closed, closedIds)
        invariant Spec.VisitAll(cfg, pass, running, Spec.OpenBook(s)) == Spec.VisitAll(cfg, pass, running[i..], book)
      {
        var entry := running[i];
        assert entry == running[i..][0];
        SortedPrefix(book.running, running, i);
        ManualVisit(cfg, selection, market.value, entry, book);
        var next: Result<Spec.Book>;
        if Spec.Selected(selection, entry.trade) {
          ClosedNext(closedHistory, book.closed, closedIds, entry.trade.ToClosed(cfg, market.value));
          closedIds := closedIds + [entry.trade.id];
          next := CloseTrade(book, entry.trade.ToClosed(cfg, market.value), 0);
        } else {
          next := KeepTrade(book, entry, entry, 0);
        }
        if next.Err? {
          return Err(next.error);
        }
        Advance(cfg, pass, running, i, book, next.value);
        book, i := next.value, i + 1;
      }

      assert book.running + running[i..] == book.running;
      WriteBack(book);
      lastTradeTime := Some(time);
      r := Ok(closedIds);
    }

    /** Adds a closed trade, and the funding fee charged with it, to the running totals. */
    method CloseTrade(book: Spec.Book, closed: ClosedTrade, fee: int) returns (next: Result<Spec.Book>)
      ensures next == Spec.BookVisit(cfg, book, Spec.Closes(closed, fee))
    {
      next := Ok(book.(
        balance := book.balance + closed.trade.margin + closed.trade.MaintenanceMargin()
                   - closed.closingFee + closed.Pl() - fee,
        realizedPl := book.realizedPl + closed.Pl(),
        closedFees := book.closedFees + closed.trade.openingFee + closed.closingFee,
        fundingFees := book.fundingFees + fee,
        closed := book.closed + [closed]));
    }

    /** Updates the new trigger with a kept trade and adds the trade to the new map. */
    method KeepTrade(book: Spec.Book, entry: Entry, kept: Entry, fee: int) returns (next: Result<Spec.Book>)
      requires Spec.Sorted(book.running + [entry]) && Spec.SameKey(entry, kept)
      ensures next == Spec.BookVisit(cfg, book, Spec.Keeps(kept, fee))
    {
      var updated := book.trigger.Update(cfg, kept);
      if updated.Err? {
        return Err(updated.error);
      }
      InsertOlder(book.running, entry, kept);
      next := Ok(book.(
        balance := if fee < 0 then book.balance - fee else book.balance,
        fundingFees := book.fundingFees + fee,
        trigger := updated.value,
        running := Spec.Insert(book.running, kept)));
    }

    method WriteBack(book: Spec.Book)
      modifies this`balance, this`realizedPl, this`closedFees, this`fundingFees,
               this`trigger, this`running, this`closedHistory
      ensures State() == Spec.WriteBack(old(State()), book)
    {
      balance, realizedPl, closedFees, fundingFees := book.balance, book.realizedPl, book.closedFees, book.fundingFees;
      trigger, running, closedHistory := book.trigger, book.running, book.closed;
    }

    /** Every error changes nothing, except the trigger's: by then the balance has been debited. */
    method CreateRunning(order: Spec.Order) returns (r: Result<int>)
      requires Valid()
      modifies this
      ensures Valid()
      ensures var spec := Spec.CreateRunning(cfg, old(State()), order);
        if spec.Ok? then r == Ok(order.id) && State() == spec.value
        else r == Err(spec.error)
             && State() == if !Spec.PassesChecks(cfg, old(State()), order) then old(State()) else
                             var trade := Spec.OrderedEntry(cfg, old(State()), order).value.trade;
                             old(State()).(
                               balance := old(balance) - (trade.margin + trade.MaintenanceMargin() + trade.openingFee),
                               lastTradeTime := Some(old(time)))
    {
      hide Trigger.Update, EvaluateStoploss, RoundPrice, Spec.Insert, Spec.Sorted, NewTrade;
      OpensNow(cfg, State(), order);
      var market := RoundPrice(marketPrice);
      if market.Err? {
        return Err(market.error);
      }
      var stop := EvaluateStoploss(cfg, order.stoploss, order.side, market.value);
      if stop.Err? {
        return Err(stop.error);
      }
      var newTrade := NewTrade(cfg, order.id, order.side, order.size, order.leverage, time, market.value,
                             stop.value.0, order.takeprofit);
      if newTrade.Err? {
        return Err(newTrade.error);
      }
      var trade := newTrade.value;
      var entry := Entry(trade, stop.value.1);
      assert Spec.OrderedEntry(cfg, State(), order) == Ok(entry);
      if trade.margin + trade.MaintenanceMargin() > balance {
        return Err(BalanceTooLow);
      }
      if |running| >= cfg.maxRunning {
        return Err(MaxRunningTradesReached);
      }
      balance := balance - (trade.margin + trade.MaintenanceMargin() + trade.openingFee);
      lastTradeTime := Some(trade.entryTime);
      var updated := trigger.Update(cfg, entry);
      if updated.Err? {
        return Err(updated.error);
      }
      trigger := updated.value;
      Spec.InsertSorted(running, entry);
      running := Spec.Insert(running, entry);
      r := Ok(trade.id);
    }

    method AddMargin(id: int, amount: nat) returns (r: Result<()>)
      requires Valid()
      modifies this`running, this`balance
      ensures Valid()
      ensures var spec := Spec.AddMargin(cfg, old(State()), id, amount);
        if spec.Ok? then r.Ok? && State() == spec.value else r == Err(spec.error) && unchanged(this)
    {
      if balance < amount {
        return Err(BalanceTooLow);
      }
      var i := Spec.IndexOf(running, id);
      if i == |running| {
        return Err(TradeNotRunning);
      }
      var updated := running[i].trade.WithAddedMargin(cfg, amount);
      if updated.Err? {
        return Err(updated.error);
      }
      running := running[i := running[i].(trade := updated.value)];
      balance := balance - amount;
      r := Ok(());
    }

    method CrossDeposit(amount: nat) returns (r: Result<CrossPosition>)
      requires Valid()
      modifies this`balance, this`cross
      ensures Valid()
      ensures var spec := Spec.Deposit(cfg, old(State()), amount);
        if spec.Ok? then r == Ok(cross) && State() == spec.value else r == Err(spec.error) && unchanged(this)
    {
      if balance < amount {
        return Err(BalanceTooLow);
      }
      var updated := cross.WithMargin(cfg.sdk, cross.margin + amount);
      if updated.Err? {
        return updated;
      }
      if !updated.value.IsCoherent(BoundedPrice(marketPrice)) {
        return Err(CrossPositionIncoherent);
      }
      balance, cross := balance - amount, updated.value;
      r := Ok(cross);
    }

    method CrossWithdraw(amount: nat) returns (r: Result<CrossPosition>)
      requires Valid()
      modifies this`balance, this`cross
      ensures Valid()
      ensures var spec := Spec.Withdraw(cfg, old(State()), amount);
        if spec.Ok? then r == Ok(cross) && State() == spec.value else r == Err(spec.error) && unchanged(this)
    {
      hide CrossPosition.EstFreeMargin, CrossPosition.IsCoherent, CrossPosition.WithMargin, BoundedPrice;
      var market := BoundedPrice(marketPrice);
      var free := cross.EstFreeMargin(market);
      FreeIsPartOfMargin(cross, market);
      if amount > free || (cross.SignedQuantity() != 0 && amount == free) {
        return Err(CrossFreeMarginTooLow);
      }
      var updated := cross.WithMargin(cfg.sdk, cross.margin - amount);
      if updated.Err? {
        return updated;
      }
      if !updated.value.IsCoherent(market) {
        return Err(CrossPositionIncoherent);
      }
      balance, cross := balance + amount, updated.value;
      r := Ok(cross);
    }

    method CrossSetLeverage(leverage: real) returns (r: Result<CrossPosition>)
      requires Valid()
      modifies this`cross
      ensures Valid()
      ensures var spec := Spec.SetLeverage(cfg, old(State()), leverage);
        if spec.Ok? then r == Ok(cross) && State() == spec.value else r == Err(spec.error) && unchanged(this)
    {
      var updated := cross.WithLeverage(cfg.sdk, leverage);
      if updated.Err? {
        return updated;
      }
      if !updated.value.IsCoherent(BoundedPrice(marketPrice)) {
        return Err(CrossPositionIncoherent);
      }
      cross := updated.value;
      r := Ok(cross);
    }

    method CrossOrder(side: Side, quantity: Quantity) returns (r: Result<()>)
      requires Valid()
      modifies this`cross, this`lastTradeTime
      ensures Valid()
      ensures var spec := Spec.CrossOrder(cfg, old(State()), side, quantity);
        if spec.Ok? then r.Ok? && State() == spec.value else r == Err(spec.error) && unchanged(this)
    {
      var market := RoundPrice(marketPrice);
      if market.Err? {
        return Err(market.error);
      }
      var updated := cross.WithMarketOrder(cfg.sdk, market.value, side, quantity, cfg.feePerc);
      if updated.Err? {
        return Err(updated.error);
      }
      lastTradeTime, cross := Some(time), updated.value;
      r := Ok(());
    }

    /** Returns whether there was a position to close. */
    method CrossOrderClosePosition() returns (r: Result<bool>)
      requires Valid()
      modifies this`cross, this`lastTradeTime
      ensures Valid()
      ensures var spec := Spec.CrossClose(cfg, old(State()));
        if spec.Ok? then r == Ok(old(cross.SignedQuantity()) != 0) && State() == spec.value
        else r == Err(spec.error) && unchanged(this)
    {
      if cross.SignedQuantity() == 0 {
        return Ok(false);
      }
      var market := RoundPrice(marketPrice);
      if market.Err? {
        return Err(market.error);
      }
      cross, lastTradeTime := cross.Close(cfg.sdk, market.value, cfg.feePerc), Some(time);
      r := Ok(true);
    }
  }

  /** A new trade is entered at the time of the executor, with the id it was given. */
  lemma OpensNow(cfg: Config, s: Spec.State, order: Spec.Order)
    ensures var entry := Spec.OrderedEntry(cfg, s, order);
      entry.Ok? ==> entry.value.trade.entryTime == s.time && entry.value.trade.id == order.id
  {
    hide EvaluateStoploss, RoundPrice;
  }

  lemma FreeIsPartOfMargin(p: CrossPosition, market: Price)
    ensures p.EstFreeMargin(market) <= p.margin
  {
    hide CrossPosition.RunningPl;
  }

  // ----- The bookkeeping of one iteration

  ghost predicate ClosedSince(before: seq<ClosedTrade>, after: seq<ClosedTrade>, ids: seq<int>) {
    && before <= after
    && |ids| == |after| - |before|
    && forall k :: 0 <= k < |ids| ==> ids[k] == after[|before| + k].trade.id
  }

  lemma ClosedNothing(history: seq<ClosedTrade>)
    ensures ClosedSince(history, history, [])
  {
  }

  lemma ClosedNext(before: seq<ClosedTrade>, after: seq<ClosedTrade>, ids: seq<int>, closed: ClosedTrade)
    requires ClosedSince(before, after, ids)
    ensures ClosedSince(before, after + [closed], ids + [closed.trade.id])
  {
    assert before <= after + [closed];
  }

  ghost predicate KeysKept(before: seq<Entry>, after: seq<Entry>) {
    |before| == |after| && forall i :: 0 <= i < |before| ==> Spec.SameKey(before[i], after[i])
  }

  lemma KeysKeptSorted(before: seq<Entry>, after: seq<Entry>)
    requires KeysKept(before, after) && Spec.Sorted(before)
    ensures Spec.Sorted(after)
  {
  }

  ghost predicate AllOnlyTightened(before: seq<Entry>, after: seq<Entry>) {
    |before| == |after| && forall i :: 0 <= i < |before| ==> OnlyTightened(before[i], after[i])
  }

  lemma OnlyTightenedSelf(running: seq<Entry>)
    ensures AllOnlyTightened(running, running)
  {
  }

  lemma OnlyTightenedNext(entries: seq<Entry>, running: seq<Entry>, i: nat, entry: Entry)
    requires AllOnlyTightened(entries, running) && i < |running|
    requires running[i] == entries[i] && OnlyTightened(running[i], entry)
    ensures AllOnlyTightened(entries, running[i := entry])
  {
    hide OnlyTightened;
  }

  lemma OnlyTightenedSorted(before: seq<Entry>, after: seq<Entry>)
    requires AllOnlyTightened(before, after) && Spec.Sorted(before)
    ensures Spec.Sorted(after)
  {
    hide AtLeastAsTight;
    assert KeysKept(before, after);
    hide OnlyTightened;
    KeysKeptSorted(before, after);
  }

  lemma SortedPrefix(a: seq<Entry>, entries: seq<Entry>, i: nat)
    requires i < |entries| && Spec.Sorted(a + entries[i..])
    ensures Spec.Sorted(a + [entries[i]])
  {
    assert a + [entries[i]] == (a + entries[i..])[..|a| + 1];
  }

  lemma InsertOlder(running: seq<Entry>, entry: Entry, kept: Entry)
    requires Spec.Sorted(running + [entry]) && Spec.SameKey(entry, kept)
    ensures Spec.Insert(running, kept) == running + [kept]
  {
    KeysKeptSorted(running + [entry], running + [kept]);
    Spec.InsertLast(running, kept);
  }

  /** Moving past entry `i` keeps the new map newer than the trades still to visit. */
  lemma Advance(cfg: Config, pass: Spec.Pass, entries: seq<Entry>, i: nat, book: Spec.Book, next: Spec.Book)
    requires i < |entries|
    requires Spec.VisitOne(cfg, pass, entries[i], book) == Ok(next)
    requires Spec.Sorted(book.running + entries[i..])
    ensures Spec.Sorted(next.running + entries[i + 1..])
    ensures Spec.VisitAll(cfg, pass, entries[i..], book) == Spec.VisitAll(cfg, pass, entries[i + 1..], next)
  {
    hide Spec.Sorted, Spec.VisitOne;
    assert entries[i..][1..] == entries[i + 1..];
    var rest := entries[i + 1..];
    assert entries[i..] == [entries[i]] + rest;
    VisitedRunning(cfg, pass, entries[i], book, next);
    if next.running == book.running {
      SortedWithout(book.running, entries[i], rest);
    } else {
      var kept := next.running[|book.running|];
      assert next.running == book.running + [kept];
      assert next.running + rest == book.running + ([kept] + rest);
      SortedReplaced(book.running, entries[i], kept, rest);
    }
  }

  lemma SortedWithout(front: seq<Entry>, entry: Entry, rest: seq<Entry>)
    requires Spec.Sorted(front + ([entry] + rest))
    ensures Spec.Sorted(front + rest)
  {
    var a, b, n := front + ([entry] + rest), front + rest, |front|;
    forall j, k | 0 <= j < k < |b|
      ensures Spec.Newer(b[j], b[k])
    {
      var j', k' := if j < n then j else j + 1, if k < n then k else k + 1;
      assert a[j'] == b[j] && a[k'] == b[k];
    }
  }

  lemma SortedReplaced(front: seq<Entry>, entry: Entry, kept: Entry, rest: seq<Entry>)
    requires Spec.Sorted(front + ([entry] + rest)) && Spec.SameKey(entry, kept)
    ensures Spec.Sorted(front + ([kept] + rest))
  {
    var a, b, n := front + ([entry] + rest), front + ([kept] + rest), |front|;
    forall j | 0 <= j < |a|
      ensures Spec.SameKey(a[j], b[j])
    {
      assert j == n || a[j] == b[j];
    }
    KeysKeptSorted(a, b);
  }

  lemma ManualVisit(cfg: Config, selection: Spec.Selection, market: Price, entry: Entry, book: Spec.Book)
    ensures
      var visit := if Spec.Selected(selection, entry.trade) then Spec.Closes(entry.trade.ToClosed(cfg, market), 0)
                   else Spec.Keeps(entry, 0);
      Spec.VisitOne(cfg, Spec.ClosePass(selection, market), entry, book) == Spec.BookVisit(cfg, book, visit)
    ensures
      var next := Spec.VisitOne(cfg, Spec.ClosePass(selection, market), entry, book);
      next.Ok? ==> next.value.closed == if Spec.Selected(selection, entry.trade)
                                        then book.closed + [entry.trade.ToClosed(cfg, market)] else book.closed
  {
  }

  lemma VisitedRunning(cfg: Config, pass: Spec.Pass, entry: Entry, book: Spec.Book, next: Spec.Book)
    requires Spec.VisitOne(cfg, pass, entry, book) == Ok(next)
    ensures next.running == book.running
            || (|next.running| == |book.running| + 1 && next.running[..|book.running|] == book.running
                && Spec.SameKey(entry, next.running[|book.running|]))
  {
  }
}
