/** The cached trigger is no wider than it must be: it is reached exactly by the prices that concern some running trade. */
module TriggerExact {
  import opened Basics
  import opened Market
  import opened Pricing
  import opened CrossPosition
  import opened Trades
  import opened ExecutorSpec
  import opened TriggerLaws
  import opened TradeOutcomes

  // ----- One trade

  /** A price at or beyond the bounds of a trade. */
  predicate Attends(cfg: Config, entry: Entry, price: real) {
    var bounds := Bounds(cfg, entry);
    bounds.Ok? && (price <= Dollars(bounds.value.0) || price >= Dollars(bounds.value.1))
  }

  /** A price that stops a trade, takes its profit or moves its stop by a step. */
  predicate Concerns(cfg: Config, entry: Entry, p: Price) {
    var trade := entry.trade;
    if trade.side == Buy then
      || p <= StopOf(trade)
      || (trade.takeprofit.Some? && p >= trade.takeprofit.value)
      || (entry.tsl.Some? && trade.stoploss.Some?
          && MovedDown(p, entry.tsl.value) >= Dollars(RoundTick(MovedUp(trade.stoploss.value, cfg.step))))
    else
      || p >= StopOf(trade)
      || (trade.takeprofit.Some? && p <= trade.takeprofit.value)
      || (entry.tsl.Some? && trade.stoploss.Some?
          && MovedUp(p, entry.tsl.value) <= Dollars(RoundTick(MovedDown(trade.stoploss.value, cfg.step))))
  }

  /** Inside the price bounds, a price is at or beyond the bounds of a trade exactly if it concerns it. */
  lemma AttendsIffConcerns(cfg: Config, entry: Entry, p: Price)
    requires HasTrigger(cfg, entry) && MIN_TICK < p < MAX_TICK
    ensures Attends(cfg, entry, Dollars(p)) <==> Concerns(cfg, entry, p)
  {
    hide MovedUp, MovedDown, RoundTick, NextTrigger;
    HasTriggerIff(cfg, entry, NotSet);
    var trade := entry.trade;
    if entry.tsl.Some? {
      if trade.side == Buy {
        LongTriggerIsFirst(cfg, trade, entry.tsl.value);
      } else {
        ShortTriggerIsLast(cfg, trade, entry.tsl.value);
      }
    }
  }

  // ----- All running trades

  ghost predicate SomeAttends(cfg: Config, running: seq<Entry>, price: real) {
    exists entry <- running :: Attends(cfg, entry, price)
  }

  /** The trigger is reached exactly by the prices at or beyond the bounds of some running trade. */
  ghost predicate Tight(cfg: Config, trigger: Trigger, running: seq<Entry>) {
    forall price: real :: trigger.WasReached(price) <==> SomeAttends(cfg, running, price)
  }

  lemma UpdateReaches(cfg: Config, trigger: Trigger, entry: Entry, price: real)
    requires trigger.Update(cfg, entry).Ok?
    ensures trigger.Update(cfg, entry).value.WasReached(price) <==> trigger.WasReached(price) || Attends(cfg, entry, price)
  {
    hide Bounds;
  }

  /** Taking in one more trade keeps the trigger tight. */
  lemma UpdateKeepsTight(cfg: Config, trigger: Trigger, before: seq<Entry>, entry: Entry, after: seq<Entry>)
    requires Tight(cfg, trigger, before) && trigger.Update(cfg, entry).Ok?
    requires forall e :: e in after <==> e == entry || e in before
    ensures Tight(cfg, trigger.Update(cfg, entry).value, after)
  {
    hide Attends, Trigger.Update, Trigger.WasReached;
    var updated := trigger.Update(cfg, entry).value;
    forall price: real
      ensures updated.WasReached(price) <==> SomeAttends(cfg, after, price)
    {
      UpdateReaches(cfg, trigger, entry, price);
    }
  }

  lemma NothingIsTight(cfg: Config)
    ensures Tight(cfg, NotSet, [])
  {
  }

  lemma {:induction false} PassIsTight(cfg: Config, pass: Pass, entries: seq<Entry>, book: Book)
    requires VisitAll(cfg, pass, entries, book).Ok?
    requires Tight(cfg, book.trigger, book.running)
    ensures var book' := VisitAll(cfg, pass, entries, book).value;
      Tight(cfg, book'.trigger, book'.running)
    decreases |entries|
  {
    hide VisitEntry, Tight, Trigger.Update;
    if entries != [] {
      var visit := VisitEntry(cfg, pass, entries[0]).value;
      var next := BookVisit(cfg, book, visit).value;
      if visit.Keeps? {
        UpdateKeepsTight(cfg, book.trigger, book.running, visit.entry, next.running);
      }
      PassIsTight(cfg, pass, entries[1..], next);
    }
  }

  lemma {:induction false} InsertNewMembers(running: seq<Entry>, entry: Entry)
    requires forall e <- running :: !SameKey(e, entry)
    ensures forall e :: e in Insert(running, entry) <==> e == entry || e in running
    decreases |running|
  {
    if running != [] && !Newer(entry, running[0]) {
      assert running == [running[0]] + running[1..];
      assert running[0] in running && !SameKey(running[0], entry);
      InsertNewMembers(running[1..], entry);
    }
  }

  /** Every step but added margin keeps the trigger tight; a trade that is opened must be a new one. */
  lemma StepKeepsTight(cfg: Config, s: State, op: Op, always: bool)
    requires Tight(cfg, s.trigger, s.running) && !op.OpAddMargin?
    requires op.OpOpen? ==> forall e <- s.running :: e.trade.id != op.order.id
    requires Step(cfg, s, op, always).Ok?
    ensures var s' := Step(cfg, s, op, always).value;
      Tight(cfg, s'.trigger, s'.running)
  {
    hide Tight, CandleUpdate, ApplyFunding, CloseRunning, CreateRunning, AddMargin, VisitAll,
         RoundPrice, Deposit, Withdraw, SetLeverage, CrossOrder, CrossClose;
    NothingIsTight(cfg);
    match op
    case OpCandle(candle) =>
      CandleTrades(cfg, s, candle, always);
      if VisitAll(cfg, CandlePass(candle), s.running, OpenBook(s)).Ok? {
        PassIsTight(cfg, CandlePass(candle), s.running, OpenBook(s));
      }
    case OpFunding(settlement) =>
      FundingTrades(cfg, s, settlement);
      if VisitAll(cfg, FundingPass(settlement, s.marketPrice), s.running, OpenBook(s)).Ok? {
        PassIsTight(cfg, FundingPass(settlement, s.marketPrice), s.running, OpenBook(s));
      }
    case OpClose(selection) =>
      CloseTrades(cfg, s, selection);
      PassIsTight(cfg, ClosePass(selection, RoundPrice(s.marketPrice).value), s.running, OpenBook(s));
    case OpOpen(order) => OpenKeepsTight(cfg, s, order);
    case _ => TradesAreLeft(cfg, s, op, always);
  }

  lemma OpenKeepsTight(cfg: Config, s: State, order: Order)
    requires Tight(cfg, s.trigger, s.running) && CreateRunning(cfg, s, order).Ok?
    requires forall e <- s.running :: e.trade.id != order.id
    ensures var s' := CreateRunning(cfg, s, order).value;
      Tight(cfg, s'.trigger, s'.running)
  {
    hide Tight, EvaluateStoploss, RoundPrice, Insert, Trigger.Update;
    var entry := OrderedEntry(cfg, s, order).value;
    InsertNewMembers(s.running, entry);
    UpdateKeepsTight(cfg, s.trigger, s.running, entry, Insert(s.running, entry));
  }

  /** Added margin keeps it tight for a trade with a stop, whose liquidation does not count. */
  lemma AddMarginKeepsTight(cfg: Config, s: State, id: int, amount: nat)
    requires Tight(cfg, s.trigger, s.running) && AddMargin(cfg, s, id, amount).Ok?
    requires s.running[IndexOf(s.running, id)].trade.stoploss.Some?
    ensures var s' := AddMargin(cfg, s, id, amount).value;
      Tight(cfg, s'.trigger, s'.running)
  {
    hide Attends;
    var i := IndexOf(s.running, id);
    var before, after := s.running[i], AddMargin(cfg, s, id, amount).value.running[i];
    forall price: real
      ensures SomeAttends(cfg, s.running, price) <==> SomeAttends(cfg, s.running[i := after], price)
    {
      SameBounds(cfg, before, after, price);
      SameAttendance(cfg, s.running, i, after, price);
    }
  }

  lemma SameBounds(cfg: Config, a: Entry, b: Entry, price: real)
    requires a.trade.stoploss.Some?
    requires b == a.(trade := a.trade.(margin := b.trade.margin, leverage := b.trade.leverage,
                                       liquidation := b.trade.liquidation))
    ensures Attends(cfg, a, price) <==> Attends(cfg, b, price)
  {
    hide SteppedStop, RoundPriceUp, RoundPriceDown;
  }

  lemma SameAttendance(cfg: Config, running: seq<Entry>, i: nat, entry: Entry, price: real)
    requires i < |running| && (Attends(cfg, running[i], price) <==> Attends(cfg, entry, price))
    ensures SomeAttends(cfg, running, price) <==> SomeAttends(cfg, running[i := entry], price)
  {
    hide Attends;
    var other := running[i := entry];
    assert other[i] == entry && forall j: nat :: j < |running| && j != i ==> other[j] == running[j];
  }
}
