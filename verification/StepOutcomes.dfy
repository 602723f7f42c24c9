/**
 What a step does to the account: which trades a candle, a manual close and a settlement close and at
 what price, what becomes of the others and of the cross position, and when a step succeeds.
 */
module StepOutcomes {
  import opened Basics
  import opened Market
  import opened Pricing
  import opened Valuation
  import opened CrossPosition
  import opened CrossLaws
  import opened Trades
  import opened ExecutorSpec
  import opened TriggerLaws
  import opened TradeOutcomes

  // ----- The steps

  predicate Reached(s: State, candle: Candle) {
    s.trigger.WasReached(candle.low) || s.trigger.WasReached(candle.high)
  }

  /** What a step over the running trades leaves, the caches and times aside. */
  ghost predicate StepBooks(cfg: Config, pass: Pass, s: State, after: State) {
    PassBooks(cfg, pass, s.running, OpenBook(s),
              Book(after.balance, after.realizedPl, after.closedFees, after.fundingFees, after.trigger,
                   after.running, after.closed))
  }

  lemma StepBooksMeans(cfg: Config, pass: Pass, s: State, after: State)
    ensures StepBooks(cfg, pass, s, after) <==>
      (var exits := Exits(cfg, pass, s.running);
       && after.closed == s.closed + exits
       && after.running == Stays(cfg, pass, s.running)
       && after.balance == s.balance + Pays(cfg, pass, s.running)
       && after.fundingFees == s.fundingFees + Charges(cfg, pass, s.running)
       && after.realizedPl == s.realizedPl + Earned(exits)
       && after.closedFees == s.closedFees + FeesOf(exits))
  {
    hide PlAt, Outcome;
    assert [] + Stays(cfg, pass, s.running) == Stays(cfg, pass, s.running);
  }

  /** Inside the cached interval no trade is closed. */
  lemma InsideIsNoExit(cfg: Config, trigger: Trigger, candle: Candle, entry: Entry)
    requires CoveredBy(cfg, trigger, entry)
    requires !trigger.WasReached(candle.low) && !trigger.WasReached(candle.high)
    ensures ExitPrice(entry.trade, candle).None?
  {
    hide NextTrigger;
  }

  lemma {:induction false} InsideNoExits(cfg: Config, trigger: Trigger, candle: Candle, entries: seq<Entry>)
    requires Covered(cfg, trigger, entries)
    requires !trigger.WasReached(candle.low) && !trigger.WasReached(candle.high)
    ensures Exits(cfg, CandlePass(candle), entries) == []
    decreases |entries|
  {
    hide CoveredBy, Trigger.WasReached, ExitPrice, Trailed;
    if entries != [] {
      InsideIsNoExit(cfg, trigger, candle, entries[0]);
      InsideNoExits(cfg, trigger, candle, entries[1..]);
    }
  }

  /**
   What a candle does to the isolated trades. It closes exactly the trades whose exit price it
   reaches. The stops of the others are trailed if it reaches the cached trigger, and otherwise
   nothing is touched.
   */
  lemma CandleOutcome(cfg: Config, s: State, candle: Candle)
    requires Covered(cfg, s.trigger, s.running)
    requires CandleUpdate(cfg, s, candle, false).Ok?
    ensures var s' := CandleUpdate(cfg, s, candle, false).value;
      && (Reached(s, candle) ==> StepBooks(cfg, CandlePass(candle), s, s'))
      && (!Reached(s, candle) ==>
            && Exits(cfg, CandlePass(candle), s.running) == []
            && s' == s.(time := s'.time, marketPrice := s'.marketPrice, cross := s'.cross,
                        lastTradeTime := s'.lastTradeTime))
      && s'.time == candle.time + 59 && s'.marketPrice == candle.close
  {
    hide VisitAll, CrossPosition.LiquidationReached, CrossPosition.Liquidate, Trigger.WasReached, PassBooks, Covered,
         OpenBook, Outcome;
    if Reached(s, candle) {
      PassOutcome(cfg, CandlePass(candle), s.running, OpenBook(s));
    } else {
      InsideNoExits(cfg, s.trigger, candle, s.running);
    }
  }

  /** A candle succeeds exactly if it is in time order and, when it reaches the cached trigger, every trade can be visited. */
  lemma CandleSucceedsIff(cfg: Config, s: State, candle: Candle)
    ensures CandleUpdate(cfg, s, candle, false).Ok? <==>
      && candle.time + 59 >= s.time
      && (Reached(s, candle) ==> forall entry <- s.running :: CanVisit(cfg, CandlePass(candle), entry))
  {
    hide VisitAll, OpenBook, CanVisit, Trigger.WasReached, CrossPosition.LiquidationReached, CrossPosition.Liquidate;
    PassSucceedsIff(cfg, CandlePass(candle), s.running, OpenBook(s));
  }

  lemma SettlementSucceedsIff(cfg: Config, s: State, settlement: Settlement)
    ensures ApplyFunding(cfg, s, settlement).Ok? <==>
      forall entry <- s.running :: CanVisit(cfg, FundingPass(settlement, s.marketPrice), entry)
  {
    hide VisitAll, OpenBook, CanVisit, CrossPosition.ApplyFunding;
    PassSucceedsIff(cfg, FundingPass(settlement, s.marketPrice), s.running, OpenBook(s));
  }

  lemma CloseSucceedsIff(cfg: Config, s: State, selection: Selection)
    ensures CloseRunning(cfg, s, selection).Ok? <==>
      && InTicks(RoundTick(s.marketPrice))
      && forall entry <- s.running :: CanVisit(cfg, ClosePass(selection, BoundedPrice(s.marketPrice)), entry)
  {
    hide VisitAll, OpenBook, CanVisit, RoundTick;
    PassSucceedsIff(cfg, ClosePass(selection, BoundedPrice(s.marketPrice)), s.running, OpenBook(s));
  }

  /** Whether a candle reaches the liquidation of the cross position: from above for a long, from below for a short. */
  predicate ReachesLiquidation(exposure: Exposure, candle: Candle) {
    exposure.Running? && if exposure.side == Buy then candle.low <= Dollars(exposure.liquidation)
                         else candle.high >= Dollars(exposure.liquidation)
  }

  /** The position after a close at a price: the P/L less the fee goes into the margin, which stops at zero. */
  function Flattened(cfg: Config, p: CrossPosition, price: Price): CrossPosition
    requires p.exposure.Running?
  {
    var e := p.exposure;
    var fee, pl := cfg.sdk.orderFee(cfg.feePerc, e.quantity, price), PlOf(e.side, e.quantity, e.entry, price);
    CrossPosition(Max(0, p.margin + pl - fee), p.leverage, Neutral, p.tradingFees + fee, p.sessionFundingFees,
                  p.realizedPl + pl)
  }

  lemma CloseFlattens(cfg: Config, p: CrossPosition, price: Price)
    requires p.exposure.Running?
    ensures p.Close(cfg.sdk, price, cfg.feePerc) == Flattened(cfg, p, price)
  {
    hide PlOf, EstimatePl;
    PlIsOf(p.exposure.side, p.exposure.quantity, p.exposure.entry, price);
  }

  /** What a candle does to the cross position: it is closed at its liquidation exactly if the candle reaches that. */
  lemma CandleCrossOutcome(cfg: Config, s: State, candle: Candle, always: bool)
    requires CandleUpdate(cfg, s, candle, always).Ok?
    ensures CandleUpdate(cfg, s, candle, always).value.cross ==
      if ReachesLiquidation(s.cross.exposure, candle) then Flattened(cfg, s.cross, s.cross.exposure.liquidation)
      else s.cross
  {
    hide VisitAll, Trigger.WasReached, OpenBook, CrossPosition.Close, Flattened, Dollars;
    if s.cross.exposure.Running? {
      CloseFlattens(cfg, s.cross, s.cross.exposure.liquidation);
    }
  }

  /** The last trade is at the end of the candle exactly if something was closed. */
  lemma CandleTradeTime(cfg: Config, s: State, candle: Candle)
    requires Covered(cfg, s.trigger, s.running)
    requires CandleUpdate(cfg, s, candle, false).Ok?
    ensures CandleUpdate(cfg, s, candle, false).value.lastTradeTime ==
      if Exits(cfg, CandlePass(candle), s.running) != [] || ReachesLiquidation(s.cross.exposure, candle)
      then Some(candle.time + 59) else s.lastTradeTime
  {
    hide VisitAll, Trigger.WasReached, CrossPosition.Liquidate, Dollars, Covered, Books, Outcome;
    if Reached(s, candle) {
      PassOutcome(cfg, CandlePass(candle), s.running, OpenBook(s));
      ExitsAreAdded(cfg, CandlePass(candle), s);
    } else {
      InsideNoExits(cfg, s.trigger, candle, s.running);
    }
  }

  lemma ExitsAreAdded(cfg: Config, pass: Pass, s: State)
    requires VisitAll(cfg, pass, s.running, OpenBook(s)).Ok?
    ensures VisitAll(cfg, pass, s.running, OpenBook(s)).value.closed == s.closed + Exits(cfg, pass, s.running)
  {
    hide VisitAll, Outcome;
    PassOutcome(cfg, pass, s.running, OpenBook(s));
  }

  /** A manual close closes exactly the selected trades, at the rounded market price. */
  lemma CloseOutcome(cfg: Config, s: State, selection: Selection)
    requires CloseRunning(cfg, s, selection).Ok?
    ensures var s' := CloseRunning(cfg, s, selection).value;
      && StepBooks(cfg, ClosePass(selection, BoundedPrice(s.marketPrice)), s, s')
      && s'.lastTradeTime == Some(s.time)
      && s'.time == s.time && s'.marketPrice == s.marketPrice && s'.cross == s.cross
  {
    hide VisitAll, Books, Outcome;
    PassOutcome(cfg, ClosePass(selection, BoundedPrice(s.marketPrice)), s.running, OpenBook(s));
  }

  /** A settlement charges or pays every running trade and closes exactly those that cannot pay. */
  lemma FundingOutcome(cfg: Config, s: State, settlement: Settlement)
    requires ApplyFunding(cfg, s, settlement).Ok?
    ensures var s' := ApplyFunding(cfg, s, settlement).value;
      && StepBooks(cfg, FundingPass(settlement, s.marketPrice), s, s')
      && s'.time == s.time && s'.marketPrice == s.marketPrice
      && (s.cross.exposure.Neutral? ==> s'.cross == s.cross)
      && (s.running == [] && s.cross.exposure.Neutral? ==> s' == s)
  {
    hide VisitAll, Books, Outcome;
    var pass := FundingPass(settlement, s.marketPrice);
    if VisitAll(cfg, pass, s.running, OpenBook(s)).Ok? {
      PassOutcome(cfg, pass, s.running, OpenBook(s));
    }
    if s.running == [] {
      NothingBooked(cfg, pass, OpenBook(s));
      StepBooksMeans(cfg, pass, s, s);
    }
  }

  /** The position after a charge it can bear. */
  function ChargedPosition(cfg: Config, p: CrossPosition, charge: int): CrossPosition
    requires p.exposure.Running? && charge <= p.margin
  {
    var e, left := p.exposure, p.margin - charge;
    p.(margin := left, sessionFundingFees := p.sessionFundingFees + charge,
       exposure := e.(liquidation := cfg.sdk.crossLiquidation(left, p.leverage, e.side, e.quantity, e.entry)))
  }

  /** The position after a charge it cannot bear: closed at the market, and charged what is left. */
  function ForcedFlat(cfg: Config, p: CrossPosition, market: Price, charge: int): CrossPosition
    requires p.exposure.Running?
  {
    var flat := Flattened(cfg, p, market);
    flat.(margin := Max(0, flat.margin - charge), sessionFundingFees := p.sessionFundingFees + charge)
  }

  lemma ForceCloseIs(cfg: Config, p: CrossPosition, market: Price, charge: int)
    requires p.exposure.Running?
    ensures p.ForceClose(cfg.sdk, market, charge, cfg.feePerc) == Funded(ForcedFlat(cfg, p, market, charge), charge, true)
  {
    hide CrossPosition.Close, Flattened;
    CloseFlattens(cfg, p, market);
  }

  lemma MakeCharged(cfg: Config, p: CrossPosition, charge: int)
    requires WellFormed(cfg.sdk, p) && p.exposure.Running? && charge <= p.margin
    ensures var made := Make(cfg.sdk, p.margin - charge, p.leverage, p.exposure.AsParams(), p.tradingFees,
                             p.sessionFundingFees + charge, p.realizedPl);
      made.Ok? ==> made.value == ChargedPosition(cfg, p, charge)
  {
    hide MarginFloor;
  }

  lemma SettledPosition(cfg: Config, p: CrossPosition, marketPrice: real, settlement: Settlement)
    requires WellFormed(cfg.sdk, p) && p.exposure.Running?
    ensures var f := p.ApplyFunding(cfg.sdk, marketPrice, settlement, cfg.feePerc);
      var charge := Charge(p.exposure.side, p.exposure.quantity, settlement);
      && (!f.forcedFlat ==> charge <= p.margin && f.position == ChargedPosition(cfg, p, charge))
      && (f.forcedFlat ==> f.position == ForcedFlat(cfg, p, BoundedPrice(marketPrice), charge))
  {
    hide CrossPosition.Close, CrossPosition.ForceClose, ForcedFlat, ChargedPosition, FundingFee, Charge, Make,
         BoundedPrice, WellFormed, CrossPosition.EstFreeMargin, CrossPosition.IsCoherent, Required;
    var charge := Charge(p.exposure.side, p.exposure.quantity, settlement);
    ChargeIs(p.exposure.side, p.exposure.quantity, settlement);
    ForceCloseIs(cfg, p, BoundedPrice(marketPrice), charge);
    FundingForcesFlatIff(cfg.sdk, p, marketPrice, settlement, cfg.feePerc);
    if charge <= p.margin {
      MakeCharged(cfg, p, charge);
    }
  }

  /** What a settlement does to a running cross position. `FundingForcesFlatIff` says when it is closed by force. */
  lemma FundingCrossOutcome(cfg: Config, s: State, settlement: Settlement)
    requires ApplyFunding(cfg, s, settlement).Ok?
    requires WellFormed(cfg.sdk, s.cross) && s.cross.exposure.Running?
    ensures var after, e := ApplyFunding(cfg, s, settlement).value.cross, s.cross.exposure;
      var charge := Charge(e.side, e.quantity, settlement);
      if after.exposure.Running? then charge <= s.cross.margin && after == ChargedPosition(cfg, s.cross, charge)
      else after == ForcedFlat(cfg, s.cross, BoundedPrice(s.marketPrice), charge)
  {
    hide VisitAll, Charge, BoundedPrice, OpenBook, CrossPosition.ApplyFunding;
    SettledPosition(cfg, s.cross, s.marketPrice, settlement);
  }

  /** The last trade is at the settlement exactly if something was closed by force. */
  lemma FundingTradeTime(cfg: Config, s: State, settlement: Settlement)
    requires ApplyFunding(cfg, s, settlement).Ok?
    requires WellFormed(cfg.sdk, s.cross)
    ensures var s' := ApplyFunding(cfg, s, settlement).value;
      var forced := s.cross.exposure.Running? && s'.cross.exposure.Neutral?;
      s'.lastTradeTime == if Exits(cfg, FundingPass(settlement, s.marketPrice), s.running) != [] || forced
                          then Some(settlement.time) else s.lastTradeTime
  {
    hide VisitAll, Outcome, CrossPosition.ApplyFunding;
    var pass := FundingPass(settlement, s.marketPrice);
    if VisitAll(cfg, pass, s.running, OpenBook(s)).Ok? {
      ExitsAreAdded(cfg, pass, s);
    }
    if s.cross.exposure.Running? {
      SettledPosition(cfg, s.cross, s.marketPrice, settlement);
    } else {
      FlatIsNotCharged(cfg.sdk, s.cross, s.marketPrice, settlement, cfg.feePerc);
    }
  }

  lemma FlatIsNotCharged(sdk: Sdk, p: CrossPosition, marketPrice: real, settlement: Settlement, feePerc: PercentageCapped)
    requires p.exposure.Neutral?
    ensures p.ApplyFunding(sdk, marketPrice, settlement, feePerc) == Funded(p, 0, false)
  {
  }

  // ----- One trade in a pass

  ghost predicate ClosedIn(closed: seq<ClosedTrade>, trade: Trade, price: Price) {
    exists c <- closed :: c.trade == trade && c.closePrice == price
  }

  predicate SameTrade(a: Trade, b: Trade) {
    a.id == b.id && a.entryTime == b.entryTime
  }

  ghost predicate RunsIn(running: seq<Entry>, trade: Trade) {
    exists b <- running :: SameTrade(b.trade, trade)
  }

  lemma {:induction false} ExitsMember(cfg: Config, pass: Pass, entries: seq<Entry>, c: ClosedTrade)
    ensures c in Exits(cfg, pass, entries) <==>
      exists e <- entries :: Outcome(cfg, pass, e).Closes? && Outcome(cfg, pass, e).closed == c
  {
    hide Outcome;
    if entries != [] {
      ExitsMember(cfg, pass, entries[1..], c);
      assert entries == [entries[0]] + entries[1..];
    }
  }

  lemma {:induction false} StaysMember(cfg: Config, pass: Pass, entries: seq<Entry>, b: Entry)
    ensures b in Stays(cfg, pass, entries) <==>
      exists e <- entries :: Outcome(cfg, pass, e).Keeps? && Outcome(cfg, pass, e).entry == b
  {
    hide Outcome;
    if entries != [] {
      StaysMember(cfg, pass, entries[1..], b);
      assert entries == [entries[0]] + entries[1..];
    }
  }

  lemma OutcomeIsOfTrade(cfg: Config, pass: Pass, entry: Entry)
    ensures var visit := Outcome(cfg, pass, entry);
      && (visit.Closes? ==> visit.closed.trade == entry.trade)
      && (visit.Keeps? ==> SameTrade(visit.entry.trade, entry.trade))
  {
    hide CannotPay, Charge, TrailTo, StopMoves;
  }

  lemma KeysAreUnique(entries: seq<Entry>, a: Entry, b: Entry)
    requires Sorted(entries) && a in entries && b in entries && SameTrade(a.trade, b.trade)
    ensures a == b
  {
    var i: nat :| i < |entries| && entries[i] == a;
    var j: nat :| j < |entries| && entries[j] == b;
    assert i < j ==> Newer(a, b);
    assert j < i ==> Newer(b, a);
  }

  /** A trade is among the exits exactly if it is closed, at that price, and runs on exactly if it is not. */
  lemma TradeInPass(cfg: Config, pass: Pass, entries: seq<Entry>, entry: Entry)
    requires Sorted(entries) && entry in entries
    ensures var visit := Outcome(cfg, pass, entry);
      && (forall price: Price ::
            ClosedIn(Exits(cfg, pass, entries), entry.trade, price)
            <==> visit.Closes? && visit.closed.closePrice == price)
      && (RunsIn(Stays(cfg, pass, entries), entry.trade) <==> visit.Keeps?)
      && (visit.Keeps? ==> visit.entry in Stays(cfg, pass, entries))
  {
    hide Outcome;
    var visit := Outcome(cfg, pass, entry);
    OutcomeIsOfTrade(cfg, pass, entry);
    if visit.Closes? {
      ExitsMember(cfg, pass, entries, visit.closed);
    } else {
      StaysMember(cfg, pass, entries, visit.entry);
    }
    forall c <- Exits(cfg, pass, entries) | c.trade == entry.trade
      ensures visit.Closes? && visit.closed == c
    {
      ExitsMember(cfg, pass, entries, c);
      var e :| e in entries && Outcome(cfg, pass, e).Closes? && Outcome(cfg, pass, e).closed == c;
      OutcomeIsOfTrade(cfg, pass, e);
      KeysAreUnique(entries, e, entry);
    }
    forall b <- Stays(cfg, pass, entries) | SameTrade(b.trade, entry.trade)
      ensures visit.Keeps?
    {
      StaysMember(cfg, pass, entries, b);
      var e :| e in entries && Outcome(cfg, pass, e).Keeps? && Outcome(cfg, pass, e).entry == b;
      OutcomeIsOfTrade(cfg, pass, e);
      KeysAreUnique(entries, e, entry);
    }
  }

  /** The trades a step closed. */
  function NewlyClosed(s: State, after: State): seq<ClosedTrade> {
    if |s.closed| <= |after.closed| then after.closed[|s.closed|..] else []
  }

  lemma TradeInStep(cfg: Config, pass: Pass, s: State, after: State, entry: Entry)
    requires Sorted(s.running) && entry in s.running
    requires StepBooks(cfg, pass, s, after)
    ensures var visit := Outcome(cfg, pass, entry);
      && (forall price: Price ::
            ClosedIn(NewlyClosed(s, after), entry.trade, price) <==> visit.Closes? && visit.closed.closePrice == price)
      && (RunsIn(after.running, entry.trade) <==> visit.Keeps?)
      && (visit.Keeps? ==> visit.entry in after.running)
  {
    hide StepBooks, Outcome, Sorted, ClosedIn, RunsIn, PlAt;
    StepBooksMeans(cfg, pass, s, after);
    TradeInPass(cfg, pass, s.running, entry);
    assert NewlyClosed(s, after) == Exits(cfg, pass, s.running);
  }

  /** A running trade under a candle: closed at its exit price exactly if it has one. */
  lemma TradeUnderCandle(cfg: Config, s: State, candle: Candle, entry: Entry)
    requires Covered(cfg, s.trigger, s.running) && Sorted(s.running) && entry in s.running
    requires CandleUpdate(cfg, s, candle, false).Ok?
    ensures var s', exit := CandleUpdate(cfg, s, candle, false).value, ExitPrice(entry.trade, candle);
      && (forall price: Price :: ClosedIn(NewlyClosed(s, s'), entry.trade, price) <==> exit == Some(price))
      && (RunsIn(s'.running, entry.trade) <==> exit.None?)
  {
    hide StepBooks, ClosedIn, RunsIn, Sorted, Covered, CandleUpdate, Trailed, ExitPrice, Trigger.WasReached, CoveredBy;
    CandleOutcome(cfg, s, candle);
    var s' := CandleUpdate(cfg, s, candle, false).value;
    if Reached(s, candle) {
      TradeInStep(cfg, CandlePass(candle), s, s', entry);
    } else {
      TradeStays(cfg, s, candle, entry);
      NoneIn(entry.trade);
      assert NewlyClosed(s, s') == [];
      RunsAlready(s.running, entry);
    }
  }

  lemma TradeStays(cfg: Config, s: State, candle: Candle, entry: Entry)
    requires Covered(cfg, s.trigger, s.running) && entry in s.running && !Reached(s, candle)
    ensures ExitPrice(entry.trade, candle).None?
  {
    hide CoveredBy, Trigger.WasReached, ExitPrice;
    InsideIsNoExit(cfg, s.trigger, candle, entry);
  }

  lemma NoneIn(trade: Trade)
    ensures forall price: Price :: !ClosedIn([], trade, price)
  {
  }

  lemma RunsAlready(running: seq<Entry>, entry: Entry)
    requires entry in running
    ensures RunsIn(running, entry.trade)
  {
  }

  /** A long that is stopped, a long that takes profit, and a long that runs on. */
  lemma LongUnderCandle(cfg: Config, s: State, candle: Candle, entry: Entry)
    requires Covered(cfg, s.trigger, s.running) && Sorted(s.running) && entry in s.running
    requires CandleUpdate(cfg, s, candle, false).Ok? && entry.trade.side == Buy
    ensures var s', trade := CandleUpdate(cfg, s, candle, false).value, entry.trade;
      var stop := if trade.stoploss.Some? then trade.stoploss.value else trade.liquidation;
      var stopped := candle.low <= Dollars(stop);
      var profits := !stopped && trade.takeprofit.Some? && candle.high >= Dollars(trade.takeprofit.value);
      && (forall price: Price ::
            ClosedIn(NewlyClosed(s, s'), trade, price)
            <==> (stopped && price == stop) || (profits && trade.takeprofit == Some(price)))
      && (RunsIn(s'.running, trade) <==> !stopped && !profits)
  {
    hide Covered, Sorted, CandleUpdate, ClosedIn, RunsIn, Dollars;
    TradeUnderCandle(cfg, s, candle, entry);
  }

  /** The same for a short, which takes profit even when the candle also reaches its stop. */
  lemma ShortUnderCandle(cfg: Config, s: State, candle: Candle, entry: Entry)
    requires Covered(cfg, s.trigger, s.running) && Sorted(s.running) && entry in s.running
    requires CandleUpdate(cfg, s, candle, false).Ok? && entry.trade.side == Sell
    ensures var s', trade := CandleUpdate(cfg, s, candle, false).value, entry.trade;
      var stop := if trade.stoploss.Some? then trade.stoploss.value else trade.liquidation;
      var profits := trade.takeprofit.Some? && candle.low <= Dollars(trade.takeprofit.value);
      var stopped := !profits && candle.high >= Dollars(stop);
      && (forall price: Price ::
            ClosedIn(NewlyClosed(s, s'), trade, price)
            <==> (stopped && price == stop) || (profits && trade.takeprofit == Some(price)))
      && (RunsIn(s'.running, trade) <==> !stopped && !profits)
  {
    hide Covered, Sorted, CandleUpdate, ClosedIn, RunsIn, Dollars;
    TradeUnderCandle(cfg, s, candle, entry);
  }

  /** A manual close of one trade, one side or all, at the rounded market price. */
  lemma TradeAtClose(cfg: Config, s: State, selection: Selection, entry: Entry)
    requires Sorted(s.running) && entry in s.running && CloseRunning(cfg, s, selection).Ok?
    ensures var s', trade := CloseRunning(cfg, s, selection).value, entry.trade;
      var meant := match selection
        case Single(id) => trade.id == id
        case OneSide(side) => trade.side == side
        case All => true;
      && (forall price: Price ::
            ClosedIn(NewlyClosed(s, s'), trade, price) <==> meant && price == BoundedPrice(s.marketPrice))
      && (RunsIn(s'.running, trade) <==> !meant)
      && (!meant ==> entry in s'.running)
  {
    hide StepBooks, ClosedIn, RunsIn, Sorted, CloseRunning, BoundedPrice;
    CloseOutcome(cfg, s, selection);
    TradeInStep(cfg, ClosePass(selection, BoundedPrice(s.marketPrice)), s, CloseRunning(cfg, s, selection).value, entry);
  }

  /**
   A running trade at a settlement worth `sats`, the whole number of satoshis nearest to its funding
   value. A long is charged them, a short is paid them.
   */
  lemma TradeAtSettlement(cfg: Config, s: State, settlement: Settlement, entry: Entry, sats: int)
    requires Sorted(s.running) && entry in s.running && ApplyFunding(cfg, s, settlement).Ok?
    requires NearestWhole(FundingValue(entry.trade.quantity, settlement), sats)
    ensures var s', trade := ApplyFunding(cfg, s, settlement).value, entry.trade;
      var charge := if trade.side == Buy then sats else -sats;
      var left := trade.margin - charge;
      var forced := charge > 0 && (left < cfg.sdk.minMargin
                                   || cfg.sdk.leverageOf(trade.quantity, left, trade.price).TooHigh?);
      && (forall price: Price ::
            ClosedIn(NewlyClosed(s, s'), trade, price) <==> forced && price == BoundedPrice(s.marketPrice))
      && (RunsIn(s'.running, trade) <==> !forced)
      && (charge <= 0 ==> entry in s'.running)
      && (charge > 0 && !forced ==>
            var evaluated := cfg.sdk.leverageOf(trade.quantity, left, trade.price);
            var leverage := if evaluated.Valid? then evaluated.leverage else cfg.sdk.minLeverage;
            entry.(trade := trade.(margin := left, leverage := leverage,
                                   liquidation := cfg.sdk.liquidationOf(trade.side, trade.quantity, trade.price, leverage)))
            in s'.running)
  {
    hide StepBooks, ClosedIn, RunsIn, Sorted, ApplyFunding, BoundedPrice, FundingValue, NearestWhole;
    FundingOutcome(cfg, s, settlement);
    assert NearestInt(FundingValue(entry.trade.quantity, settlement)) == sats;
    TradeInStep(cfg, FundingPass(settlement, s.marketPrice), s, ApplyFunding(cfg, s, settlement).value, entry);
  }

  /** The account with one running trade at a settlement: every satoshi charged or paid is in the margin or the balance. */
  lemma AccountAtSettlement(cfg: Config, s: State, settlement: Settlement, entry: Entry, sats: int)
    requires s.running == [entry] && ApplyFunding(cfg, s, settlement).Ok?
    requires NearestWhole(FundingValue(entry.trade.quantity, settlement), sats)
    ensures var s', trade := ApplyFunding(cfg, s, settlement).value, entry.trade;
      var charge := if trade.side == Buy then sats else -sats;
      && s'.fundingFees == s.fundingFees + charge
      && (if s'.running == [] then
            var closed := ClosedAt(cfg, trade, BoundedPrice(s.marketPrice));
            s'.closed == s.closed + [closed] && s'.balance == s.balance + Payout(closed) - charge
          else
            && s'.closed == s.closed && |s'.running| == 1
            && s'.running[0].trade.margin == trade.margin - Max(0, charge)
            && s'.balance == s.balance + Max(0, -charge))
  {
    hide StepBooks, ApplyFunding, BoundedPrice, FundingValue, NearestWhole, Payout, PlAt;
    FundingOutcome(cfg, s, settlement);
    assert NearestInt(FundingValue(entry.trade.quantity, settlement)) == sats;
    StepBooksMeans(cfg, FundingPass(settlement, s.marketPrice), s, ApplyFunding(cfg, s, settlement).value);
    OfOne(cfg, FundingPass(settlement, s.marketPrice), entry);
  }

  // ----- Opening a trade and adding to its margin

  /** The stop a new trade gets: none, the given price, or a percentage behind the market, rounded to a tick. */
  function FirstStop(stoploss: Option<Stoploss>, side: Side, market: Price): Option<int> {
    match stoploss
    case None => None
    case Some(Fixed(price)) => Some(price)
    case Some(Trailing(tsl)) => Some(RoundTick(if side == Buy then MovedDown(market, tsl) else MovedUp(market, tsl)))
  }

  /** That stop exists: a trailing percentage is at least a step and puts it within the price bounds. */
  predicate StopIsPossible(cfg: Config, stoploss: Option<Stoploss>, side: Side, market: Price) {
    match stoploss
    case Some(Trailing(tsl)) => cfg.step <= tsl && InTicks(FirstStop(stoploss, side, market).value)
    case _ => true
  }

  lemma StopIsEvaluated(cfg: Config, stoploss: Option<Stoploss>, side: Side, market: Price)
    ensures var r := EvaluateStoploss(cfg, stoploss, side, market);
      && (r.Ok? <==> StopIsPossible(cfg, stoploss, side, market))
      && (r.Ok? ==>
            && r.value.0 == FirstStop(stoploss, side, market)
            && r.value.1 == if stoploss.Some? && stoploss.value.Trailing? then Some(stoploss.value.tsl) else None)
  {
    hide ApplyGain, ApplyDiscount, MovedUp, MovedDown, RoundTick;
    match stoploss
    case Some(Trailing(tsl)) =>
      GainMovesUp(market, tsl);
      DiscountMovesDown(market, tsl);
    case _ =>
  }

  /** An order makes a trade exactly if the market rounds to a price, its stop is possible and the exchange takes it. */
  lemma OrderMakesTradeIff(cfg: Config, s: State, order: Order)
    ensures var market := BoundedPrice(s.marketPrice);
      var stop := FirstStop(order.stoploss, order.side, market);
      OrderedEntry(cfg, s, order).Ok? <==>
        && InTicks(RoundTick(s.marketPrice)) && StopIsPossible(cfg, order.stoploss, order.side, market)
        && (stop.Some? ==> InTicks(stop.value))
        && cfg.sdk.openParams(order.side, order.size, order.leverage, market,
                              if stop.Some? then Some(Min(MAX_TICK, Max(MIN_TICK, stop.value))) else None,
                              order.takeprofit, cfg.feePerc).Some?
  {
    hide EvaluateStoploss, StopIsPossible, FirstStop, RoundTick;
    StopIsEvaluated(cfg, order.stoploss, order.side, BoundedPrice(s.marketPrice));
  }

  lemma MarketIsBounded(x: real)
    requires RoundPrice(x).Ok?
    ensures RoundPrice(x).value == BoundedPrice(x)
  {
  }

  /** A trade opens at the rounded market price and the time of the clock, with what was ordered and what the exchange computes. */
  lemma OpeningOutcome(cfg: Config, s: State, order: Order)
    requires CreateRunning(cfg, s, order).Ok? && OrderedEntry(cfg, s, order).Ok?
    ensures var s', entry := CreateRunning(cfg, s, order).value, OrderedEntry(cfg, s, order).value;
      var trade, market := entry.trade, BoundedPrice(s.marketPrice);
      && trade.id == order.id && trade.side == order.side && trade.leverage == order.leverage
      && trade.entryTime == s.time && trade.price == market && trade.takeprofit == order.takeprofit
      && cfg.sdk.openParams(order.side, order.size, order.leverage, market, trade.stoploss, order.takeprofit, cfg.feePerc)
         == Some(OpenParams(trade.quantity, trade.margin, trade.liquidation, trade.openingFee, trade.closingFeeReserved))
      && trade.stoploss == FirstStop(order.stoploss, order.side, market)
      && entry.tsl == (match order.stoploss case Some(Trailing(tsl)) => Some(tsl) case _ => None)
      && s'.running == Insert(s.running, entry) && s'.lastTradeTime == Some(s.time)
      && s'.balance == s.balance - trade.margin - 2 * trade.openingFee - trade.closingFeeReserved
      && s' == s.(running := s'.running, balance := s'.balance, trigger := s'.trigger, lastTradeTime := s'.lastTradeTime)
  {
    hide EvaluateStoploss, RoundPrice, BoundedPrice, Insert, Trigger.Update, FirstStop, StopIsPossible;
    MarketIsBounded(s.marketPrice);
    StopIsEvaluated(cfg, order.stoploss, order.side, BoundedPrice(s.marketPrice));
  }

  /** An order that makes a trade is filled exactly if the balance, the number of trades and the trigger allow it. */
  lemma OpenSucceedsIff(cfg: Config, s: State, order: Order)
    requires OrderedEntry(cfg, s, order).Ok?
    ensures var entry := OrderedEntry(cfg, s, order).value;
      var trade, r := entry.trade, CreateRunning(cfg, s, order);
      var checked := trade.margin + trade.openingFee + trade.closingFeeReserved <= s.balance
                     && |s.running| + 1 <= cfg.maxRunning;
      && (PassesChecks(cfg, s, order) <==> checked)
      && (r.Ok? <==> checked && HasTrigger(cfg, entry))
      && (r == Err(BalanceTooLow) <==> trade.margin + trade.openingFee + trade.closingFeeReserved > s.balance)
  {
    hide OrderedEntry, HasTrigger, Insert;
    var entry := OrderedEntry(cfg, s, order).value;
    HasTriggerIff(cfg, entry, s.trigger);
    TriggerErrors(cfg, entry, s.trigger);
  }

  lemma TriggerErrors(cfg: Config, entry: Entry, trigger: Trigger)
    ensures trigger.Update(cfg, entry) != Err(BalanceTooLow)
  {
    hide RoundTick, RoundTickUp, RoundTickDown;
  }

  /** Added margin goes from the balance to the first trade with the id, with what the exchange computes for it. */
  lemma AddMarginOutcome(cfg: Config, s: State, id: int, amount: nat)
    ensures var r, i := AddMargin(cfg, s, id, amount), IndexOf(s.running, id);
      && (r.Ok? <==> && amount <= s.balance && i < |s.running|
                     && cfg.sdk.addedMargin(s.running[i].trade.side, s.running[i].trade.quantity,
                                            s.running[i].trade.price, s.running[i].trade.margin, amount).Some?)
      && (r.Ok? ==>
            var trade, after := s.running[i].trade, r.value;
            && |after.running| == |s.running|
            && (forall j: nat | j < |s.running| && j != i :: after.running[j] == s.running[j])
            && after.running[i].tsl == s.running[i].tsl
            && cfg.sdk.addedMargin(trade.side, trade.quantity, trade.price, trade.margin, amount)
               == Some(AddedMargin(after.running[i].trade.margin, after.running[i].trade.leverage,
                                   after.running[i].trade.liquidation))
            && after.running[i].trade == trade.(margin := after.running[i].trade.margin,
                                                leverage := after.running[i].trade.leverage,
                                                liquidation := after.running[i].trade.liquidation)
            && after == s.(running := after.running, balance := s.balance - amount))
  {
  }

  // ----- Cross orders

  /** A cross order is placed at the rounded market price, now, exactly if that is a price and the position takes it. */
  lemma CrossOrderOutcome(cfg: Config, s: State, side: Side, quantity: Quantity)
    ensures var r := CrossOrder(cfg, s, side, quantity);
      var placed := s.cross.WithMarketOrder(cfg.sdk, BoundedPrice(s.marketPrice), side, quantity, cfg.feePerc);
      && (r.Ok? <==> InTicks(RoundTick(s.marketPrice)) && placed.Ok?)
      && (r.Ok? ==> r.value == s.(cross := placed.value, lastTradeTime := Some(s.time)))
  {
    hide CrossPosition.WithMarketOrder, RoundTick;
  }

  /** A running cross position is closed at the rounded market price, now; there is nothing to do for a flat one. */
  lemma CrossCloseOutcome(cfg: Config, s: State)
    ensures var r, market := CrossClose(cfg, s), BoundedPrice(s.marketPrice);
      if s.cross.exposure.Neutral? then r == Ok(s)
      else
        && (r.Ok? <==> InTicks(RoundTick(s.marketPrice)))
        && (r.Ok? ==> r.value == s.(cross := Flattened(cfg, s.cross, market), lastTradeTime := Some(s.time)))
  {
    hide CrossPosition.Close, Flattened, RoundTick;
    if s.cross.exposure.Running? {
      CloseFlattens(cfg, s.cross, BoundedPrice(s.marketPrice));
    }
  }

  // ----- Moving collateral

  /** The cross position with another margin and leverage. */
  function Remade(cfg: Config, p: CrossPosition, margin: nat, leverage: real): CrossPosition {
    var e := p.exposure;
    p.(margin := margin, leverage := leverage,
       exposure := if e.Neutral? then e else
                     e.(runningMargin := cfg.sdk.runningMargin(leverage, e.quantity, e.entry),
                        maintenanceMargin := cfg.sdk.maintenanceMargin(leverage, e.quantity, e.entry),
                        liquidation := cfg.sdk.crossLiquidation(margin, leverage, e.side, e.quantity, e.entry)))
  }

  /**
   Whether a margin and a leverage hold a position at a market: they are valid for it, the margin is
   above what the position requires, and the market has not passed the liquidation they give.
   */
  predicate Holds(cfg: Config, p: CrossPosition, margin: int, leverage: real, market: Price) {
    var e := p.exposure;
    e.Neutral? ||
    (&& cfg.sdk.exposureValid(leverage, e.side, e.quantity, e.entry)
     && margin >= MarginFloor(cfg.sdk, leverage, e.quantity, e.entry)
     && margin > cfg.sdk.maintenanceMargin(leverage, e.quantity, e.entry)
                 + Max(cfg.sdk.runningMargin(leverage, e.quantity, e.entry), Loss(p, market))
     && var liquidation := cfg.sdk.crossLiquidation(margin, leverage, e.side, e.quantity, e.entry);
        if e.side == Buy then market > liquidation else market < liquidation)
  }

  lemma RemadeIff(cfg: Config, s: State, margin: nat, leverage: real, balance: int)
    ensures var p, market := s.cross, BoundedPrice(s.marketPrice);
      var made := Make(cfg.sdk, margin, leverage, p.exposure.AsParams(), p.tradingFees, p.sessionFundingFees,
                       p.realizedPl);
      && (made.Ok? && IfCoherent(s, made.value, balance).Ok? <==> Holds(cfg, p, margin, leverage, market))
      && (made.Ok? ==> made.value == Remade(cfg, p, margin, leverage))
  {
    hide BoundedPrice, CrossPosition.RunningPl, CrossPosition.EstFreeMargin, PlOf, EstimatePl;
    var market := BoundedPrice(s.marketPrice);
    var made := Remade(cfg, s.cross, margin, leverage);
    FreeMarginIsExcess(made, market);
  }

  /** Collateral comes in exactly if the balance has it and the position is held with it. */
  lemma DepositIff(cfg: Config, s: State, amount: nat)
    ensures var r, p := Deposit(cfg, s, amount), s.cross;
      && (r.Ok? <==> amount <= s.balance
                     && Holds(cfg, p, p.margin + amount, p.leverage, BoundedPrice(s.marketPrice)))
      && (r.Ok? ==> r.value == s.(cross := Remade(cfg, p, p.margin + amount, p.leverage), balance := s.balance - amount))
  {
    hide BoundedPrice, Holds, CrossPosition.IsCoherent, Remade;
    RemadeIff(cfg, s, s.cross.margin + amount, s.cross.leverage, s.balance - amount);
  }

  /** Collateral goes out exactly if the position is held without it. */
  lemma WithdrawIff(cfg: Config, s: State, amount: nat)
    requires WellFormed(cfg.sdk, s.cross)
    ensures var r, p := Withdraw(cfg, s, amount), s.cross;
      && (r.Ok? <==> amount <= p.margin
                     && Holds(cfg, p, p.margin - amount, p.leverage, BoundedPrice(s.marketPrice)))
      && (r.Ok? ==> r.value == s.(cross := Remade(cfg, p, p.margin - amount, p.leverage), balance := s.balance + amount))
  {
    hide BoundedPrice, CrossPosition.IsCoherent, Remade, CrossPosition.EstFreeMargin, PlOf;
    var p := s.cross;
    FreeMarginIsExcess(p, BoundedPrice(s.marketPrice));
    if amount <= p.margin {
      RemadeIff(cfg, s, p.margin - amount, p.leverage, s.balance + amount);
    }
  }

  /** The leverage changes exactly if the position is held with the new one. */
  lemma SetLeverageIff(cfg: Config, s: State, leverage: real)
    ensures var r, p := SetLeverage(cfg, s, leverage), s.cross;
      && (r.Ok? <==> Holds(cfg, p, p.margin, leverage, BoundedPrice(s.marketPrice)))
      && (r.Ok? ==> r.value == s.(cross := Remade(cfg, p, p.margin, leverage)))
  {
    hide BoundedPrice, Holds, CrossPosition.IsCoherent, Remade;
    RemadeIff(cfg, s, s.cross.margin, leverage, s.balance);
  }
}
