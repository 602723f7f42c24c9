/** Isolated trades, their trailing stops, and the price trigger that summarises them. */
module Trades {
  import opened Basics
  import opened Market
  import opened Pricing
  import opened CrossPosition

  datatype Config = Config(sdk: Sdk, maxRunning: nat, feePerc: PercentageCapped, step: PercentageCapped)

  datatype Stoploss = Fixed(price: Price) | Trailing(tsl: PercentageCapped)

  datatype Trade = Trade(
    id: int, side: Side, openingFee: nat, closingFeeReserved: nat, quantity: Quantity,
    margin: nat, leverage: real, price: Price, liquidation: Price,
    stoploss: Option<Price>, takeprofit: Option<Price>, entryTime: int)
  {
    function MaintenanceMargin(): nat {
      openingFee + closingFeeReserved
    }

    function ToClosed(cfg: Config, closePrice: Price): ClosedTrade {
      ClosedTrade(this, closePrice, cfg.sdk.orderFee(cfg.feePerc, quantity, closePrice))
    }

    function WithNewStoploss(cfg: Config, market: Price, newStoploss: Price): Result<Trade> {
      if cfg.sdk.stoplossValid(side, liquidation, takeprofit, market, newStoploss)
      then Ok(this.(stoploss := Some(newStoploss)))
      else Err(TradeValidation)
    }

    function WithAddedMargin(cfg: Config, amount: nat): Result<Trade> {
      match cfg.sdk.addedMargin(side, quantity, price, margin, amount)
      case None => Err(TradeValidation)
      case Some(AddedMargin(newMargin, newLeverage, newLiquidation)) =>
        Ok(this.(margin := newMargin, leverage := newLeverage, liquidation := newLiquidation))
    }

    /**
     A positive fee is paid out of the margin; `None` means the trade cannot be kept. A leverage
     below the minimum is clamped, one above the maximum is not.
     */
    function ApplyFunding(cfg: Config, settlement: Settlement): (Option<Trade>, int) {
      var fee := FundingFee(side, quantity, settlement);
      if fee <= 0 then (Some(this), fee)
      else if margin - fee < cfg.sdk.minMargin then (None, fee)
      else
        var newMargin: nat := Max(0, margin - fee);
        var leverageEval := cfg.sdk.leverageOf(quantity, newMargin, price);
        if leverageEval.TooHigh? then (None, fee) else
          var newLeverage := if leverageEval.TooLow? then cfg.sdk.minLeverage else leverageEval.leverage;
          (Some(this.(margin := newMargin, leverage := newLeverage,
                      liquidation := cfg.sdk.liquidationOf(side, quantity, price, newLeverage))),
           fee)
    }

    /** The price at which the trade is stopped: its stoploss, or else its liquidation. */
    function StopPrice(): Price {
      if stoploss.Some? then stoploss.value else liquidation
    }
  }

  datatype ClosedTrade = ClosedTrade(trade: Trade, closePrice: Price, closingFee: nat) {
    function Pl(): int {
      EstimatePl(trade.side, trade.quantity, trade.price, closePrice).Floor
    }

    /** What closing pays back into the balance. */
    function Proceeds(): int {
      trade.margin + trade.MaintenanceMargin() - closingFee + Pl()
    }

    function Fees(): nat {
      trade.openingFee + closingFee
    }
  }

  /** A running trade with its trailing stop percentage, if any. */
  datatype Entry = Entry(trade: Trade, tsl: Option<PercentageCapped>)

  function NewTrade(cfg: Config, id: int, side: Side, size: TradeSize, leverage: real, time: int,
                    price: Price, stoploss: Option<Price>, takeprofit: Option<Price>): Result<Trade>
  {
    match cfg.sdk.openParams(side, size, leverage, price, stoploss, takeprofit, cfg.feePerc)
    case None => Err(TradeValidation)
    case Some(OpenParams(quantity, margin, liquidation, openingFee, closingFeeReserved)) =>
      Ok(Trade(id, side, openingFee, closingFeeReserved, quantity, margin, leverage, price,
               liquidation, stoploss, takeprofit, time))
  }

  // ----- Trailing stops

  function EvaluateStoploss(cfg: Config, stoploss: Option<Stoploss>, side: Side, market: Price)
    : Result<(Option<Price>, Option<PercentageCapped>)>
  {
    match stoploss
    case None => Ok((None, None))
    case Some(Fixed(price)) => Ok((Some(price), None))
    case Some(Trailing(tsl)) =>
      if cfg.step > tsl then Err(StoplossEvaluation) else
        var initial :- if side == Buy then ApplyDiscount(market, tsl) else ApplyGain(market, tsl);
        Ok((Some(initial), Some(tsl)))
  }

  /** The current stop moved one step in the favourable direction. */
  function SteppedStop(step: PercentageCapped, side: Side, stop: Price): Result<Price> {
    if side == Buy then ApplyGain(stop, step) else ApplyDiscount(stop, step)
  }

  /** The stop a trailing percentage puts behind an extreme price. */
  function TrailFrom(side: Side, extreme: Price, tsl: PercentageCapped): Result<Price> {
    if side == Buy then ApplyDiscount(extreme, tsl) else ApplyGain(extreme, tsl)
  }

  /** The price that must be reached before the trailing stop moves, by division. */
  function NextTrigger(cfg: Config, trade: Trade, tsl: PercentageCapped): Result<Price> {
    if cfg.step > tsl || trade.stoploss.None? then Err(StoplossEvaluation) else
      var next :- SteppedStop(cfg.step, trade.side, trade.stoploss.value);
      if trade.side == Buy then
        // an infinite quotient fails rounding
        if tsl == 100.0 then Err(InvalidPrice) else RoundPriceUp(Dollars(next) / (1.0 - tsl / 100.0))
      else
        RoundPriceDown(Dollars(next) / (1.0 + tsl / 100.0))
  }

  /** The prices between which the trade needs no attention. */
  function Bounds(cfg: Config, entry: Entry): Result<(Price, Price)> {
    var trade := entry.trade;
    var none: Price := if trade.side == Buy then MAX_TICK else MIN_TICK;
    var next :- if entry.tsl.None? then Ok(none) else NextTrigger(cfg, trade, entry.tsl.value);
    var takeprofit: Price := if trade.takeprofit.None? then none else trade.takeprofit.value;
    if trade.side == Buy
    then Ok((trade.StopPrice(), Min(takeprofit, next)))
    else Ok((Max(takeprofit, next), trade.StopPrice()))
  }

  datatype Trigger = NotSet | Set(min: Price, max: Price) {
    function Update(cfg: Config, entry: Entry): Result<Trigger> {
      var (lo, hi) :- Bounds(cfg, entry);
      if NotSet? then Ok(Set(lo, hi)) else Ok(Set(Max(lo, min), Min(hi, max)))
    }

    predicate WasReached(price: real) {
      Set? && (price <= Dollars(min) || price >= Dollars(max))
    }
  }

  // ----- Re-evaluating one trade against a candle

  datatype Scan = Close(price: Price) | Keep(trade: Trade)

  /** The new trailing stop, or the trade unchanged when the candle did not reach the trigger. */
  function Trail(cfg: Config, candle: Candle, trade: Trade, tsl: PercentageCapped): Result<Trade> {
    var trigger :- NextTrigger(cfg, trade, tsl);
    var market :- RoundPrice(candle.close);
    var extreme :- RoundPrice(if trade.side == Buy then candle.high else candle.low);
    if (if trade.side == Buy then extreme < trigger else extreme > trigger) then Ok(trade) else
      var stop :- TrailFrom(trade.side, extreme, tsl);
      if (if trade.side == Buy then stop < market else stop > market)
      then trade.WithNewStoploss(cfg, market, stop)
      else Ok(trade)
  }

  /** The lower of stop and target is looked at first, then the higher, then the trailing stop. */
  function ScanEntry(cfg: Config, candle: Candle, entry: Entry): Result<Scan> {
    var trade := entry.trade;
    var lo := if trade.side == Buy then Some(trade.StopPrice()) else trade.takeprofit;
    var hi := if trade.side == Buy then trade.takeprofit else Some(trade.StopPrice());
    if lo.Some? && candle.low <= Dollars(lo.value) then Ok(Close(lo.value))
    else if hi.Some? && candle.high >= Dollars(hi.value) then Ok(Close(hi.value))
    else if entry.tsl.None? then Ok(Keep(trade))
    else
      var kept :- Trail(cfg, candle, trade, entry.tsl.value);
      Ok(Keep(kept))
  }

  // ----- Laws of one trade

  /** `b` is at least as protective a stop as `a`. */
  predicate AtLeastAsTight(side: Side, a: Price, b: Price) {
    if side == Buy then a <= b else b <= a
  }

  lemma GainNeverLowers(p: Price, gain: Percentage)
    requires ApplyGain(p, gain).Ok?
    ensures p <= ApplyGain(p, gain).value
  {
    assert Dollars(p) * (1.0 + gain / 100.0) >= Dollars(p) by {
      assert Dollars(p) * (gain / 100.0) >= 0.0;
    }
    RoundTickMonotone(Dollars(p), Dollars(p) * (1.0 + gain / 100.0));
    RoundTickFixesTicks(p);
  }

  lemma DiscountNeverRaises(p: Price, discount: PercentageCapped)
    requires ApplyDiscount(p, discount).Ok?
    ensures ApplyDiscount(p, discount).value <= p
  {
    assert Dollars(p) * (1.0 - discount / 100.0) <= Dollars(p) by {
      assert Dollars(p) * (discount / 100.0) >= 0.0;
    }
    RoundTickMonotone(Dollars(p) * (1.0 - discount / 100.0), Dollars(p));
    RoundTickFixesTicks(p);
  }

  /** Reaching the trigger puts the trailed stop at least one full step ahead of the current stop. */
  lemma TriggerGuaranteesStep(cfg: Config, trade: Trade, tsl: PercentageCapped, extreme: Price)
    requires NextTrigger(cfg, trade, tsl).Ok?
    requires var trigger := NextTrigger(cfg, trade, tsl).value;
      if trade.side == Buy then extreme >= trigger else extreme <= trigger
    requires TrailFrom(trade.side, extreme, tsl).Ok?
    ensures var stepped := SteppedStop(cfg.step, trade.side, trade.stoploss.value).value;
      && AtLeastAsTight(trade.side, trade.stoploss.value, stepped)
      && AtLeastAsTight(trade.side, stepped, TrailFrom(trade.side, extreme, tsl).value)
  {
    var stop := trade.stoploss.value;
    var stepped := SteppedStop(cfg.step, trade.side, stop).value;
    if trade.side == Buy {
      GainNeverLowers(stop, cfg.step);
      TrailPastQuotient(stepped, extreme, tsl);
    } else {
      DiscountNeverRaises(stop, cfg.step);
      TrailBelowQuotient(stepped, extreme, tsl);
    }
  }

  /** `b` is `a` with at most its stop moved, and that only to trail closer. */
  predicate OnlyTightened(a: Entry, b: Entry) {
    b == a ||
    (&& a.tsl.Some? && a.trade.stoploss.Some? && b.trade.stoploss.Some?
     && b == a.(trade := a.trade.(stoploss := b.trade.stoploss))
     && AtLeastAsTight(a.trade.side, a.trade.stoploss.value, b.trade.stoploss.value))
  }

  lemma TrailOnlyTightens(cfg: Config, candle: Candle, entry: Entry)
    requires entry.tsl.Some? && Trail(cfg, candle, entry.trade, entry.tsl.value).Ok?
    ensures OnlyTightened(entry, entry.(trade := Trail(cfg, candle, entry.trade, entry.tsl.value).value))
  {
    hide RoundPrice, SteppedStop, TrailFrom;
    var trade, tsl := entry.trade, entry.tsl.value;
    if Trail(cfg, candle, trade, tsl).value != trade {
      TriggerGuaranteesStep(cfg, trade, tsl, RoundPrice(if trade.side == Buy then candle.high else candle.low).value);
    }
  }

  lemma TrailPastQuotient(stepped: Price, extreme: Price, tsl: PercentageCapped)
    requires tsl < 100.0
    requires extreme >= RoundTickUp(Dollars(stepped) / (1.0 - tsl / 100.0))
    requires ApplyDiscount(extreme, tsl).Ok?
    ensures stepped <= ApplyDiscount(extreme, tsl).value
  {
    var f := 1.0 - tsl / 100.0;
    RoundUpReaches(Dollars(stepped) / f, extreme);
    ScaleUp(Dollars(stepped), Dollars(extreme), f);
    RoundTickMonotone(Dollars(stepped), Dollars(extreme) * f);
    RoundTickFixesTicks(stepped);
  }

  lemma TrailBelowQuotient(stepped: Price, extreme: Price, tsl: PercentageCapped)
    requires extreme <= RoundTickDown(Dollars(stepped) / (1.0 + tsl / 100.0))
    requires ApplyGain(extreme, tsl).Ok?
    ensures ApplyGain(extreme, tsl).value <= stepped
  {
    var f := 1.0 + tsl / 100.0;
    RoundDownReaches(Dollars(stepped) / f, extreme);
    ScaleDown(Dollars(stepped), Dollars(extreme), f);
    RoundTickMonotone(Dollars(extreme) * f, Dollars(stepped));
    RoundTickFixesTicks(stepped);
  }

  lemma RoundUpReaches(x: real, t: int)
    ensures t >= RoundTickUp(x) <==> Dollars(t) >= x
  {
  }

  lemma RoundDownReaches(x: real, t: int)
    ensures t <= RoundTickDown(x) <==> Dollars(t) <= x
  {
  }

  lemma ScaleUp(x: real, y: real, f: real)
    requires f > 0.0 && y >= x / f
    ensures y * f >= x
  {
    assert (y - x / f) * f >= 0.0;
    assert x / f * f == x;
  }

  lemma ScaleDown(x: real, y: real, f: real)
    requires f > 0.0 && y <= x / f
    ensures y * f <= x
  {
    assert (x / f - y) * f >= 0.0;
    assert x / f * f == x;
  }
}
