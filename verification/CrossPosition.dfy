/** The simulated cross-margin position: every method returns a new position. */
module CrossPosition {
  import opened Basics
  import opened Market
  import opened Pricing

  datatype Params = Params(side: Side, quantity: Quantity, entry: Price)

  datatype Exposure =
    | Neutral
    | Running(side: Side, quantity: Quantity, entry: Price,
              runningMargin: nat, maintenanceMargin: nat, liquidation: Price)
  {
    function AsParams(): Option<Params> {
      if Neutral? then None else Some(Params(side, quantity, entry))
    }
  }

  /** The least margin with which a running exposure is valid. */
  function MarginFloor(sdk: Sdk, leverage: real, quantity: Quantity, entry: Price): nat {
    sdk.runningMargin(leverage, quantity, entry) + sdk.maintenanceMargin(leverage, quantity, entry) + 1
  }

  /** `CrossExposure::new`: a running exposure needs a valid shape and the margin floor. */
  function NewExposure(sdk: Sdk, margin: nat, leverage: real, params: Option<Params>): Result<Exposure> {
    match params
    case None => Ok(Neutral)
    case Some(Params(side, quantity, entry)) =>
      if !sdk.exposureValid(leverage, side, quantity, entry)
         || margin < MarginFloor(sdk, leverage, quantity, entry)
      then Err(CrossExposureValidation)
      else Ok(Running(side, quantity, entry,
                      sdk.runningMargin(leverage, quantity, entry),
                      sdk.maintenanceMargin(leverage, quantity, entry),
                      sdk.crossLiquidation(margin, leverage, side, quantity, entry)))
  }

  /** Adds a signed amount to the margin, clamping at zero. */
  function ApplyAmount(margin: nat, amount: int): nat {
    Max(0, margin + amount)
  }

  /** Funding in satoshis, before the side and before rounding. */
  function RawFunding(quantity: Quantity, settlement: Settlement): real {
    quantity as real / settlement.fixingPrice * settlement.fundingRate * SATS_PER_BTC
  }

  function FundingFee(side: Side, quantity: Quantity, settlement: Settlement): int {
    RoundAway(SideSign(side) * RawFunding(quantity, settlement))
  }

  datatype Funded = Funded(position: CrossPosition, fee: int, forcedFlat: bool)

  datatype CrossPosition = CrossPosition(
    margin: nat, leverage: real, exposure: Exposure,
    tradingFees: nat, sessionFundingFees: int, realizedPl: int)
  {
    /** Signed quantity: positive for long, negative for short, zero when flat. */
    function SignedQuantity(): int {
      match exposure
      case Neutral => 0
      case Running(side, quantity, _, _, _, _) => Signed(side, quantity)
    }

    /** Running P/L before it is floored to satoshis. */
    function RunningPl(market: Price): real {
      match exposure
      case Neutral => 0.0
      case Running(side, quantity, entry, _, _, _) => EstimatePl(side, quantity, entry, market)
    }

    function RunningMargin(): nat {
      if exposure.Neutral? then 0 else exposure.runningMargin
    }

    function MaintenanceMargin(): nat {
      if exposure.Neutral? then 0 else exposure.maintenanceMargin
    }

    function EstFreeMargin(market: Price): nat {
      var loss := Max(0, -RunningPl(market).Floor);
      var excessLoss := Max(0, loss - RunningMargin());
      Max(0, Max(0, Max(0, margin - RunningMargin()) - MaintenanceMargin()) - excessLoss)
    }

    predicate IsCoherent(market: Price) {
      match exposure
      case Neutral => true
      case Running(side, _, _, _, _, liquidation) =>
        && (if side == Buy then market > liquidation else market < liquidation)
        && EstFreeMargin(market) > 0
    }

    function WithMargin(sdk: Sdk, newMargin: nat): Result<CrossPosition> {
      Make(sdk, newMargin, leverage, exposure.AsParams(), tradingFees, sessionFundingFees, realizedPl)
    }

    function WithLeverage(sdk: Sdk, newLeverage: real): Result<CrossPosition> {
      Make(sdk, margin, newLeverage, exposure.AsParams(), tradingFees, sessionFundingFees, realizedPl)
    }

    predicate LiquidationReached(candle: Candle) {
      match exposure
      case Neutral => false
      case Running(side, _, _, _, _, liquidation) =>
        if side == Buy then candle.low <= Dollars(liquidation) else candle.high >= Dollars(liquidation)
    }

    function Liquidate(sdk: Sdk, feePerc: PercentageCapped): CrossPosition {
      if exposure.Running? then Close(sdk, exposure.liquidation, feePerc) else this
    }

    /** Books the whole P/L and the closing fee in one adjustment of the margin. */
    function Close(sdk: Sdk, price: Price, feePerc: PercentageCapped): CrossPosition {
      if exposure.Neutral? then this else
        var fee := sdk.orderFee(feePerc, exposure.quantity, price);
        var pl := EstimatePl(exposure.side, exposure.quantity, exposure.entry, price).Floor;
        CrossPosition(ApplyAmount(margin, pl - fee), leverage, Neutral,
                      tradingFees + fee, sessionFundingFees, realizedPl + pl)
    }

    function ForceClose(sdk: Sdk, market: Price, fundingFee: int, feePerc: PercentageCapped): Funded {
      var closed := Close(sdk, market, feePerc);
      Funded(closed.(margin := ApplyAmount(closed.margin, -fundingFee),
                     sessionFundingFees := sessionFundingFees + fundingFee),
             fundingFee, true)
    }

    /** Pays or receives funding, flattening the position when it could no longer be held. */
    function ApplyFunding(sdk: Sdk, marketPrice: real, settlement: Settlement, feePerc: PercentageCapped): Funded {
      if exposure.Neutral? then Funded(this, 0, false) else
        var market := BoundedPrice(marketPrice);
        var fee := FundingFee(exposure.side, exposure.quantity, settlement);
        if fee > 0 && fee >= EstFreeMargin(market) then ForceClose(sdk, market, fee, feePerc) else
          match Make(sdk, ApplyAmount(margin, -fee), leverage, exposure.AsParams(),
                     tradingFees, sessionFundingFees + fee, realizedPl)
          case Err(_) => ForceClose(sdk, market, fee, feePerc)
          case Ok(position) =>
            if position.IsCoherent(market) then Funded(position, fee, false)
            else ForceClose(sdk, market, fee, feePerc)
    }

    /** Executes a market order against the position: open, increase, reduce, close or reverse. */
    function WithMarketOrder(sdk: Sdk, market: Price, side: Side, quantity: Quantity,
                             feePerc: PercentageCapped): Result<CrossPosition>
    {
      if exposure.Running? && exposure.side != side && exposure.quantity == quantity then
        Ok(Close(sdk, market, feePerc))
      else
        var fee := sdk.orderFee(feePerc, quantity, market);
        var afterFee := ApplyAmount(margin, -(fee as int));
        var fees := tradingFees + fee;
        match exposure
        case Neutral =>
          Make(sdk, afterFee, leverage, Some(Params(side, quantity, market)), fees, sessionFundingFees, realizedPl)
        case Running(currSide, currQuantity, currEntry, _, _, _) =>
          if currSide == side then
            if currQuantity + quantity > sdk.maxCrossQuantity then Err(CrossQuantityValidation) else
              var entry := AggregateEntryPrice(currQuantity, currEntry, quantity, market);
              Make(sdk, afterFee, leverage, Some(Params(side, currQuantity + quantity, entry)),
                   fees, sessionFundingFees, realizedPl)
          else if quantity > currQuantity then
            // a reversal books the old position and starts the residual side at the market
            var pl := EstimatePl(currSide, currQuantity, currEntry, market).Floor;
            Make(sdk, ApplyAmount(afterFee, pl), leverage, Some(Params(side, quantity - currQuantity, market)),
                 fees, sessionFundingFees, realizedPl + pl)
          else
            var remaining: Quantity := currQuantity - quantity;
            var pl := EstimatePl(currSide, quantity, currEntry, market).Floor;
            if pl >= 0 then
              Make(sdk, ApplyAmount(afterFee, pl), leverage, Some(Params(currSide, remaining, currEntry)),
                   fees, sessionFundingFees, realizedPl + pl)
            else
              // a losing reduction carries the loss in the remaining entry price
              var entry := PriceFromInverse(CarriedInverse(currSide, currQuantity, currEntry, remaining, market));
              Make(sdk, afterFee, leverage, Some(Params(currSide, remaining, entry)),
                   fees, sessionFundingFees, realizedPl)
    }
  }

  /** The inverse entry that puts the whole running P/L on the remaining quantity. */
  function CarriedInverse(side: Side, quantity: Quantity, entry: Price, remaining: Quantity, market: Price): real {
    var perUnit := EstimatePl(side, quantity, entry, market) / remaining as real;
    if side == Buy then Inverse(market) + perUnit else Inverse(market) - perUnit
  }

  function Make(sdk: Sdk, margin: nat, leverage: real, params: Option<Params>,
                tradingFees: nat, sessionFundingFees: int, realizedPl: int): Result<CrossPosition>
  {
    match NewExposure(sdk, margin, leverage, params)
    case Err(error) => Err(error)
    case Ok(exposure) => Ok(CrossPosition(margin, leverage, exposure, tradingFees, sessionFundingFees, realizedPl))
  }

  function InitialCross(minLeverage: real): CrossPosition {
    CrossPosition(0, minLeverage, Neutral, 0, 0, 0)
  }

  // ----- The estimators

  function EstEntryPrice(p: CrossPosition, side: Side, quantity: Quantity, market: Price): Price {
    if p.exposure.Neutral? || p.exposure.side != side then market
    else
      var current := p.exposure.quantity;
      if quantity > current then AggregateEntryPrice(current, p.exposure.entry, quantity - current, market)
      else if quantity == current then p.exposure.entry
      else
        var reduced: Quantity := current - quantity;
        if EstimatePl(side, reduced, p.exposure.entry, market).Floor >= 0 then p.exposure.entry
        else PriceFromInverse(CarriedInverse(side, current, p.exposure.entry, quantity, market))
  }

  function EstMargin(p: CrossPosition, side: Side, quantity: Quantity, market: Price): int {
    if p.exposure.Neutral? then p.margin
    else if p.exposure.side != side then
      p.margin + EstimatePl(p.exposure.side, p.exposure.quantity, p.exposure.entry, market).Floor
    else if quantity >= p.exposure.quantity then p.margin
    else
      var reduced: Quantity := p.exposure.quantity - quantity;
      var pl := EstimatePl(side, reduced, p.exposure.entry, market).Floor;
      if pl >= 0 then p.margin + pl else p.margin
  }

  function Signed(side: Side, quantity: Quantity): int {
    if side == Buy then quantity as int else -(quantity as int)
  }

  function EstOrderFee(sdk: Sdk, p: CrossPosition, side: Side, quantity: Quantity, market: Price,
                       feePerc: PercentageCapped): Option<nat>
  {
    var order := Abs(Signed(side, quantity) - p.SignedQuantity());
    if order == 0 then Some(0)
    else if order > sdk.maxCrossQuantity then None
    else Some(sdk.orderFee(feePerc, order, market))
  }

  /** The collateral to deposit (or, if negative, to withdraw) to hold the target exposure. */
  function EstCollateralDiff(sdk: Sdk, p: CrossPosition, side: Side, quantity: Quantity, market: Price,
                             newLiquidation: Price, feePerc: PercentageCapped): Option<int>
  {
    var entry := EstEntryPrice(p, side, quantity, market);
    var floor := MarginFloor(sdk, p.leverage, quantity, entry);
    if !sdk.exposureValid(p.leverage, side, quantity, entry) || sdk.maxMargin < floor then None else
      match EstOrderFee(sdk, p, side, quantity, market, feePerc)
      case None => None
      case Some(fee) =>
        var margin := EstMargin(p, side, quantity, market) - fee;
        var netValue := margin + EstimatePl(side, quantity, entry, market).Floor;
        match sdk.marginFromLiquidation(side, quantity, market, newLiquidation)
        case None => None
        case Some(fromLiquidation) =>
          var target := fromLiquidation + sdk.maintenanceMargin(p.leverage, quantity, entry);
          Some(Max(target - netValue, floor - margin))
  }
}
