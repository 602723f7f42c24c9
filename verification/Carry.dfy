/** The cross-carry operator's hedge adjustment: deposit what the estimator asks for, then order. */
module Carry {
  import opened Basics
  import opened Pricing
  import opened CrossPosition
  import opened CrossLaws
  import opened Trades
  import opened Executor
  import Spec = ExecutorSpec

  datatype CarryConfig = CarryConfig(
    rebalanceThreshold: PercentageCapped, estimatedFee: PercentageCapped, maxOrderQuantity: Quantity)

  datatype HedgeImbalance = HedgeImbalance(
    orderSide: Side, orderQuantity: Quantity, neededDeposit: Option<nat>, balance: nat)

  /** `None` inside `Some` means the hedge is close enough; an outer `None` that it cannot be priced. */
  function CheckHedge(config: CarryConfig, sdk: Sdk, balance: nat, p: CrossPosition, market: Price,
                      targetLiquidation: Price, targetHedge: Quantity): Option<Option<HedgeImbalance>>
  {
    var drift := targetHedge + p.SignedQuantity();
    if Abs(drift) as real <= targetHedge as real * config.rebalanceThreshold / 100.0 then Some(None) else
      assert drift != 0 by {
        assert targetHedge as real * config.rebalanceThreshold >= 0.0;
      }
      var side := if drift > 0 then Sell else Buy;
      var quantity: Quantity := Min(Abs(drift), config.maxOrderQuantity);
      match EstCollateralDiff(sdk, p, Sell, targetHedge, market, targetLiquidation, config.estimatedFee)
      case None => None
      case Some(diff) => Some(Some(HedgeImbalance(side, quantity, if diff > 0 then Some(diff) else None, balance)))
  }

  /** What the operator reads from the executor before it decides. */
  function Observe(config: CarryConfig, cfg: Config, s: Spec.State, targetLiquidation: Price,
                   targetHedge: Quantity): Option<Option<HedgeImbalance>>
  {
    CheckHedge(config, cfg.sdk, Max(0, s.balance), s.cross, BoundedPrice(s.marketPrice), targetLiquidation, targetHedge)
  }

  /** The order the check asks for is not capped, and its fee was not underestimated. */
  predicate WithinEstimate(config: CarryConfig, cfg: Config, s: Spec.State, targetHedge: Quantity) {
    var quantity := OrderQuantity(s.cross, Sell, targetHedge);
    && quantity <= config.maxOrderQuantity
    && targetHedge <= cfg.sdk.maxCrossQuantity
    && RoundPrice(s.marketPrice).Ok?
    && (quantity >= 1 ==>
          cfg.sdk.orderFee(cfg.feePerc, quantity, BoundedPrice(s.marketPrice))
          <= cfg.sdk.orderFee(config.estimatedFee, quantity, BoundedPrice(s.marketPrice)))
  }

  /** After the deposit the check asked for, if any, its order reaches the target hedge. */
  lemma HedgeOrderAccepted(config: CarryConfig, cfg: Config, s: Spec.State, s1: Spec.State,
                           targetLiquidation: Price, targetHedge: Quantity)
    requires Observe(config, cfg, s, targetLiquidation, targetHedge).Some?
    requires Observe(config, cfg, s, targetLiquidation, targetHedge).value.Some?
    requires WithinEstimate(config, cfg, s, targetHedge)
    requires var needed := Observe(config, cfg, s, targetLiquidation, targetHedge).value.value.neededDeposit;
      if needed.Some? then Spec.Deposit(cfg, s, needed.value) == Ok(s1) else s1 == s
    ensures var imbalance := Observe(config, cfg, s, targetLiquidation, targetHedge).value.value;
      var r := Spec.CrossOrder(cfg, s1, imbalance.orderSide, imbalance.orderQuantity);
      && r.Ok? && r.value.cross.SignedQuantity() == -(targetHedge as int)
      && HoldsFor(cfg.sdk, r.value.cross, BoundedPrice(s.marketPrice), targetLiquidation)
  {
    hide Abs, Signed, RoundTick, EstCollateralDiff, CrossPosition.WithMarketOrder, CrossPosition.IsCoherent, OrderSide,
         OrderQuantity, MarginFloor, Spec.Deposit, Observe, BoundedPrice, RoundPrice,
         HoldsFor;
    var market := BoundedPrice(s.marketPrice);
    ObservedOrder(config, cfg, s, targetLiquidation, targetHedge);
    RoundedMarket(s.marketPrice);
    var needed := Observe(config, cfg, s, targetLiquidation, targetHedge).value.value.neededDeposit;
    if needed.Some? {
      Deposited(cfg, s, needed.value);
    }
    DepositMakesOrderValid(cfg.sdk, s.cross, s1.cross, Sell, targetHedge, market, targetLiquidation,
                           config.estimatedFee, cfg.feePerc);
    SignedSale(targetHedge);
  }

  lemma SignedSale(quantity: Quantity)
    ensures Signed(Sell, quantity) == -(quantity as int)
  {
  }

  lemma RoundedMarket(price: real)
    ensures RoundPrice(price).Ok? ==> RoundPrice(price) == Ok(BoundedPrice(price))
  {
  }

  /** What a deposit leaves of the cross position. */
  lemma Deposited(cfg: Config, s: Spec.State, amount: nat)
    ensures var r := Spec.Deposit(cfg, s, amount);
      r.Ok? ==>
        && r.value.cross.margin == s.cross.margin + amount && r.value.cross.leverage == s.cross.leverage
        && r.value.cross.exposure.AsParams() == s.cross.exposure.AsParams()
        && r.value.marketPrice == s.marketPrice
  {
    hide MarginFloor, CrossPosition.IsCoherent, BoundedPrice;
  }

  /** What the check asks for is the order to the target, and the estimated collateral if positive. */
  lemma ObservedOrder(config: CarryConfig, cfg: Config, s: Spec.State, targetLiquidation: Price, targetHedge: Quantity)
    requires Observe(config, cfg, s, targetLiquidation, targetHedge).Some?
    requires Observe(config, cfg, s, targetLiquidation, targetHedge).value.Some?
    requires OrderQuantity(s.cross, Sell, targetHedge) <= config.maxOrderQuantity
    ensures var imbalance := Observe(config, cfg, s, targetLiquidation, targetHedge).value.value;
      var diff := EstCollateralDiff(cfg.sdk, s.cross, Sell, targetHedge, BoundedPrice(s.marketPrice), targetLiquidation,
                                    config.estimatedFee);
      && imbalance.orderSide == OrderSide(s.cross, Sell, targetHedge)
      && imbalance.orderQuantity == OrderQuantity(s.cross, Sell, targetHedge) >= 1
      && diff.Some? && (if diff.value > 0 then imbalance.neededDeposit == Some(diff.value)
                        else imbalance.neededDeposit == None)
  {
    hide EstCollateralDiff, BoundedPrice, CrossPosition.SignedQuantity;
  }

  /**
   When the check asks for nothing, when it cannot be priced, and what its order does: it takes its
   whole quantity off the drift of the hedge, up to the greatest order or until none is left.
   */
  lemma CheckHedgeIs(config: CarryConfig, sdk: Sdk, balance: nat, p: CrossPosition, market: Price,
                     targetLiquidation: Price, targetHedge: Quantity)
    ensures var r := CheckHedge(config, sdk, balance, p, market, targetLiquidation, targetHedge);
      var drift := targetHedge + p.SignedQuantity();
      var close := Abs(drift) as real * 100.0 <= targetHedge as real * config.rebalanceThreshold;
      && (r == Some(None) <==> close)
      && (r == None <==>
            !close && EstCollateralDiff(sdk, p, Sell, targetHedge, market, targetLiquidation, config.estimatedFee).None?)
      && (r.Some? && r.value.Some? ==>
            var imbalance := r.value.value;
            var after := drift + Signed(imbalance.orderSide, imbalance.orderQuantity);
            && imbalance.balance == balance
            && Abs(after) == Abs(drift) - imbalance.orderQuantity
            && (imbalance.orderQuantity == config.maxOrderQuantity || after == 0)
            && imbalance.orderQuantity <= config.maxOrderQuantity)
  {
    hide EstCollateralDiff, CrossPosition.SignedQuantity;
  }

  lemma ObservedBalance(config: CarryConfig, cfg: Config, s: Spec.State, targetLiquidation: Price, targetHedge: Quantity)
    requires Observe(config, cfg, s, targetLiquidation, targetHedge).Some?
    requires Observe(config, cfg, s, targetLiquidation, targetHedge).value.Some?
    ensures var imbalance := Observe(config, cfg, s, targetLiquidation, targetHedge).value.value;
      && imbalance.balance == Max(0, s.balance)
      && (imbalance.neededDeposit.Some? ==> imbalance.neededDeposit.value > 0)
  {
    hide EstCollateralDiff, CrossPosition.SignedQuantity, BoundedPrice;
  }

  /**
   Returns false when the balance cannot cover the deposit. The only error is that of the deposit:
   the order itself is never rejected.
   */
  method BalanceHedgeSize(config: CarryConfig, executor: SimulatedTradeExecutor, imbalance: HedgeImbalance,
                          ghost targetLiquidation: Price, ghost targetHedge: Quantity)
    returns (r: Result<bool>)
    requires executor.Valid()
    requires Observe(config, executor.cfg, executor.State(), targetLiquidation, targetHedge) == Some(Some(imbalance))
    requires WithinEstimate(config, executor.cfg, executor.State(), targetHedge)
    modifies executor
    ensures executor.Valid()
    ensures r.Err? ==>
      && imbalance.neededDeposit.Some?
      && Spec.Deposit(executor.cfg, old(executor.State()), imbalance.neededDeposit.value) == Err(r.error)
    ensures r.Err? || r == Ok(false) ==> executor.State() == old(executor.State())
    ensures r == Ok(false)
       <==> imbalance.neededDeposit.Some? && old(executor.balance) < imbalance.neededDeposit.value
    ensures r == Ok(true) ==>
      && executor.cross.SignedQuantity() == -(targetHedge as int)
      && executor.balance == old(executor.balance)
           - (if imbalance.neededDeposit.Some? then imbalance.neededDeposit.value else 0)
      && HoldsFor(executor.cfg.sdk, executor.cross, BoundedPrice(old(executor.marketPrice)), targetLiquidation)
  {
    hide Observe, CheckHedge, WithinEstimate, Spec.Sorted, CrossPosition.SignedQuantity, CrossPosition.IsCoherent,
         CrossPosition.WithMarketOrder, CrossPosition.WithMargin, RoundPrice, BoundedPrice, HoldsFor;
    ghost var s := executor.State();
    ObservedBalance(config, executor.cfg, s, targetLiquidation, targetHedge);
    if imbalance.neededDeposit.Some? {
      if imbalance.balance < imbalance.neededDeposit.value {
        return Ok(false);
      }
      var deposited := executor.CrossDeposit(imbalance.neededDeposit.value);
      if deposited.Err? {
        return Err(deposited.error);
      }
    }
    HedgeOrderAccepted(config, executor.cfg, s, executor.State(), targetLiquidation, targetHedge);
    var ordered := executor.CrossOrder(imbalance.orderSide, imbalance.orderQuantity);
    assert ordered.Ok?;
    r := Ok(true);
  }
}
