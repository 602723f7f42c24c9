/** What every cross-margin operation keeps: net asset value, the margin ledger, the estimates. */
module CrossLaws {
  import opened Basics
  import opened Market
  import opened Pricing
  import opened CrossPosition
  import opened Valuation

  // ----- Definitions a caller can evaluate before the call

  /** Margin not explained by realized P/L, fees and funding: deposits plus clamped losses. */
  function LedgerGap(p: CrossPosition): int {
    p.margin - p.realizedPl + p.tradingFees + p.sessionFundingFees
  }

  /** Margin plus the running P/L at the market price, before any flooring. */
  function NetValue(p: CrossPosition, market: Price): real {
    p.margin as real + p.RunningPl(market)
  }

  predicate ClosesExactly(p: CrossPosition, side: Side, quantity: Quantity) {
    p.exposure.Running? && p.exposure.side != side && p.exposure.quantity == quantity
  }

  predicate Reduces(p: CrossPosition, side: Side, quantity: Quantity) {
    p.exposure.Running? && p.exposure.side != side && quantity < p.exposure.quantity
  }

  predicate Increases(p: CrossPosition, side: Side) {
    p.exposure.Running? && p.exposure.side == side
  }

  /** The part of the position an order unwinds. */
  function UnwoundPl(p: CrossPosition, market: Price, side: Side, quantity: Quantity): real {
    if p.exposure.Neutral? || p.exposure.side == side then 0.0
    else EstimatePl(p.exposure.side, Min(quantity, p.exposure.quantity), p.exposure.entry, market)
  }

  predicate LosingReduction(p: CrossPosition, market: Price, side: Side, quantity: Quantity) {
    Reduces(p, side, quantity) && UnwoundPl(p, market, side, quantity) < 0.0
  }

  /** The whole satoshis of P/L an order books into the margin. */
  function BookedPl(p: CrossPosition, market: Price, side: Side, quantity: Quantity): int {
    if LosingReduction(p, market, side, quantity) then 0
    else UnwoundPl(p, market, side, quantity).Floor
  }

  /** Whether charging the fee or booking the P/L would take the margin below zero. */
  predicate Saturates(sdk: Sdk, p: CrossPosition, market: Price, side: Side, quantity: Quantity,
                      feePerc: PercentageCapped)
  {
    var fee := sdk.orderFee(feePerc, quantity, market);
    var booked := BookedPl(p, market, side, quantity);
    || p.margin + booked < fee
    || (p.margin < fee && !ClosesExactly(p, side, quantity))
  }

  /** The inverse the order rewrites the entry from: averaged when it increases, carried when it reduces at a loss. */
  function RewrittenInverse(p: CrossPosition, market: Price, side: Side, quantity: Quantity): Option<real> {
    if Increases(p, side) then Some(AggregateInverse(p.exposure.quantity, p.exposure.entry, quantity, market))
    else if LosingReduction(p, market, side, quantity) then
      Some(CarriedInverse(p.exposure.side, p.exposure.quantity, p.exposure.entry,
                          p.exposure.quantity - quantity, market))
    else None
  }

  /** Whether the entry price the order asks for exists on the price grid. */
  predicate EntryRepresentable(p: CrossPosition, market: Price, side: Side, quantity: Quantity) {
    var inverse := RewrittenInverse(p, market, side, quantity);
    inverse.Some? ==> Representable(inverse.value)
  }

  /** Whether the entry price the order asks for lies between the price bounds. */
  predicate EntryInBounds(p: CrossPosition, market: Price, side: Side, quantity: Quantity) {
    var inverse := RewrittenInverse(p, market, side, quantity);
    inverse.Some? ==> InBounds(inverse.value)
  }

  function Times(quantity: Quantity, x: real): real {
    quantity as real * x
  }

  /** What an entry adds to the P/L of the inverse it was written from. */
  function DriftFrom(side: Side, quantity: Quantity, entry: Price, inv: real): real {
    SideSign(side) * Times(quantity, Inverse(entry) - inv)
  }

  function BoundFrom(quantity: Quantity, entry: Price, inv: real): real {
    Times(quantity, RoundingOfInverse(inv, entry))
  }

  /** What writing the rewritten entry as a price adds to the running P/L of `p'`, the position after the order. */
  function EntryDrift(p: CrossPosition, market: Price, side: Side, quantity: Quantity, p': CrossPosition): real {
    var inverse := RewrittenInverse(p, market, side, quantity);
    if inverse.None? || p'.exposure.Neutral? then 0.0
    else DriftFrom(p'.exposure.side, p'.exposure.quantity, p'.exposure.entry, inverse.value)
  }

  /** The most that rounding to half a dollar can add or take, for an entry between the price bounds. */
  function RoundingBound(p: CrossPosition, market: Price, side: Side, quantity: Quantity, p': CrossPosition): real {
    var inverse := RewrittenInverse(p, market, side, quantity);
    if inverse.None? || p'.exposure.Neutral? then 0.0
    else BoundFrom(p'.exposure.quantity, p'.exposure.entry, inverse.value)
  }

  // ----- Inverse-contract algebra

  lemma PlAdditive(side: Side, q1: Quantity, q2: Quantity, entry: Price, market: Price)
    ensures EstimatePl(side, q1 + q2, entry, market)
         == EstimatePl(side, q1, entry, market) + EstimatePl(side, q2, entry, market)
  {
    var d := Inverse(entry) - Inverse(market);
    assert (q1 + q2) as real * d == q1 as real * d + q2 as real * d;
  }

  lemma PlAtEntry(side: Side, quantity: Quantity, entry: Price)
    ensures EstimatePl(side, quantity, entry, entry) == 0.0
  {
  }

  lemma AggregatePl(side: Side, q1: Quantity, e1: Price, q2: Quantity, market: Price)
    ensures SideSign(side) * ((q1 + q2) as real * (AggregateInverse(q1, e1, q2, market) - Inverse(market)))
         == EstimatePl(side, q1, e1, market)
  {
    var n := (q1 + q2) as real;
    var a := AggregateInverse(q1, e1, q2, market);
    var m := Inverse(market);
    assert n * a == q1 as real * Inverse(e1) + q2 as real * m;
    assert n * (a - m) == n * a - n * m;
    assert n * m == q1 as real * m + q2 as real * m;
    assert q1 as real * Inverse(e1) - q1 as real * m == q1 as real * (Inverse(e1) - m);
  }

  lemma CarriedPl(side: Side, quantity: Quantity, entry: Price, remaining: Quantity, market: Price)
    ensures SideSign(side) * (remaining as real * (CarriedInverse(side, quantity, entry, remaining,
             market) - Inverse(market)))
         == EstimatePl(side, quantity, entry, market)
  {
    var pl := EstimatePl(side, quantity, entry, market);
    assert remaining as real * (pl / remaining as real) == pl;
    assert remaining as real * -(pl / remaining as real) == -pl;
  }

  // ----- Net asset value

  /** The margin after an order: the fee is charged first, then the P/L is booked, each clamped at zero. */
  function OrderMargin(sdk: Sdk, p: CrossPosition, market: Price, side: Side, quantity: Quantity,
                       feePerc: PercentageCapped): nat
  {
    ApplyAmount(ApplyAmount(p.margin, -(sdk.orderFee(feePerc, quantity, market) as int)),
                BookedPl(p, market, side, quantity))
  }

  /** What an order that does not close exactly leaves running. */
  function AfterOrder(p: CrossPosition, market: Price, side: Side, quantity: Quantity): Params
    requires !ClosesExactly(p, side, quantity)
  {
    var e := p.exposure;
    if e.Neutral? then Params(side, quantity, market)
    else if Increases(p, side) then
      Params(side, e.quantity + quantity, AggregateEntryPrice(e.quantity, e.entry, quantity, market))
    else if !Reduces(p, side, quantity) then Params(side, quantity - e.quantity, market)
    else if LosingReduction(p, market, side, quantity) then
      Params(e.side, e.quantity - quantity,
             PriceFromInverse(CarriedInverse(e.side, e.quantity, e.entry, e.quantity - quantity, market)))
    else Params(e.side, e.quantity - quantity, e.entry)
  }

  /** Every order but an exact close builds one position, from one margin and one exposure. */
  lemma OrderMakes(sdk: Sdk, p: CrossPosition, market: Price, side: Side, quantity: Quantity,
                   feePerc: PercentageCapped)
    requires !ClosesExactly(p, side, quantity)
    ensures p.WithMarketOrder(sdk, market, side, quantity, feePerc)
         == if Increases(p, side) && p.exposure.quantity + quantity > sdk.maxCrossQuantity then
              Err(CrossQuantityValidation)
            else
              Make(sdk, OrderMargin(sdk, p, market, side, quantity, feePerc), p.leverage,
                   Some(AfterOrder(p, market, side, quantity)),
                   p.tradingFees + sdk.orderFee(feePerc, quantity, market), p.sessionFundingFees,
                   p.realizedPl + BookedPl(p, market, side, quantity))
  {
    hide EstimatePl, AggregateEntryPrice, PriceFromInverse, CarriedInverse, Make;
  }

  lemma MakeShape(sdk: Sdk, margin: nat, leverage: real, params: Params, fees: nat, funding: int, pl: int)
    ensures var r := Make(sdk, margin, leverage, Some(params), fees, funding, pl);
      && (r.Ok? <==> sdk.exposureValid(leverage, params.side, params.quantity, params.entry)
                     && margin >= MarginFloor(sdk, leverage, params.quantity, params.entry))
      && (r.Ok? ==>
            && r.value.margin == margin && r.value.leverage == leverage
            && r.value.exposure.Running? && r.value.exposure.AsParams() == Some(params)
            && r.value.tradingFees == fees && r.value.sessionFundingFees == funding && r.value.realizedPl == pl)
  {
    hide MarginFloor;
  }

  /** The margin of an accepted order, and the position it leaves. */
  lemma OrderShape(sdk: Sdk, p: CrossPosition, market: Price, side: Side, quantity: Quantity,
                   feePerc: PercentageCapped)
    requires p.WithMarketOrder(sdk, market, side, quantity, feePerc).Ok?
    ensures var p' := p.WithMarketOrder(sdk, market, side, quantity, feePerc).value;
      && p'.tradingFees == p.tradingFees + sdk.orderFee(feePerc, quantity, market)
      && p'.sessionFundingFees == p.sessionFundingFees
      && p'.realizedPl == p.realizedPl + BookedPl(p, market, side, quantity)
      && (if ClosesExactly(p, side, quantity) then
            && p'.exposure.Neutral?
            && p'.margin == ApplyAmount(p.margin, BookedPl(p, market, side, quantity)
                                                  - sdk.orderFee(feePerc, quantity, market))
          else
            && p'.exposure.Running?
            && p'.exposure.AsParams() == Some(AfterOrder(p, market, side, quantity))
            && p'.margin == OrderMargin(sdk, p, market, side, quantity, feePerc))
  {
    if ClosesExactly(p, side, quantity) {
      hide EstimatePl;
    } else {
      hide CrossPosition.WithMarketOrder, BookedPl, Make, OrderMargin, AfterOrder, Increases;
      OrderMakes(sdk, p, market, side, quantity, feePerc);
      MakeShape(sdk, OrderMargin(sdk, p, market, side, quantity, feePerc), p.leverage,
                AfterOrder(p, market, side, quantity),
                p.tradingFees + sdk.orderFee(feePerc, quantity, market), p.sessionFundingFees,
                p.realizedPl + BookedPl(p, market, side, quantity));
    }
  }

  lemma AfterOrderSigned(p: CrossPosition, market: Price, side: Side, quantity: Quantity)
    ensures if ClosesExactly(p, side, quantity) then p.SignedQuantity() + Signed(side, quantity) == 0
            else var after := AfterOrder(p, market, side, quantity);
              Signed(after.side, after.quantity) == p.SignedQuantity() + Signed(side, quantity)
  {
    hide EstimatePl, AggregateEntryPrice, PriceFromInverse, CarriedInverse, UnwoundPl;
  }

  /** What an order books: its fee, the unwound P/L in whole satoshis, and what clamping forgives. */
  lemma OrderBooks(sdk: Sdk, p: CrossPosition, market: Price, side: Side, quantity: Quantity,
                   feePerc: PercentageCapped)
    requires p.WithMarketOrder(sdk, market, side, quantity, feePerc).Ok?
    ensures var p' := p.WithMarketOrder(sdk, market, side, quantity, feePerc).value;
      var forgiven := LedgerGap(p') - LedgerGap(p);
      && p'.tradingFees == p.tradingFees + sdk.orderFee(feePerc, quantity, market)
      && p'.sessionFundingFees == p.sessionFundingFees
      && p'.realizedPl == p.realizedPl + BookedPl(p, market, side, quantity)
      && p'.SignedQuantity() == p.SignedQuantity() + Signed(side, quantity)
      && forgiven >= 0
      && (forgiven == 0 <==> !Saturates(sdk, p, market, side, quantity, feePerc))
  {
    hide CrossPosition.WithMarketOrder, BookedPl, ClosesExactly, AfterOrder;
    OrderShape(sdk, p, market, side, quantity, feePerc);
    AfterOrderSigned(p, market, side, quantity);
  }

  /** What replacing the inverse of an entry by another one changes. */
  lemma PlOfInverse(side: Side, quantity: Quantity, entry: Price, market: Price, inv: real)
    ensures EstimatePl(side, quantity, entry, market)
         == SideSign(side) * (quantity as real * (inv - Inverse(market))) + DriftFrom(side, quantity, entry, inv)
  {
    hide Inverse;
    var q, e, m := quantity as real, Inverse(entry), Inverse(market);
    assert q * (e - m) == q * (inv - m) + q * (e - inv);
  }

  /** What an order that rewrites the entry leaves running. */
  lemma RewrittenShape(sdk: Sdk, p: CrossPosition, market: Price, side: Side, quantity: Quantity,
                       feePerc: PercentageCapped)
    requires p.WithMarketOrder(sdk, market, side, quantity, feePerc).Ok?
    requires RewrittenInverse(p, market, side, quantity).Some?
    ensures var e' := p.WithMarketOrder(sdk, market, side, quantity, feePerc).value.exposure;
      var e := p.exposure;
      && e'.Running?
      && e'.side == e.side
      && e'.quantity == (if Increases(p, side) then e.quantity + quantity else e.quantity - quantity)
      && e'.entry == PriceFromInverse(RewrittenInverse(p, market, side, quantity).value)
  {
    hide CrossPosition.WithMarketOrder, EstimatePl, AggregateInverse, CarriedInverse, UnwoundPl, PriceFromInverse;
    OrderShape(sdk, p, market, side, quantity, feePerc);
  }

  /** The rewritten inverse puts the whole running P/L on the quantity that remains. */
  lemma RewrittenKeepsPl(p: CrossPosition, market: Price, side: Side, quantity: Quantity)
    requires RewrittenInverse(p, market, side, quantity).Some?
    ensures var e := p.exposure;
      var q: Quantity := if Increases(p, side) then e.quantity + quantity else e.quantity - quantity;
      SideSign(e.side) * (q as real * (RewrittenInverse(p, market, side, quantity).value - Inverse(market)))
      == p.RunningPl(market)
  {
    hide EstimatePl, Inverse, AggregateInverse, CarriedInverse, SideSign;
    var e := p.exposure;
    if Increases(p, side) {
      AggregatePl(e.side, e.quantity, e.entry, quantity, market);
    } else {
      CarriedPl(e.side, e.quantity, e.entry, e.quantity - quantity, market);
    }
  }

  lemma RunningPlAfterRewrite(sdk: Sdk, p: CrossPosition, market: Price, side: Side, quantity: Quantity,
                              feePerc: PercentageCapped)
    requires p.WithMarketOrder(sdk, market, side, quantity, feePerc).Ok?
    requires RewrittenInverse(p, market, side, quantity).Some?
    ensures var p' := p.WithMarketOrder(sdk, market, side, quantity, feePerc).value;
      p'.RunningPl(market) == p.RunningPl(market) + EntryDrift(p, market, side, quantity, p')
  {
    hide EstimatePl, Inverse, SideSign, RewrittenInverse, CrossPosition.WithMarketOrder, PriceFromInverse, DriftFrom;
    RewrittenShape(sdk, p, market, side, quantity, feePerc);
    RewrittenKeepsPl(p, market, side, quantity);
    var e' := p.WithMarketOrder(sdk, market, side, quantity, feePerc).value.exposure;
    PlOfInverse(e'.side, e'.quantity, e'.entry, market, RewrittenInverse(p, market, side, quantity).value);
  }

  /** An order that keeps the entry of what it leaves running, or starts a new one. */
  lemma RunningPlAfterBooking(sdk: Sdk, p: CrossPosition, market: Price, side: Side, quantity: Quantity,
                              feePerc: PercentageCapped)
    requires p.WithMarketOrder(sdk, market, side, quantity, feePerc).Ok?
    requires RewrittenInverse(p, market, side, quantity).None?
    ensures p.WithMarketOrder(sdk, market, side, quantity, feePerc).value.RunningPl(market)
         == p.RunningPl(market) - UnwoundPl(p, market, side, quantity)
  {
    hide EstimatePl, AggregateEntryPrice, PriceFromInverse, CarriedInverse, AggregateInverse,
         CrossPosition.WithMarketOrder;
    OrderShape(sdk, p, market, side, quantity, feePerc);
    var p' := p.WithMarketOrder(sdk, market, side, quantity, feePerc).value;
    if Reduces(p, side, quantity) {
      PlAdditive(p.exposure.side, quantity, p.exposure.quantity - quantity, p.exposure.entry, market);
    } else if p'.exposure.Running? {
      PlAtEntry(side, p'.exposure.quantity, market);
    }
  }

  /**
   A market order of any kind costs its fee and loses less than one satoshi to flooring. Clamped
   margin and the rounding of a rewritten entry are the only other sources of change: the rounding
   changes nothing exactly when the entry is on the price grid, stays within its bound when the entry
   is between the price bounds, and otherwise creates value.
   */
  lemma OrderKeepsNetValue(sdk: Sdk, p: CrossPosition, market: Price, side: Side, quantity: Quantity,
                           feePerc: PercentageCapped)
    requires p.WithMarketOrder(sdk, market, side, quantity, feePerc).Ok?
    ensures var p' := p.WithMarketOrder(sdk, market, side, quantity, feePerc).value;
      var fee := sdk.orderFee(feePerc, quantity, market);
      var forgiven := LedgerGap(p') - LedgerGap(p);
      var drift := EntryDrift(p, market, side, quantity, p');
      var bound := RoundingBound(p, market, side, quantity, p');
      var expected := NetValue(p, market) - fee as real + forgiven as real + drift;
      && p'.tradingFees == p.tradingFees + fee
      && p'.realizedPl == p.realizedPl + BookedPl(p, market, side, quantity)
      && p'.SignedQuantity() == p.SignedQuantity() + Signed(side, quantity)
      && forgiven >= 0
      && (forgiven == 0 <==> !Saturates(sdk, p, market, side, quantity, feePerc))
      && expected - 1.0 < NetValue(p', market) <= expected
      && (drift == 0.0 <==> EntryRepresentable(p, market, side, quantity))
      && (EntryInBounds(p, market, side, quantity) ==> -bound <= drift <= bound)
      && (!EntryInBounds(p, market, side, quantity) ==> drift > 0.0)
  {
    hide EstimatePl, CrossPosition.WithMarketOrder, CrossPosition.RunningPl, Saturates, EntryRepresentable,
         EntryInBounds, UnwoundPl, EntryDrift, RoundingBound, Increases, Reduces;
    OrderBooks(sdk, p, market, side, quantity, feePerc);
    if RewrittenInverse(p, market, side, quantity).Some? {
      RunningPlAfterRewrite(sdk, p, market, side, quantity, feePerc);
      DriftOfRewrite(sdk, p, market, side, quantity, feePerc);
      RewritingBooksNothing(p, market, side, quantity);
    } else {
      RunningPlAfterBooking(sdk, p, market, side, quantity, feePerc);
      NothingRewritten(p, market, side, quantity,
                       p.WithMarketOrder(sdk, market, side, quantity, feePerc).value);
    }
  }

  lemma RewritingBooksNothing(p: CrossPosition, market: Price, side: Side, quantity: Quantity)
    requires RewrittenInverse(p, market, side, quantity).Some?
    ensures BookedPl(p, market, side, quantity) == 0
  {
    hide EstimatePl, AggregateInverse, CarriedInverse;
  }

  lemma NothingRewritten(p: CrossPosition, market: Price, side: Side, quantity: Quantity, p': CrossPosition)
    requires RewrittenInverse(p, market, side, quantity).None?
    ensures EntryDrift(p, market, side, quantity, p') == RoundingBound(p, market, side, quantity, p') == 0.0
    ensures EntryRepresentable(p, market, side, quantity) && EntryInBounds(p, market, side, quantity)
    ensures BookedPl(p, market, side, quantity) == UnwoundPl(p, market, side, quantity).Floor
  {
    hide RewrittenInverse, EstimatePl, UnwoundPl, Representable, InBounds;
    NotLosing(p, market, side, quantity);
  }

  lemma NotLosing(p: CrossPosition, market: Price, side: Side, quantity: Quantity)
    requires RewrittenInverse(p, market, side, quantity).None?
    ensures !LosingReduction(p, market, side, quantity)
  {
    hide UnwoundPl, AggregateInverse, CarriedInverse;
  }

  // ----- What rounding a rewritten entry does

  lemma TimesKeepsSign(quantity: Quantity, x: real)
    ensures (x > 0.0 <==> Times(quantity, x) > 0.0) && (x < 0.0 <==> Times(quantity, x) < 0.0)
  {
    var q := quantity as real;
    if x > 0.0 {
      assert q * x > 0.0;
    } else if x < 0.0 {
      assert q * -x > 0.0;
      assert q * -x == -(q * x);
    }
  }

  lemma TimesMonotone(quantity: Quantity, x: real, y: real)
    requires x <= y
    ensures Times(quantity, x) <= Times(quantity, y)
  {
    ScaleReal(x, y, quantity as real);
  }

  lemma TimesNegated(quantity: Quantity, x: real)
    ensures Times(quantity, -x) == -Times(quantity, x)
  {
  }

  /** A drift is the rounding error of the inverse times the quantity. */
  lemma DriftIsScaledError(side: Side, quantity: Quantity, entry: Price, inv: real)
    ensures var drift, bound, error := DriftFrom(side, quantity, entry, inv), BoundFrom(quantity, entry, inv),
                                       Inverse(entry) - inv;
      && (drift == 0.0 <==> error == 0.0)
      && (SideSign(side) * error > 0.0 ==> drift > 0.0)
      && (-RoundingOfInverse(inv, entry) <= error <= RoundingOfInverse(inv, entry) ==> -bound <= drift <= bound)
  {
    hide Times, Inverse, RoundingOfInverse;
    var error, rounding := Inverse(entry) - inv, RoundingOfInverse(inv, entry);
    TimesKeepsSign(quantity, error);
    if -rounding <= error <= rounding {
      TimesMonotone(quantity, -rounding, error);
      TimesMonotone(quantity, error, rounding);
      TimesNegated(quantity, rounding);
    }
  }

  lemma ScaleReal(x: real, y: real, q: real)
    requires x <= y && q > 0.0
    ensures q * x <= q * y
  {
    assert q * (y - x) >= 0.0;
  }

  lemma DriftOfRewrite(sdk: Sdk, p: CrossPosition, market: Price, side: Side, quantity: Quantity,
                       feePerc: PercentageCapped)
    requires p.WithMarketOrder(sdk, market, side, quantity, feePerc).Ok?
    requires RewrittenInverse(p, market, side, quantity).Some?
    ensures var p' := p.WithMarketOrder(sdk, market, side, quantity, feePerc).value;
      var drift := EntryDrift(p, market, side, quantity, p');
      var bound := RoundingBound(p, market, side, quantity, p');
      && (drift == 0.0 <==> EntryRepresentable(p, market, side, quantity))
      && (EntryInBounds(p, market, side, quantity) ==> -bound <= drift <= bound)
      && (!EntryInBounds(p, market, side, quantity) ==> drift > 0.0)
  {
    hide EstimatePl, Inverse, SideSign, RewrittenInverse, CrossPosition.WithMarketOrder, PriceFromInverse,
         InBounds, Representable, DriftFrom, BoundFrom;
    var e' := p.WithMarketOrder(sdk, market, side, quantity, feePerc).value.exposure;
    var inv := RewrittenInverse(p, market, side, quantity).value;
    RewrittenShape(sdk, p, market, side, quantity, feePerc);
    if !InBounds(inv) {
      RewriteOutOfBounds(p, market, side, quantity);
    }
    DriftOfEntry(e'.side, e'.quantity, inv);
  }

  lemma DriftOfEntry(side: Side, quantity: Quantity, inv: real)
    requires !InBounds(inv) ==> SideSign(side) * (Inverse(PriceFromInverse(inv)) - inv) > 0.0
    ensures var entry := PriceFromInverse(inv);
      var drift, bound := DriftFrom(side, quantity, entry, inv), BoundFrom(quantity, entry, inv);
      && (drift == 0.0 <==> Representable(inv))
      && (InBounds(inv) ==> -bound <= drift <= bound)
      && (!InBounds(inv) ==> drift > 0.0)
  {
    hide Inverse, SideSign, PriceFromInverse, InBounds, Representable, RoundingOfInverse, DriftFrom, BoundFrom;
    RepresentableIffExact(inv);
    if InBounds(inv) {
      PriceKeepsInverse(inv);
    }
    DriftIsScaledError(side, quantity, PriceFromInverse(inv), inv);
  }

  /** An average of two prices lies between the price bounds. */
  lemma AggregateInBounds(q1: Quantity, e1: Price, q2: Quantity, e2: Price)
    ensures InBounds(AggregateInverse(q1, e1, q2, e2))
  {
    hide Inverse, InBounds, Times, AggregateInverse;
    InverseBounds(e1);
    InverseBounds(e2);
    AggregateIsMean(q1, e1, q2, e2);
    MeanBetween(q1, Inverse(e1), q2, Inverse(e2), 1.0, SATS_PER_BTC);
    InBoundsIff(AggregateInverse(q1, e1, q2, e2));
  }

  lemma AggregateIsMean(q1: Quantity, e1: Price, q2: Quantity, e2: Price)
    ensures AggregateInverse(q1, e1, q2, e2)
         == (Times(q1, Inverse(e1)) + Times(q2, Inverse(e2))) / (q1 + q2) as real
  {
    hide Inverse;
  }

  /** A weighted mean lies between the bounds of what it averages. */
  lemma MeanBetween(q1: Quantity, x: real, q2: Quantity, y: real, lo: real, hi: real)
    requires lo <= x <= hi && lo <= y <= hi
    ensures lo <= (Times(q1, x) + Times(q2, y)) / (q1 + q2) as real <= hi
  {
    hide Times;
    TimesMonotone(q1, lo, x);
    TimesMonotone(q2, lo, y);
    TimesMonotone(q1, x, hi);
    TimesMonotone(q2, y, hi);
    TimesOfSum(q1, q2, lo);
    TimesOfSum(q1, q2, hi);
    QuotientOfTimes(q1 + q2, Times(q1, x) + Times(q2, y), lo, hi);
  }

  lemma TimesOfSum(q1: Quantity, q2: Quantity, x: real)
    ensures Times(q1 + q2, x) == Times(q1, x) + Times(q2, x)
  {
    assert (q1 + q2) as real == q1 as real + q2 as real;
  }

  lemma QuotientOfTimes(quantity: Quantity, sum: real, lo: real, hi: real)
    requires Times(quantity, lo) <= sum <= Times(quantity, hi)
    ensures lo <= sum / quantity as real <= hi
  {
    QuotientAbove(sum, quantity as real, lo);
    QuotientBelow(sum, quantity as real, hi);
  }

  /** A carried inverse lies past the market on the losing side. */
  lemma CarriedPastMarket(p: CrossPosition, market: Price, side: Side, quantity: Quantity)
    requires LosingReduction(p, market, side, quantity)
    ensures var e := p.exposure;
      var inv := CarriedInverse(e.side, e.quantity, e.entry, e.quantity - quantity, market);
      if e.side == Buy then inv < Inverse(market) else Inverse(market) < inv
  {
    hide Inverse;
    var e := p.exposure;
    var diff, q, n := Inverse(e.entry) - Inverse(market), quantity as real, e.quantity as real;
    var s := SideSign(e.side);
    assert s * (q * diff) < 0.0;
    assert q * (s * diff) == s * (q * diff);
    NegativeFactor(q, s * diff);
    NegativeProduct(n, s * diff);
    assert n * (s * diff) == s * (n * diff);
    NegativeQuotient(EstimatePl(e.side, e.quantity, e.entry, market), (e.quantity - quantity) as real);
  }

  lemma NegativeFactor(q: real, x: real)
    requires q > 0.0 && q * x < 0.0
    ensures x < 0.0
  {
  }

  lemma NegativeProduct(q: real, x: real)
    requires q > 0.0 && x < 0.0
    ensures q * x < 0.0
  {
  }

  lemma NegativeQuotient(x: real, n: real)
    requires x < 0.0 && n > 0.0
    ensures x / n < 0.0
  {
    assert x / n * n == x;
  }

  /** An entry asked for beyond the price bounds is one a losing reduction carries, and bounding it helps the holder. */
  lemma RewriteOutOfBounds(p: CrossPosition, market: Price, side: Side, quantity: Quantity)
    requires RewrittenInverse(p, market, side, quantity).Some?
    requires !InBounds(RewrittenInverse(p, market, side, quantity).value)
    ensures var inv := RewrittenInverse(p, market, side, quantity).value;
      && LosingReduction(p, market, side, quantity)
      && (if p.exposure.side == Buy then inv < 1.0 else inv > SATS_PER_BTC)
      && PriceFromInverse(inv) == (if p.exposure.side == Buy && inv >= 0.0 then MAX_TICK else MIN_TICK)
      && SideSign(p.exposure.side) * (Inverse(PriceFromInverse(inv)) - inv) > 0.0
  {
    hide Inverse, AggregateInverse, CarriedInverse, PriceFromInverse, UnwoundPl, InBounds;
    var inv := RewrittenInverse(p, market, side, quantity).value;
    if Increases(p, side) {
      AggregateInBounds(p.exposure.quantity, p.exposure.entry, quantity, market);
    }
    CarriedPastMarket(p, market, side, quantity);
    InverseBounds(market);
    InBoundsIff(inv);
    OutOfBoundsPrice(inv);
  }

  /** Orders that only rewrite the entry keep net value to the satoshi exactly when it is representable. */
  lemma OrderWithoutBookingIsExact(sdk: Sdk, p: CrossPosition, market: Price, side: Side, quantity: Quantity,
                                   feePerc: PercentageCapped)
    requires p.WithMarketOrder(sdk, market, side, quantity, feePerc).Ok?
    requires p.exposure.Neutral? || RewrittenInverse(p, market, side, quantity).Some?
    requires !Saturates(sdk, p, market, side, quantity, feePerc)
    ensures var p' := p.WithMarketOrder(sdk, market, side, quantity, feePerc).value;
      NetValue(p', market) == NetValue(p, market) - sdk.orderFee(feePerc, quantity, market) as real
      <==> EntryRepresentable(p, market, side, quantity)
  {
    hide EstimatePl, CrossPosition.WithMarketOrder, CrossPosition.RunningPl, Saturates, EntryRepresentable,
         EntryInBounds, EntryDrift, RoundingBound, Increases, Reduces;
    OrderBooks(sdk, p, market, side, quantity, feePerc);
    if RewrittenInverse(p, market, side, quantity).Some? {
      RunningPlAfterRewrite(sdk, p, market, side, quantity, feePerc);
      DriftOfRewrite(sdk, p, market, side, quantity, feePerc);
      RewritingBooksNothing(p, market, side, quantity);
    } else {
      RunningPlAfterBooking(sdk, p, market, side, quantity, feePerc);
      NothingRewritten(p, market, side, quantity,
                       p.WithMarketOrder(sdk, market, side, quantity, feePerc).value);
    }
  }

  /**
   An order that asks for an entry beyond the price bounds is a losing reduction, gets the bound
   itself as its entry, and ends with more than it had, less its fee: the loss is not carried.
   */
  lemma CollapsedEntryCreatesValue(sdk: Sdk, p: CrossPosition, market: Price, side: Side, quantity: Quantity,
                                   feePerc: PercentageCapped)
    requires p.WithMarketOrder(sdk, market, side, quantity, feePerc).Ok?
    requires !EntryInBounds(p, market, side, quantity)
    ensures var p' := p.WithMarketOrder(sdk, market, side, quantity, feePerc).value;
      && LosingReduction(p, market, side, quantity)
      && p'.exposure.Running? && p'.exposure.entry in {MIN_TICK, MAX_TICK}
      && NetValue(p', market) > NetValue(p, market) - sdk.orderFee(feePerc, quantity, market) as real
  {
    hide EstimatePl, Inverse, SideSign, RewrittenInverse, CrossPosition.WithMarketOrder, PriceFromInverse,
         CrossPosition.RunningPl, Saturates, EntryDrift, RoundingBound, UnwoundPl, InBounds;
    RewriteOutOfBounds(p, market, side, quantity);
    RewrittenShape(sdk, p, market, side, quantity, feePerc);
    OrderBooks(sdk, p, market, side, quantity, feePerc);
    RunningPlAfterRewrite(sdk, p, market, side, quantity, feePerc);
    DriftOfRewrite(sdk, p, market, side, quantity, feePerc);
    RewritingBooksNothing(p, market, side, quantity);
  }

  // ----- The margin ledger of the operations that are not orders

  lemma CloseKeepsLedger(sdk: Sdk, p: CrossPosition, price: Price, feePerc: PercentageCapped)
    requires p.exposure.Running?
    ensures var p' := p.Close(sdk, price, feePerc);
      var e := p.exposure;
      var fee := sdk.orderFee(feePerc, e.quantity, price);
      var pl := EstimatePl(e.side, e.quantity, e.entry, price).Floor;
      && p'.exposure.Neutral?
      && LedgerGap(p') == LedgerGap(p) + Max(0, fee - pl - p.margin)
      && p'.tradingFees == p.tradingFees + fee && p'.realizedPl == p.realizedPl + pl
      && p'.leverage == p.leverage && p'.sessionFundingFees == p.sessionFundingFees
  {
  }

  /** Funding is booked once; what it leaves running is liquid and has free margin. */
  lemma FundingKeepsLedger(sdk: Sdk, p: CrossPosition, market: real, settlement: Settlement,
                           feePerc: PercentageCapped)
    ensures var f := p.ApplyFunding(sdk, market, settlement, feePerc);
      && LedgerGap(f.position) >= LedgerGap(p)
      && f.position.sessionFundingFees == p.sessionFundingFees + f.fee
      && f.position.IsCoherent(BoundedPrice(market))
      && (f.forcedFlat ==> f.position.exposure.Neutral?)
      && (!f.forcedFlat ==>
            && f.position.SignedQuantity() == p.SignedQuantity()
            && f.position.realizedPl == p.realizedPl
            && f.position.margin >= p.margin - f.fee)
  {
    if p.exposure.Running? {
      CloseKeepsLedger(sdk, p, BoundedPrice(market), feePerc);
    }
  }

  /** A position whose exposure is the one its margin and leverage give. */
  predicate WellFormed(sdk: Sdk, p: CrossPosition) {
    NewExposure(sdk, p.margin, p.leverage, p.exposure.AsParams()) == Ok(p.exposure)
  }

  /** A running exposure is made exactly if its shape is valid and the margin exceeds what it locks. */
  lemma ExposureIff(sdk: Sdk, margin: nat, leverage: real, params: Params)
    ensures var r := NewExposure(sdk, margin, leverage, Some(params));
      var running := sdk.runningMargin(leverage, params.quantity, params.entry);
      var maintenance := sdk.maintenanceMargin(leverage, params.quantity, params.entry);
      && (r.Ok? <==> sdk.exposureValid(leverage, params.side, params.quantity, params.entry)
                     && margin > running + maintenance)
      && (r.Ok? ==> r.value == Running(params.side, params.quantity, params.entry, running, maintenance,
                                       sdk.crossLiquidation(margin, leverage, params.side, params.quantity,
                                                            params.entry)))
  {
  }

  lemma MadeIsWellFormed(sdk: Sdk, margin: nat, leverage: real, params: Option<Params>,
                         fees: nat, funding: int, pl: int)
    requires Make(sdk, margin, leverage, params, fees, funding, pl).Ok?
    ensures WellFormed(sdk, Make(sdk, margin, leverage, params, fees, funding, pl).value)
  {
    hide MarginFloor;
  }

  lemma OrderIsWellFormed(sdk: Sdk, p: CrossPosition, market: Price, side: Side, quantity: Quantity,
                          feePerc: PercentageCapped)
    requires p.WithMarketOrder(sdk, market, side, quantity, feePerc).Ok?
    ensures WellFormed(sdk, p.WithMarketOrder(sdk, market, side, quantity, feePerc).value)
  {
    if ClosesExactly(p, side, quantity) {
      hide EstimatePl, Make;
    } else {
      hide CrossPosition.WithMarketOrder, BookedPl, Make, OrderMargin, AfterOrder, Increases, ClosesExactly, WellFormed;
      OrderMakes(sdk, p, market, side, quantity, feePerc);
      MadeIsWellFormed(sdk, OrderMargin(sdk, p, market, side, quantity, feePerc), p.leverage,
                       Some(AfterOrder(p, market, side, quantity)),
                       p.tradingFees + sdk.orderFee(feePerc, quantity, market), p.sessionFundingFees,
                       p.realizedPl + BookedPl(p, market, side, quantity));
    }
  }

  function Loss(p: CrossPosition, market: Price): nat {
    var e := p.exposure;
    if e.Neutral? then 0 else Max(0, -PlOf(e.side, e.quantity, e.entry, market))
  }

  /** The margin a running position must exceed to have free margin. */
  function Required(p: CrossPosition, market: Price): nat {
    p.MaintenanceMargin() + Max(p.RunningMargin(), Loss(p, market))
  }

  lemma FreeMarginIsExcess(p: CrossPosition, market: Price)
    ensures p.EstFreeMargin(market) == Max(0, p.margin - Required(p, market))
  {
    hide EstimatePl, PlOf;
    if p.exposure.Running? {
      PlIsOf(p.exposure.side, p.exposure.quantity, p.exposure.entry, market);
    }
  }

  /**
   The three checks of a settlement come to one: a position is closed by force exactly when the margin
   left after the fee is no more than it requires, or the market has passed the liquidation price that
   margin gives.
   */
  lemma FundingForcesFlatIff(sdk: Sdk, p: CrossPosition, marketPrice: real, settlement: Settlement,
                             feePerc: PercentageCapped)
    requires WellFormed(sdk, p) && p.exposure.Running?
    ensures var f := p.ApplyFunding(sdk, marketPrice, settlement, feePerc);
      var e, market := p.exposure, BoundedPrice(marketPrice);
      var charge := Charge(e.side, e.quantity, settlement);
      var left := p.margin - charge;
      && f.fee == charge
      && (f.forcedFlat
          <==> || left <= Required(p, market)
               || (var liquidation := sdk.crossLiquidation(left, p.leverage, e.side, e.quantity, e.entry);
                   if e.side == Buy then market <= liquidation else market >= liquidation))
      && (!f.forcedFlat ==> f.position.margin == left)
  {
    hide FundingFee, Charge, BoundedPrice, CrossPosition.RunningPl, CrossPosition.EstFreeMargin, CrossPosition.Close;
    ChargeIs(p.exposure.side, p.exposure.quantity, settlement);
    var e, market := p.exposure, BoundedPrice(marketPrice);
    var fee := FundingFee(e.side, e.quantity, settlement);
    var margin := ApplyAmount(p.margin, -fee);
    FreeMarginIsExcess(p, market);
    var made := Make(sdk, margin, p.leverage, e.AsParams(), p.tradingFees, p.sessionFundingFees + fee, p.realizedPl);
    if made.Ok? {
      FreeMarginIsExcess(made.value, market);
      SameRunningPl(p, made.value, market);
    }
  }

  lemma SameRunningPl(p: CrossPosition, q: CrossPosition, market: Price)
    requires p.exposure.AsParams() == q.exposure.AsParams()
    ensures p.RunningPl(market) == q.RunningPl(market)
  {
    hide EstimatePl;
  }

  // ----- The estimators predict the order

  function OrderSide(p: CrossPosition, side: Side, quantity: Quantity): Side {
    if Signed(side, quantity) > p.SignedQuantity() then Buy else Sell
  }

  /** The order quantity that moves the position to the target exposure in one order. */
  function OrderQuantity(p: CrossPosition, side: Side, quantity: Quantity): nat {
    Abs(Signed(side, quantity) - p.SignedQuantity())
  }

  /** Both directions of an estimate: what the order books, and the entry it leaves. */
  lemma EstimatesAreBooked(p: CrossPosition, side: Side, quantity: Quantity, market: Price)
    requires OrderQuantity(p, side, quantity) != 0
    ensures var orderSide, order := OrderSide(p, side, quantity), OrderQuantity(p, side, quantity);
      && !ClosesExactly(p, orderSide, order)
      && EstMargin(p, side, quantity, market) == p.margin + BookedPl(p, market, orderSide, order)
      && AfterOrder(p, market, orderSide, order) == Params(side, quantity, EstEntryPrice(p, side, quantity, market))
      && (Increases(p, orderSide) ==> p.exposure.quantity + order == quantity)
  {
    hide EstimatePl, PriceFromInverse, CarriedInverse, AggregateEntryPrice;
  }

  /** The order lands on the estimated entry, and on the estimated margin exactly when nothing clamps. */
  lemma EstimatesMatchOrder(sdk: Sdk, p: CrossPosition, side: Side, quantity: Quantity, market: Price,
                            feePerc: PercentageCapped)
    requires 1 <= OrderQuantity(p, side, quantity) <= sdk.maxCrossQuantity
    requires p.WithMarketOrder(sdk, market, OrderSide(p, side, quantity), OrderQuantity(p, side, quantity), feePerc).Ok?
    ensures var orderSide, order := OrderSide(p, side, quantity), OrderQuantity(p, side, quantity);
      var p' := p.WithMarketOrder(sdk, market, orderSide, order, feePerc).value;
      var estFee := EstOrderFee(sdk, p, side, quantity, market, feePerc);
      && p'.SignedQuantity() == Signed(side, quantity)
      && p'.exposure.Running?
      && p'.exposure.entry == EstEntryPrice(p, side, quantity, market)
      && estFee == Some(p'.tradingFees - p.tradingFees)
      && p'.margin >= EstMargin(p, side, quantity, market) - estFee.value
      && (p'.margin == EstMargin(p, side, quantity, market) - estFee.value
          <==> !Saturates(sdk, p, market, orderSide, order, feePerc))
  {
    hide CrossPosition.WithMarketOrder, BookedPl, ClosesExactly, AfterOrder, EstMargin, EstEntryPrice;
    var orderSide, order := OrderSide(p, side, quantity), OrderQuantity(p, side, quantity);
    OrderShape(sdk, p, market, orderSide, order, feePerc);
    EstimatesAreBooked(p, side, quantity, market);
  }

  /**
   An order is accepted exactly when its exposure is valid and the margin it leaves meets the floor.
   That margin is at least the estimated one, and is the estimated one unless the order saturates; a
   fee above the margin leaves only the booked P/L.
   */
  lemma OrderAcceptedIff(sdk: Sdk, p: CrossPosition, side: Side, quantity: Quantity, market: Price,
                         feePerc: PercentageCapped)
    requires OrderQuantity(p, side, quantity) >= 1
    ensures var orderSide, order := OrderSide(p, side, quantity), OrderQuantity(p, side, quantity);
      var entry := EstEntryPrice(p, side, quantity, market);
      var fee := sdk.orderFee(feePerc, order, market);
      var estimated := EstMargin(p, side, quantity, market) - fee;
      var floor := MarginFloor(sdk, p.leverage, quantity, entry);
      && (p.WithMarketOrder(sdk, market, orderSide, order, feePerc).Ok?
          <==> && (Increases(p, orderSide) ==> quantity <= sdk.maxCrossQuantity)
               && sdk.exposureValid(p.leverage, side, quantity, entry)
               && (if fee <= p.margin then estimated else EstMargin(p, side, quantity, market) - p.margin) >= floor)
      && (Saturates(sdk, p, market, orderSide, order, feePerc) <==> estimated < 0 || p.margin < fee)
  {
    hide CrossPosition.WithMarketOrder, BookedPl, ClosesExactly, AfterOrder, EstMargin, EstEntryPrice, Increases;
    var orderSide, order := OrderSide(p, side, quantity), OrderQuantity(p, side, quantity);
    EstimatesAreBooked(p, side, quantity, market);
    OrderMakes(sdk, p, market, orderSide, order, feePerc);
    MakeShape(sdk, OrderMargin(sdk, p, market, orderSide, order, feePerc), p.leverage,
              AfterOrder(p, market, orderSide, order),
              p.tradingFees + sdk.orderFee(feePerc, order, market), p.sessionFundingFees,
              p.realizedPl + BookedPl(p, market, orderSide, order));
  }

  /** The estimates depend on the exposure, and on the margin only by adding it. */
  lemma SameExposureSameEstimates(p: CrossPosition, p1: CrossPosition, side: Side, quantity: Quantity, market: Price)
    requires p1.exposure.AsParams() == p.exposure.AsParams()
    ensures OrderSide(p1, side, quantity) == OrderSide(p, side, quantity)
    ensures OrderQuantity(p1, side, quantity) == OrderQuantity(p, side, quantity)
    ensures EstEntryPrice(p1, side, quantity, market) == EstEntryPrice(p, side, quantity, market)
    ensures EstMargin(p1, side, quantity, market) - p1.margin == EstMargin(p, side, quantity, market) - p.margin
  {
    hide EstimatePl, PriceFromInverse, CarriedInverse, AggregateEntryPrice;
  }

  /**
   What a position must hold for a liquidation price: its own margin floor, and a net value that covers
   the margin for that price and the maintenance margin.
   */
  predicate HoldsFor(sdk: Sdk, p: CrossPosition, market: Price, liquidation: Price) {
    && p.exposure.Running?
    && p.margin >= MarginFloor(sdk, p.leverage, p.exposure.quantity, p.exposure.entry)
    && var fromLiquidation := sdk.marginFromLiquidation(p.exposure.side, p.exposure.quantity, market, liquidation);
       && fromLiquidation.Some?
       && p.margin + p.RunningPl(market).Floor
          >= fromLiquidation.value + sdk.maintenanceMargin(p.leverage, p.exposure.quantity, p.exposure.entry)
  }

  /** The collateral can be estimated exactly when the exposure, its floor, the order and the price are within limits. */
  lemma CollateralDefinedIff(sdk: Sdk, p: CrossPosition, side: Side, quantity: Quantity, market: Price,
                             liquidation: Price, feePerc: PercentageCapped)
    ensures var entry := EstEntryPrice(p, side, quantity, market);
      EstCollateralDiff(sdk, p, side, quantity, market, liquidation, feePerc).Some?
      <==> && sdk.exposureValid(p.leverage, side, quantity, entry)
           && MarginFloor(sdk, p.leverage, quantity, entry) <= sdk.maxMargin
           && OrderQuantity(p, side, quantity) <= sdk.maxCrossQuantity
           && sdk.marginFromLiquidation(side, quantity, market, liquidation).Some?
  {
    hide EstEntryPrice, EstMargin, MarginFloor, EstimatePl;
  }

  /** What is estimated, in terms of the margin and the entry that are estimated. */
  lemma CollateralParts(sdk: Sdk, p: CrossPosition, side: Side, quantity: Quantity, market: Price,
                        liquidation: Price, feePerc: PercentageCapped, margin: int, x: int)
    requires EstCollateralDiff(sdk, p, side, quantity, market, liquidation, feePerc).Some?
    requires OrderQuantity(p, side, quantity) >= 1
    requires margin == EstMargin(p, side, quantity, market)
                       - sdk.orderFee(feePerc, OrderQuantity(p, side, quantity), market)
    ensures sdk.marginFromLiquidation(side, quantity, market, liquidation).Some?
    ensures var entry, d := EstEntryPrice(p, side, quantity, market),
                            EstCollateralDiff(sdk, p, side, quantity, market, liquidation, feePerc).value;
      x >= d <==>
        && margin + x >= MarginFloor(sdk, p.leverage, quantity, entry)
        && margin + x + EstimatePl(side, quantity, entry, market).Floor
           >= sdk.marginFromLiquidation(side, quantity, market, liquidation).value
              + sdk.maintenanceMargin(p.leverage, quantity, entry)
  {
    hide EstEntryPrice, EstMargin, MarginFloor, EstimatePl;
  }

  /** The order to the target leaves the estimated exposure, with the fee charged to the estimated margin. */
  lemma TargetReached(sdk: Sdk, p: CrossPosition, side: Side, quantity: Quantity, market: Price,
                      feePerc: PercentageCapped)
    requires 1 <= OrderQuantity(p, side, quantity) <= sdk.maxCrossQuantity
    requires p.WithMarketOrder(sdk, market, OrderSide(p, side, quantity), OrderQuantity(p, side, quantity), feePerc).Ok?
    ensures var orderSide, order := OrderSide(p, side, quantity), OrderQuantity(p, side, quantity);
      var p' := p.WithMarketOrder(sdk, market, orderSide, order, feePerc).value;
      var entry := EstEntryPrice(p, side, quantity, market);
      && p'.exposure.Running? && p'.leverage == p.leverage
      && p'.exposure.side == side && p'.exposure.quantity == quantity && p'.exposure.entry == entry
      && p'.RunningPl(market) == EstimatePl(side, quantity, entry, market)
      && p'.margin >= EstMargin(p, side, quantity, market) - sdk.orderFee(feePerc, order, market)
      && (!Saturates(sdk, p, market, orderSide, order, feePerc) ==>
            p'.margin == EstMargin(p, side, quantity, market) - sdk.orderFee(feePerc, order, market))
      && p'.margin >= MarginFloor(sdk, p.leverage, quantity, entry)
  {
    hide CrossPosition.WithMarketOrder, BookedPl, ClosesExactly, AfterOrder, EstMargin, EstEntryPrice, EstimatePl,
         MarginFloor, Increases, Make;
    var orderSide, order := OrderSide(p, side, quantity), OrderQuantity(p, side, quantity);
    OrderShape(sdk, p, market, orderSide, order, feePerc);
    EstimatesAreBooked(p, side, quantity, market);
    OrderMakes(sdk, p, market, orderSide, order, feePerc);
    MakeShape(sdk, OrderMargin(sdk, p, market, orderSide, order, feePerc), p.leverage,
              AfterOrder(p, market, orderSide, order),
              p.tradingFees + sdk.orderFee(feePerc, order, market), p.sessionFundingFees,
              p.realizedPl + BookedPl(p, market, orderSide, order));
  }

  /**
   Depositing the estimated collateral makes the target order pass validation, even when its fee
   clamps the margin, provided the fee charged is at most the fee estimated. What it leaves holds for
   the wanted liquidation price.
   */
  lemma DepositMakesOrderValid(sdk: Sdk, p: CrossPosition, p1: CrossPosition, side: Side, quantity: Quantity,
                               market: Price, liquidation: Price,
                               estFeePerc: PercentageCapped, feePerc: PercentageCapped)
    requires quantity <= sdk.maxCrossQuantity
    requires OrderQuantity(p, side, quantity) >= 1
    requires sdk.orderFee(feePerc, OrderQuantity(p, side, quantity), market)
          <= sdk.orderFee(estFeePerc, OrderQuantity(p, side, quantity), market)
    requires EstCollateralDiff(sdk, p, side, quantity, market, liquidation, estFeePerc).Some?
    requires p1.leverage == p.leverage && p1.exposure.AsParams() == p.exposure.AsParams()
    requires p1.margin >= p.margin + EstCollateralDiff(sdk, p, side, quantity, market, liquidation, estFeePerc).value
    ensures OrderSide(p1, side, quantity) == OrderSide(p, side, quantity)
    ensures OrderQuantity(p1, side, quantity) == OrderQuantity(p, side, quantity)
    ensures var r := p1.WithMarketOrder(sdk, market, OrderSide(p, side, quantity),
                                        OrderQuantity(p, side, quantity), feePerc);
      r.Ok? && r.value.SignedQuantity() == Signed(side, quantity) && HoldsFor(sdk, r.value, market, liquidation)
  {
    hide CrossPosition.WithMarketOrder, EstimatePl, Saturates, EstEntryPrice, EstMargin, MarginFloor, OrderSide,
         OrderQuantity, Increases, EstCollateralDiff;
    var order := OrderQuantity(p, side, quantity);
    SameExposureSameEstimates(p, p1, side, quantity, market);
    CollateralDefinedIff(sdk, p, side, quantity, market, liquidation, estFeePerc);
    CollateralParts(sdk, p, side, quantity, market, liquidation, estFeePerc,
                    EstMargin(p, side, quantity, market) - sdk.orderFee(estFeePerc, order, market),
                    p1.margin - p.margin);
    OrderAcceptedIff(sdk, p1, side, quantity, market, feePerc);
    TargetReached(sdk, p1, side, quantity, market, feePerc);
    SignedOf(p1.WithMarketOrder(sdk, market, OrderSide(p, side, quantity), order, feePerc).value);
  }

  lemma SignedOf(p: CrossPosition)
    requires p.exposure.Running?
    ensures p.SignedQuantity() == Signed(p.exposure.side, p.exposure.quantity)
  {
  }

  /**
   The estimate is exact: with at least that much added to the margin, the target order is accepted and
   what it leaves holds for the wanted liquidation price; with less, unless the margin is clamped, not.
   */
  lemma CollateralIsExact(sdk: Sdk, p: CrossPosition, p1: CrossPosition, side: Side, quantity: Quantity,
                          market: Price, liquidation: Price, feePerc: PercentageCapped)
    requires quantity <= sdk.maxCrossQuantity
    requires OrderQuantity(p, side, quantity) >= 1
    requires EstCollateralDiff(sdk, p, side, quantity, market, liquidation, feePerc).Some?
    requires p1.leverage == p.leverage && p1.exposure.AsParams() == p.exposure.AsParams()
    ensures var d := EstCollateralDiff(sdk, p, side, quantity, market, liquidation, feePerc).value;
      var orderSide, order := OrderSide(p, side, quantity), OrderQuantity(p, side, quantity);
      var r := p1.WithMarketOrder(sdk, market, orderSide, order, feePerc);
      && (p1.margin >= p.margin + d ==> r.Ok? && HoldsFor(sdk, r.value, market, liquidation))
      && (r.Ok? && HoldsFor(sdk, r.value, market, liquidation) ==>
            p1.margin >= p.margin + d || Saturates(sdk, p1, market, orderSide, order, feePerc))
  {
    hide CrossPosition.WithMarketOrder, EstimatePl, Saturates, EstEntryPrice, EstMargin, MarginFloor, OrderSide,
         OrderQuantity, Increases, EstCollateralDiff;
    var order := OrderQuantity(p, side, quantity);
    SameExposureSameEstimates(p, p1, side, quantity, market);
    CollateralDefinedIff(sdk, p, side, quantity, market, liquidation, feePerc);
    if p1.margin >= p.margin + EstCollateralDiff(sdk, p, side, quantity, market, liquidation, feePerc).value {
      DepositMakesOrderValid(sdk, p, p1, side, quantity, market, liquidation, feePerc, feePerc);
    } else if p1.WithMarketOrder(sdk, market, OrderSide(p, side, quantity), order, feePerc).Ok? {
      TargetReached(sdk, p1, side, quantity, market, feePerc);
      CollateralParts(sdk, p, side, quantity, market, liquidation, feePerc,
                      EstMargin(p, side, quantity, market) - sdk.orderFee(feePerc, order, market),
                      p1.margin - p.margin);
    }
  }

  /** At the target already, the same holds of the position as it is, without an order. */
  lemma CollateralWithoutOrder(sdk: Sdk, p: CrossPosition, p1: CrossPosition, market: Price, liquidation: Price,
                               feePerc: PercentageCapped)
    requires p.exposure.Running? && p1.exposure.Running?
    requires p1.leverage == p.leverage && p1.exposure.AsParams() == p.exposure.AsParams()
    requires EstCollateralDiff(sdk, p, p.exposure.side, p.exposure.quantity, market, liquidation, feePerc).Some?
    ensures var d := EstCollateralDiff(sdk, p, p.exposure.side, p.exposure.quantity, market, liquidation, feePerc).value;
      p1.margin >= p.margin + d <==> HoldsFor(sdk, p1, market, liquidation)
  {
    hide MarginFloor, EstimatePl;
  }

  // ----- A collapse that happens

  lemma LossOfCollapsedLong()
    ensures Inverse(MIN_TICK) == SATS_PER_BTC
    ensures EstimatePl(Buy, 999, 200_000, 100_000) < 0.0
    ensures CarriedInverse(Buy, 1_000, 200_000, 1, 100_000) == -998_000.0
  {
    assert Inverse(100_000) == 2000.0 && Inverse(200_000) == 1000.0;
  }

  lemma CollapsesToOneDollar(p: CrossPosition)
    requires p.exposure.Running? && p.exposure.side == Buy
    requires p.exposure.quantity == 1_000 && p.exposure.entry == 200_000
    ensures RewrittenInverse(p, 100_000, Sell, 999) == Some(-998_000.0) && !InBounds(-998_000.0)
    ensures PriceFromInverse(-998_000.0) == MIN_TICK
  {
    hide EstimatePl, CarriedInverse, AggregateInverse, Inverse;
    LossOfCollapsedLong();
    OutOfBoundsPrice(-998_000.0);
  }

  /** Selling 999 of a long of 1 000 is the order toward a long of 1. */
  lemma SellsDownToOne(p: CrossPosition)
    requires p.exposure.Running? && p.exposure.side == Buy
    requires p.exposure.quantity == 1_000 && p.exposure.entry == 200_000
    ensures OrderSide(p, Buy, 1) == Sell && OrderQuantity(p, Buy, 1) == 999
    ensures EstEntryPrice(p, Buy, 1, 100_000) == MIN_TICK
    ensures EstMargin(p, Buy, 1, 100_000) == p.margin
  {
    hide EstimatePl, CarriedInverse, AggregateEntryPrice, PriceFromInverse;
    LossOfCollapsedLong();
    CollapsesToOneDollar(p);
  }

  /**
   A long of 1 000 at 100 000 dollars reduced by 999 at 50 000, with a margin that covers the fee and
   the floor of what is left: the order is accepted, its entry becomes one dollar, and 0.9 BTC appears.
   */
  lemma CollapsedLong(sdk: Sdk, p: CrossPosition, feePerc: PercentageCapped)
    requires p.exposure.Running? && p.exposure.side == Buy
    requires p.exposure.quantity == 1_000 && p.exposure.entry == 200_000
    requires sdk.exposureValid(p.leverage, Buy, 1, MIN_TICK)
    requires p.margin >= sdk.orderFee(feePerc, 999, 100_000) + MarginFloor(sdk, p.leverage, 1, MIN_TICK)
    ensures var r := p.WithMarketOrder(sdk, 100_000, Sell, 999, feePerc);
      && r.Ok?
      && !EntryInBounds(p, 100_000, Sell, 999)
      && r.value.exposure.Running? && r.value.exposure.entry == MIN_TICK
      && NetValue(r.value, 100_000) > NetValue(p, 100_000) - sdk.orderFee(feePerc, 999, 100_000) as real + 90_000_000.0
  {
    hide CrossPosition.WithMarketOrder, PriceFromInverse, Saturates, RewrittenInverse, OrderSide, OrderQuantity,
         EstEntryPrice, EstMargin, MarginFloor, Increases, InBounds, CarriedInverse;
    var market: Price := 100_000;
    SellsDownToOne(p);
    OrderAcceptedIff(sdk, p, Buy, 1, market, feePerc);
    NotIncreased(p);
    CollapsesToOneDollar(p);
    LossOfCollapsedLong();
    RewrittenShape(sdk, p, market, Sell, 999, feePerc);
    OrderBooks(sdk, p, market, Sell, 999, feePerc);
    RunningPlAfterRewrite(sdk, p, market, Sell, 999, feePerc);
    RewritingBooksNothing(p, market, Sell, 999);
  }

  lemma NotIncreased(p: CrossPosition)
    requires p.exposure.Running? && p.exposure.side == Buy
    ensures !Increases(p, Sell)
  {
  }
}
