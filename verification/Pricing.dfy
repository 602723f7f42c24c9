/**
 The parts of `lnm_sdk` that the trading code calls. Prices live on a half-dollar tick grid
 between two bounds. P/L and averaged entries follow the inverse-contract formulas. Every formula
 whose exact form is not visible is a field of `Sdk`, so what is proved holds for all of them.
 */
module Pricing {
  import opened Basics

  const SATS_PER_BTC: real := 100_000_000.0
  const MIN_TICK: int := 2
  const MAX_TICK: int := 200_000_000

  // ----- Prices and rounding

  /** A price, counted in half-dollar ticks, so every price is on the grid. */
  type Price = t: int | MIN_TICK <= t <= MAX_TICK witness MIN_TICK

  type Quantity = n: nat | 1 <= n witness 1

  type Percentage = x: real | 0.0 <= x witness 0.0

  type PercentageCapped = x: real | 0.0 <= x <= 100.0 witness 0.0

  /** The price in dollars. */
  function Dollars(p: int): real {
    p as real / 2.0
  }

  function RoundTick(x: real): int {
    (2.0 * x + 0.5).Floor
  }

  function RoundTickDown(x: real): int {
    (2.0 * x).Floor
  }

  function RoundTickUp(x: real): int {
    -(-2.0 * x).Floor
  }

  function Checked(t: int): Result<Price> {
    if MIN_TICK <= t <= MAX_TICK then Ok(t) else Err(InvalidPrice)
  }

  function RoundPrice(x: real): Result<Price> {
    Checked(RoundTick(x))
  }

  function RoundPriceUp(x: real): Result<Price> {
    Checked(RoundTickUp(x))
  }

  function RoundPriceDown(x: real): Result<Price> {
    Checked(RoundTickDown(x))
  }

  /** `Price::bounded`: rounds to a tick and clamps to the price bounds. */
  function BoundedPrice(x: real): Price {
    Max(MIN_TICK, Min(MAX_TICK, RoundTick(x)))
  }

  function ApplyGain(p: Price, gain: Percentage): Result<Price> {
    RoundPrice(Dollars(p) * (1.0 + gain / 100.0))
  }

  function ApplyDiscount(p: Price, discount: PercentageCapped): Result<Price> {
    RoundPrice(Dollars(p) * (1.0 - discount / 100.0))
  }

  lemma RoundTickMonotone(x: real, y: real)
    requires x <= y
    ensures RoundTick(x) <= RoundTick(y)
  {
  }

  lemma RoundTickFixesTicks(t: int)
    ensures RoundTick(Dollars(t)) == RoundTickUp(Dollars(t)) == RoundTickDown(Dollars(t)) == t
  {
  }

  // ----- Inverse contracts

  function Inverse(p: Price): (inv: real)
    ensures inv > 0.0
  {
    SATS_PER_BTC / Dollars(p)
  }

  function SideSign(side: Side): real {
    if side == Buy then 1.0 else -1.0
  }

  function EstimatePl(side: Side, quantity: Quantity, entry: Price, price: Price): real {
    SideSign(side) * (quantity as real * (Inverse(entry) - Inverse(price)))
  }

  /** The price whose inverse is `inv`, bounded as `Price::bounded(SATS_PER_BTC / inv)` bounds it. */
  function PriceFromInverse(inv: real): Price {
    if inv == 0.0 then MAX_TICK else BoundedPrice(SATS_PER_BTC / inv)
  }

  /** Whether some price has exactly the inverse `inv`. */
  predicate Representable(inv: real) {
    inv > 0.0 && exists p: Price :: Dollars(p) == SATS_PER_BTC / inv
  }

  lemma RepresentableIffExact(inv: real)
    ensures Representable(inv) <==> Inverse(PriceFromInverse(inv)) == inv
  {
    hide PriceFromInverse, Representable, Inverse;
    if Representable(inv) {
      PriceOfRepresentable(inv);
    } else if Inverse(PriceFromInverse(inv)) == inv {
      RepresentedBy(PriceFromInverse(inv));
    }
  }

  lemma RepresentedBy(p: Price)
    ensures Representable(Inverse(p))
  {
    hide PriceFromInverse, Inverse;
    InverseTwice(p);
    assert Dollars(p) == SATS_PER_BTC / Inverse(p);
  }

  lemma InverseTwice(p: Price)
    ensures SATS_PER_BTC / Inverse(p) == Dollars(p)
    ensures Inverse(p) * Dollars(p) == SATS_PER_BTC
  {
    QuotientOfQuotient(SATS_PER_BTC, Dollars(p));
  }

  lemma QuotientOfQuotient(x: real, y: real)
    requires x > 0.0 && y > 0.0
    ensures x / y > 0.0 && x / y * y == x && x / (x / y) == y
  {
    var z := x / y;
    assert z * y == x;
    assert z > 0.0;
    assert y * z / z == y;
  }

  lemma PriceOfRepresentable(inv: real)
    requires Representable(inv)
    ensures Inverse(PriceFromInverse(inv)) == inv
  {
    var p: Price :| Dollars(p) == SATS_PER_BTC / inv;
    RoundTickFixesTicks(p);
    assert PriceFromInverse(inv) == p by {
      hide Dollars, RoundTick;
    }
    QuotientOfQuotient(SATS_PER_BTC, inv);
  }

  /** Whether the price with this inverse lies between the price bounds. */
  predicate InBounds(inv: real) {
    inv > 0.0 && Dollars(MIN_TICK) <= SATS_PER_BTC / inv <= Dollars(MAX_TICK)
  }

  lemma InBoundsIff(inv: real)
    ensures InBounds(inv) <==> 1.0 <= inv <= SATS_PER_BTC
  {
    if inv > 0.0 {
      QuotientAbove(SATS_PER_BTC, inv, 1.0);
      QuotientBelow(SATS_PER_BTC, inv, SATS_PER_BTC);
    }
  }

  lemma QuotientAbove(x: real, y: real, bound: real)
    requires y > 0.0
    ensures bound <= x / y <==> bound * y <= x
  {
    var z := x / y;
    assert x == z * y;
    if bound <= z {
      assert (z - bound) * y >= 0.0;
    } else {
      assert (bound - z) * y > 0.0;
    }
  }

  lemma QuotientBelow(x: real, y: real, bound: real)
    requires y > 0.0
    ensures x / y <= bound <==> x <= bound * y
  {
    var z := x / y;
    assert x == z * y;
    if z <= bound {
      assert (bound - z) * y >= 0.0;
    } else {
      assert (z - bound) * y > 0.0;
    }
  }

  lemma InverseBounds(p: Price)
    ensures 1.0 <= Inverse(p) <= SATS_PER_BTC
  {
    QuotientAbove(SATS_PER_BTC, Dollars(p), 1.0);
    QuotientBelow(SATS_PER_BTC, Dollars(p), SATS_PER_BTC);
  }

  /** How far a quarter of a dollar, half a tick, moves the inverse `inv` at the price `p`. */
  function RoundingOfInverse(inv: real, p: Price): real {
    0.25 * inv * Inverse(p) / SATS_PER_BTC
  }

  /** Rounding a price that is in bounds moves its inverse by at most half a tick. */
  lemma PriceKeepsInverse(inv: real)
    requires InBounds(inv)
    ensures var p := PriceFromInverse(inv);
      -RoundingOfInverse(inv, p) <= Inverse(p) - inv <= RoundingOfInverse(inv, p)
  {
    hide Inverse, BoundedPrice;
    var p := PriceFromInverse(inv);
    RoundingIsHalfATick(SATS_PER_BTC / inv);
    InverseTwice(p);
    QuotientOfQuotient(SATS_PER_BTC, inv);
    InverseMoves(inv, Inverse(p), SATS_PER_BTC / inv, Dollars(p));
  }

  lemma RoundingIsHalfATick(x: real)
    requires Dollars(MIN_TICK) <= x <= Dollars(MAX_TICK)
    ensures -0.25 <= x - Dollars(BoundedPrice(x)) <= 0.25
  {
  }

  /** Two prices with their inverses: the inverses differ by the difference of the prices times both inverses. */
  lemma InverseMoves(i: real, j: real, x: real, y: real)
    requires i > 0.0 && j > 0.0
    requires i * x == SATS_PER_BTC && j * y == SATS_PER_BTC
    requires -0.25 <= x - y <= 0.25
    ensures -(0.25 * i * j / SATS_PER_BTC) <= j - i <= 0.25 * i * j / SATS_PER_BTC
  {
    var k := i * j;
    assert k > 0.0;
    Regroup(i, j, x);
    Regroup(j, i, y);
    assert k * (x - y) == k * x - k * y;
    assert k * (0.25 - (x - y)) >= 0.0;
    assert k * (0.25 + (x - y)) >= 0.0;
    assert 0.25 * i * j == 0.25 * k;
  }

  lemma Regroup(i: real, j: real, x: real)
    ensures i * j * x == j * (i * x)
  {
    assert i * j == j * i;
    assert j * i * x == j * (i * x);
  }

  /** A price beyond its bounds becomes the bound, with the inverse of the bound. */
  lemma OutOfBoundsPrice(inv: real)
    requires !InBounds(inv)
    ensures inv < 1.0 || inv > SATS_PER_BTC
    ensures PriceFromInverse(inv) == if 0.0 <= inv < 1.0 then MAX_TICK else MIN_TICK
    ensures inv < 1.0 ==> Inverse(PriceFromInverse(inv)) > inv
    ensures inv > SATS_PER_BTC ==> Inverse(PriceFromInverse(inv)) < inv
  {
    InBoundsIff(inv);
    if inv > 0.0 {
      QuotientAbove(SATS_PER_BTC, inv, SATS_PER_BTC);
      QuotientBelow(SATS_PER_BTC, inv, 1.0);
    } else if inv < 0.0 {
      NegativeDivisor(SATS_PER_BTC, inv);
    }
  }

  lemma NegativeDivisor(x: real, y: real)
    requires x > 0.0 && y < 0.0
    ensures x / y < 0.0
  {
    assert x / y * y == x;
  }

  /** Inverse of the quantity-weighted harmonic mean of two entry prices. */
  function AggregateInverse(q1: Quantity, e1: Price, q2: Quantity, e2: Price): real {
    (q1 as real * Inverse(e1) + q2 as real * Inverse(e2)) / (q1 + q2) as real
  }

  function AggregateEntryPrice(q1: Quantity, e1: Price, q2: Quantity, e2: Price): Price {
    PriceFromInverse(AggregateInverse(q1, e1, q2, e2))
  }

  // ----- The exchange's own formulas

  datatype TradeSize = ByQuantity(quantity: Quantity) | ByMargin(margin: nat)

  datatype OpenParams = OpenParams(
    quantity: Quantity, margin: nat, liquidation: Price, openingFee: nat, closingFeeReserved: nat)

  datatype AddedMargin = AddedMargin(margin: nat, leverage: real, liquidation: Price)

  datatype LeverageEval = Valid(leverage: real) | TooLow | TooHigh

  datatype Sdk = Sdk(
    orderFee: (PercentageCapped, Quantity, Price) -> nat,
    // cross margin: everything but the liquidation depends on leverage, quantity and entry only
    exposureValid: (real, Side, Quantity, Price) -> bool,
    runningMargin: (real, Quantity, Price) -> nat,
    maintenanceMargin: (real, Quantity, Price) -> nat,
    crossLiquidation: (nat, real, Side, Quantity, Price) -> Price,
    marginFromLiquidation: (Side, Quantity, Price, Price) -> Option<nat>,
    maxCrossQuantity: Quantity,
    maxMargin: nat,
    // isolated margin
    openParams: (Side, TradeSize, real, Price, Option<Price>, Option<Price>, PercentageCapped) -> Option<OpenParams>,
    stoplossValid: (Side, Price, Option<Price>, Price, Price) -> bool,
    addedMargin: (Side, Quantity, Price, nat, nat) -> Option<AddedMargin>,
    minMargin: nat,
    minLeverage: real,
    leverageOf: (Quantity, nat, Price) -> LeverageEval,
    liquidationOf: (Side, Quantity, Price, real) -> Price)
}
