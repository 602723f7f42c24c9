/** What closing and funding are worth in whole satoshis, by their own formulas, and that the code comes to the same. */
module Valuation {
  import opened Basics
  import opened Market
  import opened Pricing
  import opened CrossPosition

  /** Whole satoshis of profit or loss: a long gains what the inverse of the price falls, a short what it rises. */
  function PlOf(side: Side, quantity: Quantity, entry: Price, price: Price): int {
    var atEntry, atPrice := SATS_PER_BTC / Dollars(entry), SATS_PER_BTC / Dollars(price);
    (quantity as real * if side == Buy then atEntry - atPrice else atPrice - atEntry).Floor
  }

  lemma PlIsOf(side: Side, quantity: Quantity, entry: Price, price: Price)
    ensures EstimatePl(side, quantity, entry, price).Floor == PlOf(side, quantity, entry, price)
  {
    var atEntry, atPrice := SATS_PER_BTC / Dollars(entry), SATS_PER_BTC / Dollars(price);
    assert -1.0 * (quantity as real * (atEntry - atPrice)) == quantity as real * (atPrice - atEntry);
  }

  /** `n` is the whole number nearest to `x`, the one farther from zero when there are two. */
  predicate NearestWhole(x: real, n: int) {
    && n as real - 0.5 <= x <= n as real + 0.5
    && (x == n as real + 0.5 ==> x < 0.0)
    && (x == n as real - 0.5 ==> x > 0.0)
  }

  function NearestInt(x: real): (n: int)
    ensures NearestWhole(x, n)
    ensures forall m :: NearestWhole(x, m) ==> m == n
  {
    var below := x.Floor;
    var rest := x - below as real;
    if rest < 0.5 || (rest == 0.5 && x < 0.0) then below else below + 1
  }

  /** What a settlement takes from a position; below zero, what it pays. Longs pay at a positive rate, shorts receive. */
  function Charge(side: Side, quantity: Quantity, settlement: Settlement): int {
    var sats := NearestInt(FundingValue(quantity, settlement));
    if side == Buy then sats else -sats
  }

  /** The value of the position in satoshis at the fixing price, times the rate. */
  function FundingValue(quantity: Quantity, settlement: Settlement): real {
    quantity as real * SATS_PER_BTC / settlement.fixingPrice * settlement.fundingRate
  }

  lemma RoundAwayIsNearest(x: real)
    ensures RoundAway(x) == NearestInt(x) && RoundAway(-x) == -NearestInt(x)
  {
    assert NearestWhole(x, RoundAway(x));
    assert NearestWhole(x, -RoundAway(-x));
  }

  lemma SignedNearest(side: Side, x: real)
    ensures RoundAway(SideSign(side) * x) == if side == Buy then NearestInt(x) else -NearestInt(x)
  {
    hide RoundAway, NearestInt;
    RoundAwayIsNearest(x);
    assert SideSign(side) * x == if side == Buy then x else -x;
  }

  lemma RawFundingIsValue(quantity: Quantity, settlement: Settlement)
    ensures RawFunding(quantity, settlement) == FundingValue(quantity, settlement)
  {
    var x := quantity as real / settlement.fixingPrice;
    assert x * settlement.fixingPrice == quantity as real;
    QuotientOf(quantity as real * SATS_PER_BTC, settlement.fixingPrice, x * SATS_PER_BTC);
    assert x * settlement.fundingRate * SATS_PER_BTC == x * SATS_PER_BTC * settlement.fundingRate;
  }

  lemma QuotientOf(x: real, y: real, q: real)
    requires y > 0.0 && q * y == x
    ensures x / y == q
  {
  }

  lemma ChargeIs(side: Side, quantity: Quantity, settlement: Settlement)
    ensures FundingFee(side, quantity, settlement) == Charge(side, quantity, settlement)
  {
    hide NearestInt, FundingValue, RawFunding;
    RawFundingIsValue(quantity, settlement);
    SignedNearest(side, RawFunding(quantity, settlement));
  }
}
