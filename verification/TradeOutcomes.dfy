/**
 What a candle, a manual close and a settlement do to one running trade, in terms of the candle, the
 prices and the stored trade, and what a pass over all of them adds up to.
 */
module TradeOutcomes {
  import opened Basics
  import opened Market
  import opened Pricing
  import opened Valuation
  import opened CrossPosition
  import opened Trades
  import opened ExecutorSpec

  // ----- What a closed trade earns

  function PlAt(trade: Trade, price: Price): int {
    PlOf(trade.side, trade.quantity, trade.price, price)
  }

  /** What closing pays out: everything that was locked but the opening fee, less the closing fee, and the P/L. */
  function Payout(closed: ClosedTrade): int {
    closed.trade.margin + closed.trade.openingFee + closed.trade.closingFeeReserved - closed.closingFee
    + PlAt(closed.trade, closed.closePrice)
  }

  lemma PayoutIs(closed: ClosedTrade)
    ensures closed.Proceeds() == Payout(closed)
    ensures closed.Pl() == PlAt(closed.trade, closed.closePrice)
  {
    hide PlOf, EstimatePl;
    PlIsOf(closed.trade.side, closed.trade.quantity, closed.trade.price, closed.closePrice);
  }

  // ----- A candle

  /** The price that stops a trade: its stop, or its liquidation if it has none. */
  function StopOf(trade: Trade): Price {
    if trade.stoploss.Some? then trade.stoploss.value else trade.liquidation
  }

  /**
   The price a candle closes a trade at. A long is stopped before it can take profit; a short whose
   candle spans both prices takes profit.
   */
  function ExitPrice(trade: Trade, candle: Candle): Option<Price> {
    if trade.side == Buy then
      if candle.low <= Dollars(StopOf(trade)) then Some(StopOf(trade))
      else if trade.takeprofit.Some? && candle.high >= Dollars(trade.takeprofit.value) then trade.takeprofit
      else None
    else
      if trade.takeprofit.Some? && candle.low <= Dollars(trade.takeprofit.value) then trade.takeprofit
      else if candle.high >= Dollars(StopOf(trade)) then Some(StopOf(trade))
      else None
  }

  predicate InTicks(t: int) {
    MIN_TICK <= t <= MAX_TICK
  }

  /** A price moved up or down by a percentage, before it is rounded. */
  function MovedUp(p: int, percentage: real): real {
    Dollars(p) * (1.0 + percentage / 100.0)
  }

  function MovedDown(p: int, percentage: real): real {
    Dollars(p) * (1.0 - percentage / 100.0)
  }

  lemma GainMovesUp(p: Price, percentage: Percentage)
    ensures ApplyGain(p, percentage) == RoundPrice(MovedUp(p, percentage))
  {
  }

  lemma DiscountMovesDown(p: Price, percentage: PercentageCapped)
    ensures ApplyDiscount(p, percentage) == RoundPrice(MovedDown(p, percentage))
  {
  }

  /** The price a trailing stop moves to, before it is rounded: the rounded extreme less, or plus, the percentage. */
  function TrailTo(side: Side, tsl: PercentageCapped, candle: Candle): real {
    if side == Buy then MovedDown(RoundTick(candle.high), tsl) else MovedUp(RoundTick(candle.low), tsl)
  }

  predicate StepIsReached(cfg: Config, side: Side, stop: Price, moved: real) {
    if side == Buy then moved >= Dollars(RoundTick(MovedUp(stop, cfg.step)))
    else moved <= Dollars(RoundTick(MovedDown(stop, cfg.step)))
  }

  /** Whether it moves: by at least one step, in the favourable direction, and not past the rounded close. */
  predicate StopMoves(cfg: Config, side: Side, stop: Price, tsl: PercentageCapped, candle: Candle) {
    var moved := TrailTo(side, tsl, candle);
    && StepIsReached(cfg, side, stop, moved)
    && if side == Buy then RoundTick(moved) < RoundTick(candle.close) else RoundTick(moved) > RoundTick(candle.close)
  }

  /** What a candle makes of a trade it does not close: its trailing stop may move, and nothing else. */
  function Trailed(cfg: Config, candle: Candle, entry: Entry): Entry {
    var trade := entry.trade;
    if entry.tsl.None? || trade.stoploss.None? then entry else
      var moved := RoundPrice(TrailTo(trade.side, entry.tsl.value, candle));
      if moved.Ok? && StopMoves(cfg, trade.side, trade.stoploss.value, entry.tsl.value, candle)
      then entry.(trade := trade.(stoploss := Some(moved.value)))
      else entry
  }

  lemma TriggerByProduct(side: Side, stepped: Price, extreme: int, tsl: PercentageCapped)
    requires side == Buy ==> tsl < 100.0
    ensures side == Buy ==>
      (extreme >= RoundTickUp(Dollars(stepped) / (1.0 - tsl / 100.0)) <==> MovedDown(extreme, tsl) >= Dollars(stepped))
    ensures side == Sell ==>
      (extreme <= RoundTickDown(Dollars(stepped) / (1.0 + tsl / 100.0)) <==> MovedUp(extreme, tsl) <= Dollars(stepped))
  {
    hide Dollars;
    if side == Buy {
      var f := 1.0 - tsl / 100.0;
      RoundUpReaches(Dollars(stepped) / f, extreme);
      QuotientBelow(Dollars(stepped), f, Dollars(extreme));
    } else {
      var f := 1.0 + tsl / 100.0;
      RoundDownReaches(Dollars(stepped) / f, extreme);
      QuotientAbove(Dollars(stepped), f, Dollars(extreme));
    }
  }

  lemma MovedDownIsLower(t: int, percentage: PercentageCapped)
    ensures t >= 0 ==> 0.0 <= MovedDown(t, percentage) <= Dollars(t)
    ensures t <= 0 ==> MovedDown(t, percentage) <= 0.0
    ensures percentage == 100.0 ==> MovedDown(t, percentage) == 0.0
  {
    assert t >= 0 ==> Dollars(t) * (percentage / 100.0) >= 0.0;
    var f := 1.0 - percentage / 100.0;
    assert t >= 0 ==> Dollars(t) * f >= 0.0;
    assert t <= 0 ==> Dollars(t) * f <= 0.0;
  }

  lemma MovedUpIsHigher(t: nat, percentage: PercentageCapped)
    ensures MovedUp(t, percentage) >= Dollars(t)
  {
    assert Dollars(t) * (percentage / 100.0) >= 0.0;
  }

  /**
   The cached trigger of a trailing long is the first price at which the percentage below it is a step
   above the stop. It exists exactly if that step and some price that reaches it are within the bounds.
   */
  lemma LongTriggerIsFirst(cfg: Config, trade: Trade, tsl: PercentageCapped)
    requires trade.stoploss.Some? && trade.side == Buy
    ensures var r, stepped := NextTrigger(cfg, trade, tsl), RoundTick(MovedUp(trade.stoploss.value, cfg.step));
      && (r.Ok? <==> cfg.step <= tsl && stepped <= MAX_TICK && MovedDown(MAX_TICK, tsl) >= Dollars(stepped))
      && (r.Ok? ==> forall p: Price :: p >= r.value <==> MovedDown(p, tsl) >= Dollars(stepped))
  {
    hide RoundTick, RoundTickUp, ApplyGain, MovedUp, MovedDown;
    var stop := trade.stoploss.value;
    GainMovesUp(stop, cfg.step);
    var stepped := RoundTick(MovedUp(stop, cfg.step));
    assert stop <= stepped by {
      MovedUpIsHigher(stop, cfg.step);
      RoundTickMonotone(Dollars(stop), MovedUp(stop, cfg.step));
      RoundTickFixesTicks(stop);
    }
    MovedDownIsLower(MAX_TICK, tsl);
    if stepped <= MAX_TICK && tsl < 100.0 {
      var first := RoundTickUp(Dollars(stepped) / (1.0 - tsl / 100.0));
      forall p: int
        ensures p >= first <==> MovedDown(p, tsl) >= Dollars(stepped)
      {
        TriggerByProduct(Buy, stepped, p, tsl);
      }
      assert first >= first;
      MovedDownIsLower(first, tsl);
      assert MAX_TICK >= first <==> MovedDown(MAX_TICK, tsl) >= Dollars(stepped);
    }
  }

  /** That of a trailing short is the last price at which the percentage above it is a step below the stop. */
  lemma ShortTriggerIsLast(cfg: Config, trade: Trade, tsl: PercentageCapped)
    requires trade.stoploss.Some? && trade.side == Sell
    ensures var r, stepped := NextTrigger(cfg, trade, tsl), RoundTick(MovedDown(trade.stoploss.value, cfg.step));
      && (r.Ok? <==> cfg.step <= tsl && MIN_TICK <= stepped && MovedUp(MIN_TICK, tsl) <= Dollars(stepped))
      && (r.Ok? ==> forall p: Price :: p <= r.value <==> MovedUp(p, tsl) <= Dollars(stepped))
  {
    hide RoundTick, RoundTickDown, ApplyDiscount, MovedUp, MovedDown;
    var stop := trade.stoploss.value;
    DiscountMovesDown(stop, cfg.step);
    var stepped := RoundTick(MovedDown(stop, cfg.step));
    assert stepped <= stop by {
      MovedDownIsLower(stop, cfg.step);
      RoundTickMonotone(MovedDown(stop, cfg.step), Dollars(stop));
      RoundTickFixesTicks(stop);
    }
    if MIN_TICK <= stepped {
      var last := RoundTickDown(Dollars(stepped) / (1.0 + tsl / 100.0));
      forall p: int
        ensures p <= last <==> MovedUp(p, tsl) <= Dollars(stepped)
      {
        TriggerByProduct(Sell, stepped, p, tsl);
      }
      assert last <= last;
      if last >= 0 {
        MovedUpIsHigher(last, tsl);
      }
      assert MIN_TICK <= last <==> MovedUp(MIN_TICK, tsl) <= Dollars(stepped);
    }
  }

  lemma TrailIs(cfg: Config, candle: Candle, entry: Entry)
    requires entry.tsl.Some? && Trail(cfg, candle, entry.trade, entry.tsl.value).Ok?
    ensures entry.(trade := Trail(cfg, candle, entry.trade, entry.tsl.value).value) == Trailed(cfg, candle, entry)
  {
    hide RoundTick, RoundTickUp, RoundTickDown, Dollars, ApplyGain, ApplyDiscount, MovedUp, MovedDown;
    var trade, tsl := entry.trade, entry.tsl.value;
    var stop := trade.stoploss.value;
    var extreme := RoundPrice(if trade.side == Buy then candle.high else candle.low).value;
    GainMovesUp(stop, cfg.step);
    DiscountMovesDown(stop, cfg.step);
    GainMovesUp(extreme, tsl);
    DiscountMovesDown(extreme, tsl);
    TriggerByProduct(trade.side, SteppedStop(cfg.step, trade.side, stop).value, extreme, tsl);
  }

  /** A trailing trade has a trigger: it exists as `LongTriggerIsFirst` and `ShortTriggerIsLast` say. */
  predicate HasTrigger(cfg: Config, entry: Entry) {
    var trade := entry.trade;
    entry.tsl.None? ||
    (&& trade.stoploss.Some? && cfg.step <= entry.tsl.value
     && if trade.side == Buy then
          var stepped := RoundTick(MovedUp(trade.stoploss.value, cfg.step));
          stepped <= MAX_TICK && MovedDown(MAX_TICK, entry.tsl.value) >= Dollars(stepped)
        else
          var stepped := RoundTick(MovedDown(trade.stoploss.value, cfg.step));
          MIN_TICK <= stepped && MovedUp(MIN_TICK, entry.tsl.value) <= Dollars(stepped))
  }

  lemma HasTriggerIff(cfg: Config, entry: Entry, trigger: Trigger)
    ensures entry.tsl.Some? ==> (NextTrigger(cfg, entry.trade, entry.tsl.value).Ok? <==> HasTrigger(cfg, entry))
    ensures trigger.Update(cfg, entry).Ok? <==> HasTrigger(cfg, entry)
  {
    hide RoundTick, MovedUp, MovedDown, Dollars, SteppedStop, RoundPriceUp, RoundPriceDown;
    var trade := entry.trade;
    if entry.tsl.Some? && trade.stoploss.Some? {
      if trade.side == Buy {
        LongTriggerIsFirst(cfg, trade, entry.tsl.value);
      } else {
        ShortTriggerIsLast(cfg, trade, entry.tsl.value);
      }
    }
  }

  /**
   The stop can be trailed: all prices are within bounds, and a stop that moves is one the exchange takes.
   */
  predicate CanTrail(cfg: Config, candle: Candle, entry: Entry) {
    var trade := entry.trade;
    entry.tsl.None? ||
    (var moved, market := TrailTo(trade.side, entry.tsl.value, candle), RoundTick(candle.close);
     && HasTrigger(cfg, entry) && trade.stoploss.Some? && InTicks(market)
     && InTicks(RoundTick(if trade.side == Buy then candle.high else candle.low))
     && (StepIsReached(cfg, trade.side, trade.stoploss.value, moved) ==>
           && InTicks(RoundTick(moved))
           && (StopMoves(cfg, trade.side, trade.stoploss.value, entry.tsl.value, candle) ==>
                 cfg.sdk.stoplossValid(trade.side, trade.liquidation, trade.takeprofit, market, RoundTick(moved)))))
  }

  lemma CanTrailIff(cfg: Config, candle: Candle, entry: Entry)
    requires entry.tsl.Some?
    ensures Trail(cfg, candle, entry.trade, entry.tsl.value).Ok? <==> CanTrail(cfg, candle, entry)
  {
    hide RoundTick, RoundTickUp, RoundTickDown, Dollars, ApplyGain, ApplyDiscount, MovedUp, MovedDown, HasTrigger;
    var trade, tsl := entry.trade, entry.tsl.value;
    HasTriggerIff(cfg, entry, NotSet);
    var extreme := RoundPrice(if trade.side == Buy then candle.high else candle.low);
    if HasTrigger(cfg, entry) && extreme.Ok? {
      var stop := trade.stoploss.value;
      GainMovesUp(stop, cfg.step);
      DiscountMovesDown(stop, cfg.step);
      GainMovesUp(extreme.value, tsl);
      DiscountMovesDown(extreme.value, tsl);
      TriggerByProduct(trade.side, SteppedStop(cfg.step, trade.side, stop).value, extreme.value, tsl);
    }
  }

  // ----- A settlement

  /** The trade cannot pay: too little margin would be left, or its leverage would be too high. */
  predicate CannotPay(cfg: Config, trade: Trade, charge: int) {
    charge > 0 && (trade.margin - charge < cfg.sdk.minMargin
                   || cfg.sdk.leverageOf(trade.quantity, trade.margin - charge, trade.price).TooHigh?)
  }

  /** A trade that pays has the charge less margin, and the leverage and the liquidation that go with it. */
  function Charged(cfg: Config, trade: Trade, charge: int): Trade
    requires !CannotPay(cfg, trade, charge)
  {
    if charge <= 0 then trade else
      var left := trade.margin - charge;
      var leverage := match cfg.sdk.leverageOf(trade.quantity, left, trade.price)
        case Valid(leverage) => leverage
        case _ => cfg.sdk.minLeverage;
      trade.(margin := left, leverage := leverage,
             liquidation := cfg.sdk.liquidationOf(trade.side, trade.quantity, trade.price, leverage))
  }

  // ----- A pass, trade by trade

  /** What becomes of one trade. */
  function Outcome(cfg: Config, pass: Pass, entry: Entry): Visit {
    var trade := entry.trade;
    match pass
    case CandlePass(candle) =>
      (match ExitPrice(trade, candle)
       case Some(price) => Closes(ClosedAt(cfg, trade, price), 0)
       case None => Keeps(Trailed(cfg, candle, entry), 0))
    case ClosePass(selection, market) =>
      if selection == All || selection == Single(trade.id) || selection == OneSide(trade.side)
      then Closes(ClosedAt(cfg, trade, market), 0)
      else Keeps(entry, 0)
    case FundingPass(settlement, marketPrice) =>
      var charge := Charge(trade.side, trade.quantity, settlement);
      if CannotPay(cfg, trade, charge) then Closes(ClosedAt(cfg, trade, BoundedPrice(marketPrice)), charge)
      else Keeps(entry.(trade := Charged(cfg, trade, charge)), charge)
  }

  function ClosedAt(cfg: Config, trade: Trade, price: Price): ClosedTrade {
    ClosedTrade(trade, price, cfg.sdk.orderFee(cfg.feePerc, trade.quantity, price))
  }

  lemma CandleVisit(cfg: Config, candle: Candle, entry: Entry)
    requires VisitEntry(cfg, CandlePass(candle), entry).Ok?
    ensures VisitEntry(cfg, CandlePass(candle), entry).value == Outcome(cfg, CandlePass(candle), entry)
  {
    hide Trail, Dollars, StopMoves, TrailTo, RoundPrice;
    if entry.tsl.Some? && Trail(cfg, candle, entry.trade, entry.tsl.value).Ok? {
      TrailIs(cfg, candle, entry);
    }
  }

  lemma FundingVisit(cfg: Config, settlement: Settlement, marketPrice: real, entry: Entry)
    requires VisitEntry(cfg, FundingPass(settlement, marketPrice), entry).Ok?
    ensures VisitEntry(cfg, FundingPass(settlement, marketPrice), entry).value
         == Outcome(cfg, FundingPass(settlement, marketPrice), entry)
  {
    hide FundingFee, Charge;
    ChargeIs(entry.trade.side, entry.trade.quantity, settlement);
  }

  lemma VisitIs(cfg: Config, pass: Pass, entry: Entry)
    requires VisitEntry(cfg, pass, entry).Ok?
    ensures VisitEntry(cfg, pass, entry).value == Outcome(cfg, pass, entry)
  {
    match pass
    case CandlePass(candle) => CandleVisit(cfg, candle, entry);
    case FundingPass(settlement, marketPrice) => FundingVisit(cfg, settlement, marketPrice, entry);
    case ClosePass(_, _) =>
  }

  /** The trades a pass closes, in the order of the running trades. */
  function Exits(cfg: Config, pass: Pass, entries: seq<Entry>): seq<ClosedTrade> {
    if entries == [] then [] else
      (match Outcome(cfg, pass, entries[0])
       case Closes(closed, _) => [closed]
       case Keeps(_, _) => [])
      + Exits(cfg, pass, entries[1..])
  }

  /** The trades it keeps, as it leaves them. */
  function Stays(cfg: Config, pass: Pass, entries: seq<Entry>): seq<Entry> {
    if entries == [] then [] else
      (match Outcome(cfg, pass, entries[0])
       case Closes(_, _) => []
       case Keeps(entry, _) => [entry])
      + Stays(cfg, pass, entries[1..])
  }

  /** What it pays into the balance. A charge on a trade that is kept comes out of its margin instead. */
  function Pays(cfg: Config, pass: Pass, entries: seq<Entry>): int {
    if entries == [] then 0 else
      (match Outcome(cfg, pass, entries[0])
       case Closes(closed, charge) => Payout(closed) - charge
       case Keeps(_, charge) => if charge < 0 then -charge else 0)
      + Pays(cfg, pass, entries[1..])
  }

  function Charges(cfg: Config, pass: Pass, entries: seq<Entry>): int {
    if entries == [] then 0 else Outcome(cfg, pass, entries[0]).fee + Charges(cfg, pass, entries[1..])
  }

  function Earned(closed: seq<ClosedTrade>): int {
    if closed == [] then 0 else PlAt(closed[0].trade, closed[0].closePrice) + Earned(closed[1..])
  }

  function FeesOf(closed: seq<ClosedTrade>): nat {
    if closed == [] then 0 else closed[0].trade.openingFee + closed[0].closingFee + FeesOf(closed[1..])
  }

  /** How a book changes: trades closed and kept, satoshis paid in, and funding charged. */
  ghost predicate Books(exits: seq<ClosedTrade>, stays: seq<Entry>, pays: int, charges: int, before: Book, after: Book) {
    && after.closed == before.closed + exits
    && after.running == before.running + stays
    && after.balance == before.balance + pays
    && after.fundingFees == before.fundingFees + charges
    && after.realizedPl == before.realizedPl + Earned(exits)
    && after.closedFees == before.closedFees + FeesOf(exits)
  }

  /** The book after a pass. */
  ghost predicate PassBooks(cfg: Config, pass: Pass, entries: seq<Entry>, before: Book, after: Book) {
    Books(Exits(cfg, pass, entries), Stays(cfg, pass, entries), Pays(cfg, pass, entries),
          Charges(cfg, pass, entries), before, after)
  }

  lemma EarnedCons(closed: ClosedTrade, rest: seq<ClosedTrade>)
    ensures Earned([closed] + rest) == PlAt(closed.trade, closed.closePrice) + Earned(rest)
    ensures FeesOf([closed] + rest) == closed.trade.openingFee + closed.closingFee + FeesOf(rest)
    ensures Earned([closed]) == PlAt(closed.trade, closed.closePrice)
    ensures FeesOf([closed]) == closed.trade.openingFee + closed.closingFee
  {
    hide PlAt;
    assert ([closed] + rest)[1..] == rest && [closed] + [] == [closed];
  }

  lemma VisitBooks(cfg: Config, pass: Pass, entry: Entry, book: Book)
    requires VisitOne(cfg, pass, entry, book).Ok?
    ensures PassBooks(cfg, pass, [entry], book, VisitOne(cfg, pass, entry, book).value)
  {
    hide VisitEntry, Outcome, Trigger.Update, EstimatePl, Payout, PlAt, ClosedTrade.Proceeds, ClosedTrade.Pl;
    VisitIs(cfg, pass, entry);
    var visit := Outcome(cfg, pass, entry);
    OfOne(cfg, pass, entry);
    if visit.Closes? {
      PayoutIs(visit.closed);
      EarnedCons(visit.closed, []);
    }
  }

  lemma OfOne(cfg: Config, pass: Pass, entry: Entry)
    ensures var visit := Outcome(cfg, pass, entry);
      && Exits(cfg, pass, [entry]) == (if visit.Closes? then [visit.closed] else [])
      && Stays(cfg, pass, [entry]) == (if visit.Keeps? then [visit.entry] else [])
      && Pays(cfg, pass, [entry]) == (if visit.Closes? then Payout(visit.closed) - visit.fee else Max(0, -visit.fee))
      && Charges(cfg, pass, [entry]) == visit.fee
  {
    hide Outcome, Payout;
    assert [entry][1..] == [];
  }

  lemma BooksChain(e1: seq<ClosedTrade>, s1: seq<Entry>, p1: int, c1: int,
                   e2: seq<ClosedTrade>, s2: seq<Entry>, p2: int, c2: int, before: Book, next: Book, after: Book)
    requires |e1| <= 1
    requires Books(e1, s1, p1, c1, before, next) && Books(e2, s2, p2, c2, next, after)
    ensures Books(e1 + e2, s1 + s2, p1 + p2, c1 + c2, before, after)
  {
    hide PlAt;
    assert before.closed + e1 + e2 == before.closed + (e1 + e2);
    assert before.running + s1 + s2 == before.running + (s1 + s2);
    if e1 == [] {
      assert e1 + e2 == e2;
    } else {
      assert e1 == [e1[0]];
      EarnedCons(e1[0], e2);
    }
  }

  lemma PassCons(cfg: Config, pass: Pass, entries: seq<Entry>)
    requires entries != []
    ensures var one, rest := [entries[0]], entries[1..];
      && Exits(cfg, pass, entries) == Exits(cfg, pass, one) + Exits(cfg, pass, rest)
      && Stays(cfg, pass, entries) == Stays(cfg, pass, one) + Stays(cfg, pass, rest)
      && Pays(cfg, pass, entries) == Pays(cfg, pass, one) + Pays(cfg, pass, rest)
      && Charges(cfg, pass, entries) == Charges(cfg, pass, one) + Charges(cfg, pass, rest)
      && |Exits(cfg, pass, one)| <= 1
  {
    hide Outcome, Payout;
    OfOne(cfg, pass, entries[0]);
  }

  lemma BooksCons(cfg: Config, pass: Pass, entries: seq<Entry>, before: Book, next: Book, after: Book)
    requires entries != []
    requires PassBooks(cfg, pass, [entries[0]], before, next)
    requires PassBooks(cfg, pass, entries[1..], next, after)
    ensures PassBooks(cfg, pass, entries, before, after)
  {
    hide Outcome, Payout, Books;
    PassCons(cfg, pass, entries);
    var one, rest := [entries[0]], entries[1..];
    BooksChain(Exits(cfg, pass, one), Stays(cfg, pass, one), Pays(cfg, pass, one), Charges(cfg, pass, one),
               Exits(cfg, pass, rest), Stays(cfg, pass, rest), Pays(cfg, pass, rest), Charges(cfg, pass, rest),
               before, next, after);
  }

  /** Every pass over the running trades, whatever its kind. */
  lemma {:induction false} PassOutcome(cfg: Config, pass: Pass, entries: seq<Entry>, book: Book)
    requires VisitAll(cfg, pass, entries, book).Ok?
    ensures PassBooks(cfg, pass, entries, book, VisitAll(cfg, pass, entries, book).value)
    decreases |entries|
  {
    hide PassBooks, VisitOne;
    if entries == [] {
      NothingBooked(cfg, pass, book);
    } else {
      var next := VisitOne(cfg, pass, entries[0], book).value;
      VisitBooks(cfg, pass, entries[0], book);
      PassOutcome(cfg, pass, entries[1..], next);
      BooksCons(cfg, pass, entries, book, next, VisitAll(cfg, pass, entries, book).value);
    }
  }

  lemma NothingBooked(cfg: Config, pass: Pass, book: Book)
    ensures PassBooks(cfg, pass, [], book, book)
  {
  }

  /** A pass can visit a trade: what it must round is a price, and a trailing trade that is kept has a trigger. */
  predicate CanVisit(cfg: Config, pass: Pass, entry: Entry) {
    var trade := entry.trade;
    match pass
    case CandlePass(candle) => ExitPrice(trade, candle).Some? ||
                               (CanTrail(cfg, candle, entry) && HasTrigger(cfg, Trailed(cfg, candle, entry)))
    case ClosePass(_, _) => Outcome(cfg, pass, entry).Closes? || HasTrigger(cfg, entry)
    case FundingPass(settlement, marketPrice) =>
      if CannotPay(cfg, trade, Charge(trade.side, trade.quantity, settlement)) then InTicks(RoundTick(marketPrice))
      else HasTrigger(cfg, entry)
  }

  lemma CandleVisitIff(cfg: Config, candle: Candle, entry: Entry)
    ensures VisitEntry(cfg, CandlePass(candle), entry).Ok?
       <==> ExitPrice(entry.trade, candle).Some? || CanTrail(cfg, candle, entry)
  {
    hide Trail, Dollars, HasTrigger, TrailTo, StopMoves, StepIsReached, RoundTick;
    if entry.tsl.Some? {
      CanTrailIff(cfg, candle, entry);
    }
  }

  lemma FundingVisitIff(cfg: Config, settlement: Settlement, marketPrice: real, entry: Entry)
    ensures VisitEntry(cfg, FundingPass(settlement, marketPrice), entry).Ok? <==>
      (CannotPay(cfg, entry.trade, Charge(entry.trade.side, entry.trade.quantity, settlement)) ==>
         InTicks(RoundTick(marketPrice)))
  {
    hide FundingFee, Charge, RoundTick;
    ChargeIs(entry.trade.side, entry.trade.quantity, settlement);
  }

  /** Charging a trade leaves what its trigger depends on. */
  lemma ChargeKeepsTrigger(cfg: Config, entry: Entry, charge: int)
    requires !CannotPay(cfg, entry.trade, charge)
    ensures HasTrigger(cfg, entry.(trade := Charged(cfg, entry.trade, charge))) <==> HasTrigger(cfg, entry)
  {
    hide MovedUp, MovedDown, RoundTick;
  }

  lemma VisitOneIff(cfg: Config, pass: Pass, entry: Entry, book: Book)
    ensures VisitOne(cfg, pass, entry, book).Ok? <==> CanVisit(cfg, pass, entry)
  {
    hide VisitEntry, HasTrigger, Trailed, CanTrail, ExitPrice, CannotPay, Charged, Charge, RoundTick, Trigger.Update,
         ClosedTrade.Proceeds, ClosedTrade.Pl;
    if VisitEntry(cfg, pass, entry).Ok? {
      VisitIs(cfg, pass, entry);
    }
    var outcome := Outcome(cfg, pass, entry);
    if outcome.Keeps? {
      HasTriggerIff(cfg, outcome.entry, book.trigger);
    }
    match pass
    case CandlePass(candle) => CandleVisitIff(cfg, candle, entry);
    case FundingPass(settlement, marketPrice) =>
      FundingVisitIff(cfg, settlement, marketPrice, entry);
      var charge := Charge(entry.trade.side, entry.trade.quantity, settlement);
      if !CannotPay(cfg, entry.trade, charge) {
        ChargeKeepsTrigger(cfg, entry, charge);
      }
    case ClosePass(_, _) => CloseVisits(cfg, pass, entry);
  }

  lemma CloseVisits(cfg: Config, pass: Pass, entry: Entry)
    requires pass.ClosePass?
    ensures VisitEntry(cfg, pass, entry).Ok?
  {
  }

  /** A pass succeeds exactly if it can visit every trade. */
  lemma {:induction false} PassSucceedsIff(cfg: Config, pass: Pass, entries: seq<Entry>, book: Book)
    ensures VisitAll(cfg, pass, entries, book).Ok? <==> forall entry <- entries :: CanVisit(cfg, pass, entry)
    decreases |entries|
  {
    hide VisitOne, CanVisit;
    if entries != [] {
      assert entries == [entries[0]] + entries[1..];
      VisitOneIff(cfg, pass, entries[0], book);
      var next := VisitOne(cfg, pass, entries[0], book);
      if next.Ok? {
        PassSucceedsIff(cfg, pass, entries[1..], next.value);
      }
    }
  }
}
