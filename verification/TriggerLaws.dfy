/**
 The price trigger is a fast path: when neither candle extreme reaches it, re-evaluating every
 trade would change nothing. Also: trailing stops only ever tighten.
 */
module TriggerLaws {
  import opened Basics
  import opened Market
  import opened Pricing
  import opened CrossPosition
  import opened Trades
  import opened ExecutorSpec

  // ----- Coverage

  ghost predicate CoveredBy(cfg: Config, trigger: Trigger, entry: Entry) {
    && trigger.Set?
    && Bounds(cfg, entry).Ok?
    && Bounds(cfg, entry).value.0 <= trigger.min
    && trigger.max <= Bounds(cfg, entry).value.1
  }

  /** The cached interval lies inside the bounds of every running trade. */
  ghost predicate Covered(cfg: Config, trigger: Trigger, running: seq<Entry>) {
    forall entry <- running :: CoveredBy(cfg, trigger, entry)
  }

  lemma UpdateCovers(cfg: Config, trigger: Trigger, entry: Entry)
    requires trigger.Update(cfg, entry).Ok?
    ensures CoveredBy(cfg, trigger.Update(cfg, entry).value, entry)
    ensures forall other :: CoveredBy(cfg, trigger, other) ==> CoveredBy(cfg, trigger.Update(cfg, entry).value, other)
  {
  }

  lemma VisitAllCovers(cfg: Config, pass: Pass, entries: seq<Entry>, book: Book)
    requires VisitAll(cfg, pass, entries, book).Ok?
    requires Covered(cfg, book.trigger, book.running)
    ensures var book' := VisitAll(cfg, pass, entries, book).value;
      Covered(cfg, book'.trigger, book'.running)
    decreases |entries|
  {
    if entries != [] {
      var visit := VisitEntry(cfg, pass, entries[0]).value;
      var next := BookVisit(cfg, book, visit).value;
      if visit.Keeps? {
        UpdateCovers(cfg, book.trigger, visit.entry);
      }
      VisitAllCovers(cfg, pass, entries[1..], next);
    }
  }

  lemma InsertMembers(running: seq<Entry>, entry: Entry)
    ensures forall e <- Insert(running, entry) :: e == entry || e in running
    ensures entry in Insert(running, entry)
  {
  }

  /**
   Re-evaluating the trade would leave it as it is, as far as the candle and the trade alone tell:
   it does not trail, or the rounded extreme is short of its trigger, or the stop put behind the
   extreme is past the close or is the stop it has.
   */
  predicate Undisturbed(cfg: Config, candle: Candle, entry: Entry) {
    entry.tsl.None? ||
    (var trade, tsl := entry.trade, entry.tsl.value;
     var market := RoundPrice(candle.close);
     var extreme := RoundPrice(if trade.side == Buy then candle.high else candle.low);
     var trigger := NextTrigger(cfg, trade, tsl);
     && market.Ok? && extreme.Ok? && trigger.Ok?
     && (|| (if trade.side == Buy then extreme.value < trigger.value else extreme.value > trigger.value)
         || (var stop := TrailFrom(trade.side, extreme.value, tsl);
             && stop.Ok?
             && (|| (if trade.side == Buy then stop.value >= market.value else stop.value <= market.value)
                 || (trade.stoploss == Some(stop.value)
                     && cfg.sdk.stoplossValid(trade.side, trade.liquidation, trade.takeprofit, market.value,
                              stop.value))))))
  }

  /** The candle reaches the trigger, or it would disturb none of the running trades. */
  predicate Agrees(cfg: Config, s: State, candle: Candle) {
    || s.trigger.WasReached(candle.low) || s.trigger.WasReached(candle.high)
    || forall entry <- s.running :: Undisturbed(cfg, candle, entry)
  }

  /** High does not round up, low does not round down, and every price is within the price bounds. */
  predicate RoundsInward(candle: Candle) {
    && RoundPrice(candle.low).Ok? && RoundPrice(candle.high).Ok? && RoundPrice(candle.close).Ok?
    && Dollars(RoundTick(candle.high)) <= candle.high
    && candle.low <= Dollars(RoundTick(candle.low))
  }

  /** A trade without a stop is stopped at its liquidation, which must stay outside the cached interval. */
  predicate StopsOutside(trigger: Trigger, trade: Trade) {
    trade.stoploss.Some? ||
    (trigger.Set? && if trade.side == Buy then trade.liquidation <= trigger.min else trigger.max <= trade.liquidation)
  }

  predicate Admissible(cfg: Config, s: State, op: Op) {
    match op
    case OpCandle(candle) => candle.time + 59 >= s.time ==> Agrees(cfg, s, candle)
    case OpAddMargin(id, amount) =>
      var i := IndexOf(s.running, id);
      i < |s.running| ==>
        var updated := s.running[i].trade.WithAddedMargin(cfg, amount);
        updated.Ok? ==> StopsOutside(s.trigger, updated.value)
    case _ => true
  }

  predicate AdmissibleRun(cfg: Config, s: State, ops: seq<Op>)
    decreases |ops|
  {
    ops == [] || (Admissible(cfg, s, ops[0]) &&
                  (Step(cfg, s, ops[0], false).Ok? ==>
                     AdmissibleRun(cfg, Step(cfg, s, ops[0], false).value, ops[1..])))
  }

  /** Added margin, which replaces a trade without refreshing the trigger, keeps it covered in exactly these cases. */
  lemma AddedMarginKeepsCoveredIff(cfg: Config, trigger: Trigger, entry: Entry, amount: nat)
    requires CoveredBy(cfg, trigger, entry)
    requires entry.trade.WithAddedMargin(cfg, amount).Ok?
    ensures var after := entry.trade.WithAddedMargin(cfg, amount).value;
      CoveredBy(cfg, trigger, entry.(trade := after)) <==> StopsOutside(trigger, after)
  {
    hide SteppedStop, RoundPriceUp, RoundPriceDown;
    var after := entry.(trade := entry.trade.WithAddedMargin(cfg, amount).value);
    if entry.tsl.Some? {
      assert NextTrigger(cfg, after.trade, entry.tsl.value) == NextTrigger(cfg, entry.trade, entry.tsl.value);
    }
  }

  lemma PassKeepsCovered(cfg: Config, s: State, pass: Pass)
    requires VisitAll(cfg, pass, s.running, OpenBook(s)).Ok?
    ensures var book := VisitAll(cfg, pass, s.running, OpenBook(s)).value;
      Covered(cfg, book.trigger, book.running)
  {
    hide VisitAll, CoveredBy;
    VisitAllCovers(cfg, pass, s.running, OpenBook(s));
  }

  lemma OpenKeepsCovered(cfg: Config, s: State, order: Order)
    requires Covered(cfg, s.trigger, s.running)
    requires CreateRunning(cfg, s, order).Ok?
    ensures var s' := CreateRunning(cfg, s, order).value;
      Covered(cfg, s'.trigger, s'.running)
  {
    hide OrderedEntry, CoveredBy, Trigger.Update, Insert;
    UpdateCovers(cfg, s.trigger, OrderedEntry(cfg, s, order).value);
    InsertMembers(s.running, OrderedEntry(cfg, s, order).value);
  }

  lemma AddMarginKeepsCovered(cfg: Config, s: State, id: int, amount: nat)
    requires Covered(cfg, s.trigger, s.running)
    requires Admissible(cfg, s, OpAddMargin(id, amount)) && AddMargin(cfg, s, id, amount).Ok?
    ensures var s' := AddMargin(cfg, s, id, amount).value;
      Covered(cfg, s'.trigger, s'.running)
  {
    hide CoveredBy, Trade.WithAddedMargin, StopsOutside;
    var i := IndexOf(s.running, id);
    assert s.running[i] in s.running;
    AddedMarginKeepsCoveredIff(cfg, s.trigger, s.running[i], amount);
  }

  /** The other operations leave the trades and the trigger alone. */
  predicate LeavesTrades(op: Op) {
    op.OpTime? || op.OpDeposit? || op.OpWithdraw? || op.OpLeverage? || op.OpCrossOrder? || op.OpCrossClose?
  }

  lemma TradesAreLeft(cfg: Config, s: State, op: Op, always: bool)
    requires LeavesTrades(op) && Step(cfg, s, op, always).Ok?
    ensures var s' := Step(cfg, s, op, always).value;
      s'.trigger == s.trigger && s'.running == s.running
  {
    hide CrossPosition.Close, CrossPosition.WithMarketOrder, CrossPosition.WithMargin, CrossPosition.WithLeverage,
         CrossPosition.IsCoherent, CrossPosition.EstFreeMargin, RoundPrice, BoundedPrice;
  }

  /** What a candle, a settlement or a manual close leaves: the trades of a pass, or those there were. */
  lemma CandleTrades(cfg: Config, s: State, candle: Candle, always: bool)
    requires CandleUpdate(cfg, s, candle, always).Ok?
    ensures var s' := CandleUpdate(cfg, s, candle, always).value;
      var r := VisitAll(cfg, CandlePass(candle), s.running, OpenBook(s));
      || (s'.trigger == s.trigger && s'.running == s.running)
      || (r.Ok? && s'.trigger == r.value.trigger && s'.running == r.value.running)
  {
    hide VisitAll, OpenBook, CrossPosition.LiquidationReached, CrossPosition.Liquidate, Trigger.WasReached;
  }

  lemma FundingTrades(cfg: Config, s: State, settlement: Settlement)
    requires ApplyFunding(cfg, s, settlement).Ok?
    ensures var s' := ApplyFunding(cfg, s, settlement).value;
      var r := VisitAll(cfg, FundingPass(settlement, s.marketPrice), s.running, OpenBook(s));
      || (s'.trigger == s.trigger && s'.running == s.running)
      || (r.Ok? && s'.trigger == r.value.trigger && s'.running == r.value.running)
  {
    hide VisitAll, OpenBook, CrossPosition.ApplyFunding, CrossPosition.SignedQuantity;
  }

  lemma CloseTrades(cfg: Config, s: State, selection: Selection)
    requires CloseRunning(cfg, s, selection).Ok?
    ensures RoundPrice(s.marketPrice).Ok?
    ensures var s' := CloseRunning(cfg, s, selection).value;
      var r := VisitAll(cfg, ClosePass(selection, RoundPrice(s.marketPrice).value), s.running, OpenBook(s));
      r.Ok? && s'.trigger == r.value.trigger && s'.running == r.value.running
  {
    hide VisitAll, OpenBook, RoundPrice;
  }

  /** Every step keeps the trigger inside the bounds of every running trade. */
  lemma StepKeepsCovered(cfg: Config, s: State, op: Op, always: bool)
    requires Covered(cfg, s.trigger, s.running)
    requires op.OpCandle? || Admissible(cfg, s, op)
    requires Step(cfg, s, op, always).Ok?
    ensures var s' := Step(cfg, s, op, always).value;
      Covered(cfg, s'.trigger, s'.running)
  {
    hide Covered, Admissible, CandleUpdate, ApplyFunding, CloseRunning, CreateRunning, AddMargin, VisitAll, OpenBook,
         RoundPrice, Deposit, Withdraw, SetLeverage, CrossOrder, CrossClose;
    match op
    case OpCandle(candle) =>
      CandleTrades(cfg, s, candle, always);
      if VisitAll(cfg, CandlePass(candle), s.running, OpenBook(s)).Ok? {
        PassKeepsCovered(cfg, s, CandlePass(candle));
      }
    case OpFunding(settlement) =>
      FundingTrades(cfg, s, settlement);
      if VisitAll(cfg, FundingPass(settlement, s.marketPrice), s.running, OpenBook(s)).Ok? {
        PassKeepsCovered(cfg, s, FundingPass(settlement, s.marketPrice));
      }
    case OpClose(selection) =>
      CloseTrades(cfg, s, selection);
      PassKeepsCovered(cfg, s, ClosePass(selection, RoundPrice(s.marketPrice).value));
    case OpOpen(order) => OpenKeepsCovered(cfg, s, order);
    case OpAddMargin(id, amount) => AddMarginKeepsCovered(cfg, s, id, amount);
    case _ => TradesAreLeft(cfg, s, op, always);
  }

  // ----- The fast path

  lemma TrailIsUndisturbed(cfg: Config, candle: Candle, entry: Entry)
    requires entry.tsl.Some?
    ensures Trail(cfg, candle, entry.trade, entry.tsl.value) == Ok(entry.trade) <==> Undisturbed(cfg, candle, entry)
  {
    hide NextTrigger, RoundPrice, TrailFrom;
  }

  /** When no bound is reached, a trade is kept, and kept as it is exactly if it is undisturbed. */
  lemma UnreachedIsKept(cfg: Config, trigger: Trigger, candle: Candle, entry: Entry)
    requires CoveredBy(cfg, trigger, entry)
    requires !trigger.WasReached(candle.low) && !trigger.WasReached(candle.high)
    ensures var visit := VisitEntry(cfg, CandlePass(candle), entry);
      && (visit.Ok? ==> visit.value.Keeps? && visit.value.fee == 0)
      && (visit == Ok(Keeps(entry, 0)) <==> Undisturbed(cfg, candle, entry))
  {
    hide NextTrigger, RoundPrice, TrailFrom, Trail, Undisturbed;
    if entry.tsl.Some? {
      TrailIsUndisturbed(cfg, candle, entry);
    } else {
      assert Undisturbed(cfg, candle, entry) by {
        NoTrailIsUndisturbed(cfg, candle, entry);
      }
    }
    ScanUnreached(cfg, trigger, candle, entry);
  }

  lemma NoTrailIsUndisturbed(cfg: Config, candle: Candle, entry: Entry)
    requires entry.tsl.None?
    ensures Undisturbed(cfg, candle, entry)
  {
  }

  lemma ScanUnreached(cfg: Config, trigger: Trigger, candle: Candle, entry: Entry)
    requires CoveredBy(cfg, trigger, entry)
    requires !trigger.WasReached(candle.low) && !trigger.WasReached(candle.high)
    ensures ScanEntry(cfg, candle, entry) ==
      if entry.tsl.None? then Ok(Keep(entry.trade))
      else var kept :- Trail(cfg, candle, entry.trade, entry.tsl.value); Ok(Keep(kept))
  {
    hide NextTrigger, RoundPrice, TrailFrom, Trail;
  }

  lemma KeepsUnchanged(cfg: Config, trigger: Trigger, book: Book, entry: Entry) returns (next: Book)
    requires CoveredBy(cfg, trigger, entry)
    ensures BookVisit(cfg, book, Keeps(entry, 0)) == Ok(next)
    ensures next == book.(trigger := next.trigger, running := book.running + [entry])
  {
    next := BookVisit(cfg, book, Keeps(entry, 0)).value;
  }

  /** A pass only adds to the running trades of its book. */
  lemma {:induction false} PassExtends(cfg: Config, pass: Pass, entries: seq<Entry>, book: Book)
    requires VisitAll(cfg, pass, entries, book).Ok?
    ensures book.running <= VisitAll(cfg, pass, entries, book).value.running
    decreases |entries|
  {
    if entries != [] {
      var next := VisitOne(cfg, pass, entries[0], book).value;
      assert book.running <= next.running;
      PassExtends(cfg, pass, entries[1..], next);
    }
  }

  /** The book after a pass that changed nothing but the cached trigger. */
  predicate Untouched(r: Result<Book>, book: Book, entries: seq<Entry>) {
    r.Ok? && r.value == book.(trigger := r.value.trigger, running := book.running + entries)
  }

  /** When no bound is reached, a pass leaves everything as it is exactly if no trade is disturbed. */
  lemma {:induction false} UnreachedPass(cfg: Config, trigger: Trigger, candle: Candle, entries: seq<Entry>, book: Book)
    requires Covered(cfg, trigger, entries)
    requires !trigger.WasReached(candle.low) && !trigger.WasReached(candle.high)
    ensures Untouched(VisitAll(cfg, CandlePass(candle), entries, book), book, entries)
       <==> forall entry <- entries :: Undisturbed(cfg, candle, entry)
    decreases |entries|
  {
    hide CoveredBy, Undisturbed, VisitEntry, Trigger.WasReached, BookVisit;
    var pass := CandlePass(candle);
    if entries == [] {
      assert book.running + entries == book.running;
    } else {
      var entry, rest := entries[0], entries[1..];
      assert entries == [entry] + rest;
      UnreachedIsKept(cfg, trigger, candle, entry);
      if Undisturbed(cfg, candle, entry) {
        var next := KeepsUnchanged(cfg, trigger, book, entry);
        assert VisitAll(cfg, pass, entries, book) == VisitAll(cfg, pass, rest, next);
        assert next.running + rest == book.running + entries;
        UnreachedPass(cfg, trigger, candle, rest, next);
      } else {
        DisturbedPass(cfg, candle, entry, rest, book);
      }
    }
  }

  lemma DisturbedPass(cfg: Config, candle: Candle, entry: Entry, rest: seq<Entry>, book: Book)
    requires var visit := VisitEntry(cfg, CandlePass(candle), entry);
      visit != Ok(Keeps(entry, 0)) && (visit.Ok? ==> visit.value.Keeps? && visit.value.fee == 0)
    ensures !Untouched(VisitAll(cfg, CandlePass(candle), [entry] + rest, book), book, [entry] + rest)
  {
    hide VisitEntry;
    var pass, entries := CandlePass(candle), [entry] + rest;
    assert entries[1..] == rest;
    var r := VisitAll(cfg, pass, entries, book);
    if r.Ok? {
      var next := VisitOne(cfg, pass, entry, book).value;
      PassExtends(cfg, pass, rest, next);
      assert r.value.running[|book.running|] == next.running[|book.running|] != entry;
      assert (book.running + entries)[|book.running|] == entry;
    }
  }

  /** Equal in everything but the cached trigger. */
  predicate Same(a: State, b: State) {
    a == b.(trigger := a.trigger)
  }

  predicate SameOutcome(a: Result<State>, b: Result<State>) {
    if a.Ok? then b.Ok? && Same(a.value, b.value) else b == a
  }

  /**
   For a candle in time order, the fast path and the full scan end alike if and only if the candle
   reaches the trigger or would disturb no running trade.
   */
  lemma FastPathAgreesIff(cfg: Config, s: State, candle: Candle)
    requires Covered(cfg, s.trigger, s.running) && candle.time + 59 >= s.time
    ensures SameOutcome(CandleUpdate(cfg, s, candle, false), CandleUpdate(cfg, s, candle, true))
         <==> Agrees(cfg, s, candle)
  {
    hide CoveredBy, Undisturbed, Trigger.WasReached, CrossPosition.LiquidationReached, CrossPosition.Liquidate,
         VisitAll;
    if !s.trigger.WasReached(candle.low) && !s.trigger.WasReached(candle.high) {
      UnreachedPass(cfg, s.trigger, candle, s.running, OpenBook(s));
      assert [] + s.running == s.running;
    }
  }

  lemma SameSteps(cfg: Config, a: State, b: State, op: Op, always: bool)
    requires Same(a, b)
    requires op.OpCandle? ==> always
    ensures SameOutcome(Step(cfg, a, op, always), Step(cfg, b, op, always))
  {
    hide CrossPosition.LiquidationReached, CrossPosition.Liquidate, CrossPosition.ApplyFunding, CrossPosition.Close,
         CrossPosition.WithMarketOrder, CrossPosition.WithMargin, CrossPosition.WithLeverage, CrossPosition.IsCoherent,
         CrossPosition.EstFreeMargin, RoundPrice, BoundedPrice;
    assert OpenBook(a) == OpenBook(b);
  }

  lemma StepSimulates(cfg: Config, fast: State, full: State, op: Op)
    requires Same(fast, full)
    requires Covered(cfg, fast.trigger, fast.running)
    requires Admissible(cfg, fast, op)
    ensures SameOutcome(Step(cfg, fast, op, false), Step(cfg, full, op, true))
  {
    hide Covered, Agrees, CandleUpdate, ApplyFunding, CloseRunning, CreateRunning, AddMargin, Deposit, Withdraw,
         SetLeverage,
         CrossOrder, CrossClose, UpdateTime;
    SameSteps(cfg, fast, full, op, true);
    if op.OpCandle? {
      if op.candle.time + 59 < fast.time {
        LateCandle(cfg, fast, op.candle);
      } else {
        FastPathAgreesIff(cfg, fast, op.candle);
      }
    }
  }

  lemma LateCandle(cfg: Config, s: State, candle: Candle)
    requires candle.time + 59 < s.time
    ensures CandleUpdate(cfg, s, candle, false) == CandleUpdate(cfg, s, candle, true) == Err(TimeSequenceViolation)
  {
  }

  lemma RunSimulates(cfg: Config, fast: State, full: State, ops: seq<Op>)
    requires Same(fast, full)
    requires Covered(cfg, fast.trigger, fast.running)
    requires AdmissibleRun(cfg, fast, ops)
    ensures SameOutcome(Run(cfg, fast, ops, false), Run(cfg, full, ops, true))
    decreases |ops|
  {
    if ops != [] {
      StepSimulates(cfg, fast, full, ops[0]);
      if Step(cfg, fast, ops[0], false).Ok? {
        StepKeepsCovered(cfg, fast, ops[0], false);
        RunSimulates(cfg, Step(cfg, fast, ops[0], false).value, Step(cfg, full, ops[0], true).value, ops[1..]);
      }
    }
  }

  /** From the start of a backtest, the executor does what one that always re-evaluates every trade does. */
  lemma {:induction false} TriggerEqualsFullScan(cfg: Config, start: Candle, balance: nat, minLeverage: real,
           ops: seq<Op>)
    requires AdmissibleRun(cfg, InitialState(start, balance, minLeverage), ops)
    ensures var initial := InitialState(start, balance, minLeverage);
      SameOutcome(Run(cfg, initial, ops, false), Run(cfg, initial, ops, true))
  {
    var initial := InitialState(start, balance, minLeverage);
    RunSimulates(cfg, initial, initial, ops);
  }

  /** A candle that rounds inward, such as any candle on the tick grid, always agrees. */
  lemma InwardCandleAgrees(cfg: Config, s: State, candle: Candle)
    requires Covered(cfg, s.trigger, s.running) && RoundsInward(candle)
    ensures Agrees(cfg, s, candle)
  {
    if !s.trigger.WasReached(candle.low) && !s.trigger.WasReached(candle.high) {
      forall entry <- s.running
        ensures Undisturbed(cfg, candle, entry)
      {
        InwardIsUndisturbed(cfg, s.trigger, candle, entry);
      }
    }
  }

  lemma InwardIsUndisturbed(cfg: Config, trigger: Trigger, candle: Candle, entry: Entry)
    requires CoveredBy(cfg, trigger, entry) && RoundsInward(candle)
    requires !trigger.WasReached(candle.low) && !trigger.WasReached(candle.high)
    ensures Undisturbed(cfg, candle, entry)
  {
    hide NextTrigger, TrailFrom;
  }

  /** The market order that opens the trailing long of the next lemma, at $100,000 with a stop half way down. */
  function TrailingLong(id: int, size: TradeSize, leverage: real): Order {
    Order(id, Buy, size, leverage, Some(Trailing(50.0)), None)
  }

  /**
   A run of two steps in which the paths part: a long opened at $100,000 trails 50% behind; an
   off-tick high of $109,999.80 rounds up to its trigger of $110,000 without reaching it. The full
   scan raises the stop and the fast path skips the candle.
   */
  lemma OffTickCandleDiffers(cfg: Config, start: Candle, balance: nat, minLeverage: real,
                             id: int, size: TradeSize, leverage: real, candle: Candle)
    requires cfg.step == 10.0 && cfg.maxRunning > 0 && start.open == 100_000.0
    requires cfg.sdk.openParams(Buy, size, leverage, 200_000, Some(100_000), None, cfg.feePerc).Some?
    requires var params := cfg.sdk.openParams(Buy, size, leverage, 200_000, Some(100_000), None, cfg.feePerc).value;
      params.margin + params.openingFee + params.closingFeeReserved <= balance
    requires candle.low == 100_000.0 && candle.close == 100_000.0 && candle.high == 109_999.8
    requires candle.time >= start.time
    ensures var initial := InitialState(start, balance, minLeverage);
      var after := Run(cfg, initial, [OpOpen(TrailingLong(id, size, leverage))], false);
      && after.Ok?
      && Covered(cfg, after.value.trigger, after.value.running) && !Agrees(cfg, after.value, candle)
      && !SameOutcome(CandleUpdate(cfg, after.value, candle, false), CandleUpdate(cfg, after.value, candle, true))
  {
    var initial, order := InitialState(start, balance, minLeverage), TrailingLong(id, size, leverage);
    OpensTrailingLong(cfg, initial, id, size, leverage);
    var s := CreateRunning(cfg, initial, order).value;
    assert [OpOpen(order)][1..] == [];
    assert Run(cfg, initial, [OpOpen(order)], false) == Run(cfg, s, [], false) == Ok(s);
    StepKeepsCovered(cfg, initial, OpOpen(order), false);
    HighRoundsUpToTrigger(cfg, s.running[0], candle);
    FastPathAgreesIff(cfg, s, candle);
  }

  lemma OpensTrailingLong(cfg: Config, s: State, id: int, size: TradeSize, leverage: real)
    requires s.running == [] && s.trigger.NotSet? && s.marketPrice == 100_000.0
    requires cfg.step == 10.0 && cfg.maxRunning > 0
    requires cfg.sdk.openParams(Buy, size, leverage, 200_000, Some(100_000), None, cfg.feePerc).Some?
    requires var params := cfg.sdk.openParams(Buy, size, leverage, 200_000, Some(100_000), None, cfg.feePerc).value;
      params.margin + params.openingFee + params.closingFeeReserved <= s.balance
    ensures var r := CreateRunning(cfg, s, TrailingLong(id, size, leverage));
      && r.Ok? && r.value.trigger == Set(100_000, 220_000) && |r.value.running| == 1
      && r.value.time == s.time
      && var entry := r.value.running[0];
         && entry.tsl == Some(50.0) && entry.trade.side == Buy
         && entry.trade.stoploss == Some(100_000)
  {
    assert RoundPrice(100_000.0) == Ok(200_000);
    assert Dollars(200_000) * (1.0 - 50.0 / 100.0) == 50_000.0;
    assert EvaluateStoploss(cfg, Some(Trailing(50.0)), Buy, 200_000) == Ok((Some(100_000), Some(50.0)));
    var entry := OrderedEntry(cfg, s, TrailingLong(id, size, leverage)).value;
    HalfwayTrigger(cfg, entry.trade);
  }

  lemma HalfwayTrigger(cfg: Config, trade: Trade)
    requires cfg.step == 10.0 && trade.side == Buy && trade.stoploss == Some(100_000)
    ensures NextTrigger(cfg, trade, 50.0) == Ok(220_000)
  {
    assert RoundTick(55_000.0) == 110_000 && RoundTickUp(110_000.0) == 220_000;
    assert Dollars(100_000) * (1.0 + 10.0 / 100.0) == 55_000.0;
    assert SteppedStop(cfg.step, Buy, 100_000) == Ok(110_000);
    assert Dollars(110_000) / (1.0 - 50.0 / 100.0) == 110_000.0;
  }

  lemma HighRoundsUpToTrigger(cfg: Config, entry: Entry, candle: Candle)
    requires cfg.step == 10.0 && entry.tsl == Some(50.0)
    requires entry.trade.side == Buy && entry.trade.stoploss == Some(100_000)
    requires candle.close == 100_000.0 && candle.high == 109_999.8
    ensures !Undisturbed(cfg, candle, entry)
  {
    HalfwayTrigger(cfg, entry.trade);
    assert RoundPrice(candle.high) == Ok(220_000) && RoundPrice(candle.close) == Ok(200_000);
    assert Dollars(220_000) * (1.0 - 50.0 / 100.0) == 55_000.0;
    assert TrailFrom(Buy, 220_000, 50.0) == Ok(110_000);
  }

  // ----- Trailing stops

  /** The same trade, with a stop that is at least as tight if it trails and unchanged otherwise. */
  predicate Tightens(a: Entry, b: Entry) {
    && b.trade.id == a.trade.id && b.trade.side == a.trade.side && b.tsl == a.tsl
    && (b.trade.stoploss == a.trade.stoploss
        || (a.tsl.Some? && a.trade.stoploss.Some? && b.trade.stoploss.Some?
            && AtLeastAsTight(a.trade.side, a.trade.stoploss.value, b.trade.stoploss.value)))
  }

  ghost predicate TightensOneOf(entries: seq<Entry>, b: Entry) {
    exists a <- entries :: Tightens(a, b)
  }

  lemma VisitTightens(cfg: Config, pass: Pass, entry: Entry)
    requires VisitEntry(cfg, pass, entry).Ok? && VisitEntry(cfg, pass, entry).value.Keeps?
    ensures Tightens(entry, VisitEntry(cfg, pass, entry).value.entry)
  {
    hide Trail, AtLeastAsTight, RoundPrice;
    if pass.CandlePass? && entry.tsl.Some? {
      TrailOnlyTightens(cfg, pass.candle, entry);
    }
  }

  lemma VisitAllTightens(cfg: Config, pass: Pass, entries: seq<Entry>, book: Book)
    requires VisitAll(cfg, pass, entries, book).Ok?
    ensures forall b <- VisitAll(cfg, pass, entries, book).value.running ::
      b in book.running || TightensOneOf(entries, b)
    decreases |entries|
  {
    if entries != [] {
      var visit := VisitEntry(cfg, pass, entries[0]).value;
      var next := BookVisit(cfg, book, visit).value;
      if visit.Keeps? {
        VisitTightens(cfg, pass, entries[0]);
        assert TightensOneOf(entries, visit.entry) by {
          assert entries[0] in entries;
        }
      }
      VisitAllTightens(cfg, pass, entries[1..], next);
      forall b <- VisitAll(cfg, pass, entries, book).value.running
        ensures b in book.running || TightensOneOf(entries, b)
      {
        if TightensOneOf(entries[1..], b) {
          var a :| a in entries[1..] && Tightens(a, b);
          assert a in entries;
        }
      }
    }
  }

  lemma SelfTightens(entries: seq<Entry>)
    ensures forall b <- entries :: TightensOneOf(entries, b)
  {
    forall b <- entries ensures TightensOneOf(entries, b) {
      assert Tightens(b, b);
    }
  }

  lemma StepTightens(cfg: Config, s: State, op: Op, always: bool)
    requires Step(cfg, s, op, always).Ok?
    ensures forall b <- Step(cfg, s, op, always).value.running ::
      TightensOneOf(s.running, b) || (op.OpOpen? && b.trade.id == op.order.id)
  {
    hide TightensOneOf, CandleUpdate, ApplyFunding, CloseRunning, CreateRunning, AddMargin, VisitAll,
         RoundPrice, Deposit, Withdraw, SetLeverage, CrossOrder, CrossClose;
    SelfTightens(s.running);
    match op
    case OpCandle(candle) =>
      CandleTrades(cfg, s, candle, always);
      if VisitAll(cfg, CandlePass(candle), s.running, OpenBook(s)).Ok? {
        VisitAllTightens(cfg, CandlePass(candle), s.running, OpenBook(s));
      }
    case OpFunding(settlement) =>
      FundingTrades(cfg, s, settlement);
      if VisitAll(cfg, FundingPass(settlement, s.marketPrice), s.running, OpenBook(s)).Ok? {
        VisitAllTightens(cfg, FundingPass(settlement, s.marketPrice), s.running, OpenBook(s));
      }
    case OpClose(selection) =>
      CloseTrades(cfg, s, selection);
      VisitAllTightens(cfg, ClosePass(selection, RoundPrice(s.marketPrice).value), s.running, OpenBook(s));
    case OpOpen(order) => OpenTightens(cfg, s, order);
    case OpAddMargin(id, amount) => AddMarginTightens(cfg, s, id, amount);
    case _ => TradesAreLeft(cfg, s, op, always);
  }

  lemma OpenTightens(cfg: Config, s: State, order: Order)
    requires CreateRunning(cfg, s, order).Ok?
    ensures forall b <- CreateRunning(cfg, s, order).value.running ::
      TightensOneOf(s.running, b) || b.trade.id == order.id
  {
    hide TightensOneOf, EvaluateStoploss, RoundPrice, Insert, Trigger.Update;
    SelfTightens(s.running);
    InsertMembers(s.running, OrderedEntry(cfg, s, order).value);
  }

  lemma AddMarginTightens(cfg: Config, s: State, id: int, amount: nat)
    requires AddMargin(cfg, s, id, amount).Ok?
    ensures forall b <- AddMargin(cfg, s, id, amount).value.running :: TightensOneOf(s.running, b)
  {
    SelfTightens(s.running);
    var i := IndexOf(s.running, id);
    var updated := s.running[i].(trade := s.running[i].trade.WithAddedMargin(cfg, amount).value);
    assert s.running[i] in s.running && Tightens(s.running[i], updated);
  }

  predicate Opens(ops: seq<Op>, id: int) {
    exists op <- ops :: op.OpOpen? && op.order.id == id
  }

  /**
   Whatever happens in a run, a trade that was running at its start and still is has a stop at
   least as tight as it had.
   */
  lemma TrailingStopsOnlyTighten(cfg: Config, s: State, ops: seq<Op>, always: bool)
    requires Run(cfg, s, ops, always).Ok?
    ensures forall b <- Run(cfg, s, ops, always).value.running ::
      TightensOneOf(s.running, b) || Opens(ops, b.trade.id)
    decreases |ops|
  {
    if ops == [] {
      SelfTightens(s.running);
    } else {
      var next := Step(cfg, s, ops[0], always).value;
      StepTightens(cfg, s, ops[0], always);
      TrailingStopsOnlyTighten(cfg, next, ops[1..], always);
      forall c <- Run(cfg, s, ops, always).value.running
        ensures TightensOneOf(s.running, c) || Opens(ops, c.trade.id)
      {
        if TightensOneOf(next.running, c) {
          var b :| b in next.running && Tightens(b, c);
          if TightensOneOf(s.running, b) {
            var a :| a in s.running && Tightens(a, b);
            assert Tightens(a, c);
          } else {
            assert ops[0] in ops;
          }
        } else {
          var op :| op in ops[1..] && op.OpOpen? && op.order.id == c.trade.id;
          assert op in ops;
        }
      }
    }
  }
}
