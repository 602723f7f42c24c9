/**
 The simulated executor as a state machine over values. One pass over the running trades serves
 candles, manual closes and funding settlements; they differ in what they do to each trade.
 */
module ExecutorSpec {
  import opened Basics
  import opened Market
  import opened Pricing
  import opened CrossPosition
  import opened Trades

  datatype State = State(
    time: int, marketPrice: real, balance: int, lastTradeTime: Option<int>,
    trigger: Trigger, running: seq<Entry>,
    fundingFees: int, realizedPl: int, closed: seq<ClosedTrade>, closedFees: nat,
    cross: CrossPosition)

  function InitialState(start: Candle, balance: nat, minLeverage: real): State {
    State(start.time, start.open, balance, None, NotSet, [], 0, 0, [], 0, InitialCross(minLeverage))
  }

  // ----- The running-trades map, newest first

  predicate Newer(a: Entry, b: Entry) {
    a.trade.entryTime > b.trade.entryTime || (a.trade.entryTime == b.trade.entryTime && a.trade.id > b.trade.id)
  }

  ghost predicate Sorted(running: seq<Entry>) {
    forall i, j :: 0 <= i < j < |running| ==> Newer(running[i], running[j])
  }

  /** In terms of the keys: entry times never rise, and trades of one time have falling ids. */
  ghost predicate NewestFirst(running: seq<Entry>) {
    forall i, j :: 0 <= i < j < |running| ==>
      var a, b := running[i].trade, running[j].trade;
      b.entryTime <= a.entryTime && (a.entryTime == b.entryTime ==> b.id < a.id)
  }

  /** Inserts by (entry time, id), replacing an entry with the same key. */
  function Insert(running: seq<Entry>, entry: Entry): seq<Entry> {
    if running == [] || Newer(entry, running[0]) then [entry] + running
    else if Newer(running[0], entry) then [running[0]] + Insert(running[1..], entry)
    else [entry] + running[1..]
  }

  predicate SameKey(a: Entry, b: Entry) {
    a.trade.entryTime == b.trade.entryTime && a.trade.id == b.trade.id
  }

  lemma InsertSorted(running: seq<Entry>, entry: Entry)
    requires Sorted(running)
    ensures Sorted(Insert(running, entry))
    ensures forall e <- Insert(running, entry) :: e == entry || e in running
    ensures NewestFirst(Insert(running, entry))
  {
    if running != [] && Newer(running[0], entry) {
      InsertSorted(running[1..], entry);
      var rest := Insert(running[1..], entry);
      forall j | 0 <= j < |rest| ensures Newer(running[0], rest[j]) {
        assert rest[j] in rest;
      }
    }
  }

  /** Adding a trade that is older than all others appends it. */
  lemma InsertLast(running: seq<Entry>, entry: Entry)
    requires Sorted(running + [entry])
    ensures Insert(running, entry) == running + [entry]
  {
    if running != [] {
      assert (running + [entry])[0] == running[0] && (running + [entry])[|running|] == entry;
      assert (running + [entry])[1..] == running[1..] + [entry];
      InsertLast(running[1..], entry);
    }
  }

  function IndexOf(running: seq<Entry>, id: int): (i: nat)
    ensures i <= |running|
    ensures i < |running| ==> running[i].trade.id == id
    ensures forall j :: 0 <= j < i ==> running[j].trade.id != id
  {
    if running == [] || running[0].trade.id == id then 0 else 1 + IndexOf(running[1..], id)
  }

  // ----- One pass over the running trades

  datatype Selection = Single(id: int) | OneSide(side: Side) | All

  datatype Pass =
    | CandlePass(candle: Candle)
    | ClosePass(selection: Selection, market: Price)
    | FundingPass(settlement: Settlement, marketPrice: real)

  /** What a pass does to one trade, and the funding fee it charges. */
  datatype Visit = Closes(closed: ClosedTrade, fee: int) | Keeps(entry: Entry, fee: int)

  predicate Selected(selection: Selection, trade: Trade) {
    match selection
    case Single(id) => id == trade.id
    case OneSide(side) => side == trade.side
    case All => true
  }

  function VisitEntry(cfg: Config, pass: Pass, entry: Entry): Result<Visit> {
    match pass
    case CandlePass(candle) =>
      var scan :- ScanEntry(cfg, candle, entry);
      (match scan
       case Close(price) => Ok(Closes(entry.trade.ToClosed(cfg, price), 0))
       case Keep(trade) => Ok(Keeps(entry.(trade := trade), 0)))
    case ClosePass(selection, market) =>
      if Selected(selection, entry.trade) then Ok(Closes(entry.trade.ToClosed(cfg, market), 0))
      else Ok(Keeps(entry, 0))
    case FundingPass(settlement, marketPrice) =>
      var (updated, fee) := entry.trade.ApplyFunding(cfg, settlement);
      if updated.Some? then Ok(Keeps(entry.(trade := updated.value), fee))
      else
        // a trade that cannot be represented any more is closed at the market
        var price :- RoundPrice(marketPrice);
        Ok(Closes(entry.trade.ToClosed(cfg, price), fee))
  }

  /** The totals a pass accumulates before it writes them back. */
  datatype Book = Book(
    balance: int, realizedPl: int, closedFees: nat, fundingFees: int,
    trigger: Trigger, running: seq<Entry>, closed: seq<ClosedTrade>)

  function OpenBook(s: State): Book {
    Book(s.balance, s.realizedPl, s.closedFees, s.fundingFees, NotSet, [], s.closed)
  }

  function BookVisit(cfg: Config, book: Book, visit: Visit): Result<Book> {
    match visit
    case Closes(closed, fee) =>
      Ok(book.(balance := book.balance + closed.Proceeds() - fee,
               realizedPl := book.realizedPl + closed.Pl(),
               closedFees := book.closedFees + closed.Fees(),
               fundingFees := book.fundingFees + fee,
               closed := book.closed + [closed]))
    case Keeps(entry, fee) =>
      // revenue goes to the balance, cost was taken from the margin
      var trigger :- book.trigger.Update(cfg, entry);
      Ok(book.(balance := book.balance - Min(fee, 0),
               fundingFees := book.fundingFees + fee,
               trigger := trigger,
               running := book.running + [entry]))
  }

  function VisitOne(cfg: Config, pass: Pass, entry: Entry, book: Book): Result<Book> {
    var visit :- VisitEntry(cfg, pass, entry);
    BookVisit(cfg, book, visit)
  }

  function VisitAll(cfg: Config, pass: Pass, entries: seq<Entry>, book: Book): Result<Book> {
    if entries == [] then Ok(book) else
      var next :- VisitOne(cfg, pass, entries[0], book);
      VisitAll(cfg, pass, entries[1..], next)
  }

  function WriteBack(s: State, book: Book): State {
    s.(balance := book.balance, realizedPl := book.realizedPl, closedFees := book.closedFees,
       fundingFees := book.fundingFees, trigger := book.trigger, running := book.running, closed := book.closed)
  }

  // ----- Steps

  function UpdateTime(s: State, time: int): Result<State> {
    if time < s.time then Err(TimeSequenceViolation) else Ok(s.(time := time))
  }

  /** With `always` set, the trades are re-evaluated even when the trigger was not reached. */
  function CandleUpdate(cfg: Config, s: State, candle: Candle, always: bool): Result<State> {
    var time := candle.time + 59;
    if time < s.time then Err(TimeSequenceViolation) else
      var liquidated := s.cross.LiquidationReached(candle);
      var cross := if liquidated then s.cross.Liquidate(cfg.sdk, cfg.feePerc) else s.cross;
      var moved := s.(time := time, marketPrice := candle.close, cross := cross,
                      lastTradeTime := if liquidated then Some(time) else s.lastTradeTime);
      if !always && !s.trigger.WasReached(candle.low) && !s.trigger.WasReached(candle.high) then Ok(moved) else
        var book :- VisitAll(cfg, CandlePass(candle), s.running, OpenBook(s));
        Ok(WriteBack(moved, book).(
             lastTradeTime := if |book.closed| > |s.closed| then Some(time) else moved.lastTradeTime))
  }

  function ApplyFunding(cfg: Config, s: State, settlement: Settlement): Result<State> {
    if s.running == [] && s.cross.SignedQuantity() == 0 then Ok(s) else
      var book :- VisitAll(cfg, FundingPass(settlement, s.marketPrice), s.running, OpenBook(s));
      var funded := s.cross.ApplyFunding(cfg.sdk, s.marketPrice, settlement, cfg.feePerc);
      Ok(WriteBack(s, book).(
           cross := funded.position,
           lastTradeTime := if funded.forcedFlat || |book.closed| > |s.closed|
                            then Some(settlement.time) else s.lastTradeTime))
  }

  function CloseRunning(cfg: Config, s: State, selection: Selection): Result<State> {
    var market :- RoundPrice(s.marketPrice);
    var book :- VisitAll(cfg, ClosePass(selection, market), s.running, OpenBook(s));
    Ok(WriteBack(s, book).(lastTradeTime := Some(s.time)))
  }

  datatype Order = Order(id: int, side: Side, size: TradeSize, leverage: real,
                         stoploss: Option<Stoploss>, takeprofit: Option<Price>)

  function OrderedEntry(cfg: Config, s: State, order: Order): Result<Entry> {
    var market :- RoundPrice(s.marketPrice);
    var (stop, tsl) :- EvaluateStoploss(cfg, order.stoploss, order.side, market);
    var trade :- NewTrade(cfg, order.id, order.side, order.size, order.leverage, s.time, market,
                          stop, order.takeprofit);
    Ok(Entry(trade, tsl))
  }

  /** Whether an order passes every check that comes before the balance is debited. */
  predicate PassesChecks(cfg: Config, s: State, order: Order) {
    var entry := OrderedEntry(cfg, s, order);
    && entry.Ok? && |s.running| < cfg.maxRunning
    && entry.value.trade.margin + entry.value.trade.MaintenanceMargin() <= s.balance
  }

  /** Note that the balance check leaves out the opening fee. */
  function CreateRunning(cfg: Config, s: State, order: Order): Result<State> {
    var entry :- OrderedEntry(cfg, s, order);
    var trade := entry.trade;
    if trade.margin + trade.MaintenanceMargin() > s.balance then Err(BalanceTooLow)
    else if |s.running| >= cfg.maxRunning then Err(MaxRunningTradesReached)
    else
      var trigger :- s.trigger.Update(cfg, entry);
      Ok(s.(balance := s.balance - (trade.margin + trade.MaintenanceMargin() + trade.openingFee),
            lastTradeTime := Some(trade.entryTime),
            trigger := trigger,
            running := Insert(s.running, entry)))
  }

  function AddMargin(cfg: Config, s: State, id: int, amount: nat): Result<State> {
    var i := IndexOf(s.running, id);
    if s.balance < amount then Err(BalanceTooLow)
    else if i == |s.running| then Err(TradeNotRunning)
    else
      var updated :- s.running[i].trade.WithAddedMargin(cfg, amount);
      Ok(s.(running := s.running[i := s.running[i].(trade := updated)], balance := s.balance - amount))
  }

  function IfCoherent(s: State, cross: CrossPosition, balance: int): Result<State> {
    if cross.IsCoherent(BoundedPrice(s.marketPrice)) then Ok(s.(cross := cross, balance := balance))
    else Err(CrossPositionIncoherent)
  }

  function Deposit(cfg: Config, s: State, amount: nat): Result<State> {
    if s.balance < amount then Err(BalanceTooLow) else
      var cross :- s.cross.WithMargin(cfg.sdk, s.cross.margin + amount);
      IfCoherent(s, cross, s.balance - amount)
  }

  function Withdraw(cfg: Config, s: State, amount: nat): Result<State> {
    var free := s.cross.EstFreeMargin(BoundedPrice(s.marketPrice));
    if amount > free || (s.cross.SignedQuantity() != 0 && amount == free) then Err(CrossFreeMarginTooLow) else
      var cross :- s.cross.WithMargin(cfg.sdk, Max(0, s.cross.margin - amount));
      IfCoherent(s, cross, s.balance + amount)
  }

  function SetLeverage(cfg: Config, s: State, leverage: real): Result<State> {
    var cross :- s.cross.WithLeverage(cfg.sdk, leverage);
    IfCoherent(s, cross, s.balance)
  }

  function CrossOrder(cfg: Config, s: State, side: Side, quantity: Quantity): Result<State> {
    var market :- RoundPrice(s.marketPrice);
    var cross :- s.cross.WithMarketOrder(cfg.sdk, market, side, quantity, cfg.feePerc);
    Ok(s.(cross := cross, lastTradeTime := Some(s.time)))
  }

  function CrossClose(cfg: Config, s: State): Result<State> {
    if s.cross.SignedQuantity() == 0 then Ok(s) else
      var market :- RoundPrice(s.marketPrice);
      Ok(s.(cross := s.cross.Close(cfg.sdk, market, cfg.feePerc), lastTradeTime := Some(s.time)))
  }

  datatype Op =
    | OpTime(time: int)
    | OpCandle(candle: Candle)
    | OpFunding(settlement: Settlement)
    | OpOpen(order: Order)
    | OpClose(selection: Selection)
    | OpAddMargin(id: int, amount: nat)
    | OpDeposit(amount: nat)
    | OpWithdraw(amount: nat)
    | OpLeverage(leverage: real)
    | OpCrossOrder(side: Side, quantity: Quantity)
    | OpCrossClose

  function Step(cfg: Config, s: State, op: Op, always: bool): Result<State> {
    match op
    case OpTime(time) => UpdateTime(s, time)
    case OpCandle(candle) => CandleUpdate(cfg, s, candle, always)
    case OpFunding(settlement) => ApplyFunding(cfg, s, settlement)
    case OpOpen(order) => CreateRunning(cfg, s, order)
    case OpClose(selection) => CloseRunning(cfg, s, selection)
    case OpAddMargin(id, amount) => AddMargin(cfg, s, id, amount)
    case OpDeposit(amount) => Deposit(cfg, s, amount)
    case OpWithdraw(amount) => Withdraw(cfg, s, amount)
    case OpLeverage(leverage) => SetLeverage(cfg, s, leverage)
    case OpCrossOrder(side, quantity) => CrossOrder(cfg, s, side, quantity)
    case OpCrossClose => CrossClose(cfg, s)
  }

  /** The state after a run of successful steps. */
  function Run(cfg: Config, s: State, ops: seq<Op>, always: bool): Result<State>
    decreases |ops|
  {
    if ops == [] then Ok(s) else
      var next :- Step(cfg, s, ops[0], always);
      Run(cfg, next, ops[1..], always)
  }
}
