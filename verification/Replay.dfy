/**
 The backtest loop: a buffer of minute candles refetched as it runs out, the settlement queue and
 the daily reports, against a replay that reads the stored candles one by one. Times are in seconds.
 */
module Replay {
  import opened Basics
  import opened Market

  /** What the loop does to the executor, the consolidator and the operator, in order. */
  datatype Event =
    | Load(candles: seq<Candle>)
    | Iterate(cursor: int)
    | Report(time: int)
    | Settle(settlement: Settlement)
    | Feed(candle: Candle)

  // ----- The store

  ghost predicate OnMinutes(store: seq<Candle>) {
    forall i :: 0 <= i < |store| ==> store[i].time % MINUTE == 0
  }

  function QueryFirst(store: seq<Candle>, n: nat, from: int, until: int): seq<Candle>
    requires n <= |store|
  {
    if n == 0 then [] else
      QueryFirst(store, n - 1, from, until) + if from <= store[n - 1].time <= until then [store[n - 1]] else []
  }

  /** The stored candles of a range, both ends included. */
  function Query(store: seq<Candle>, from: int, until: int): seq<Candle> {
    QueryFirst(store, |store|, from, until)
  }

  ghost predicate IsIndexFrom(store: seq<Candle>, from: int, k: nat)
    requires k <= |store|
  {
    && (forall j :: 0 <= j < k ==> store[j].time < from)
    && (k < |store| ==> from <= store[k].time)
  }

  /** The position of the first candle from a time on. */
  function IndexFrom(store: seq<Candle>, from: int): (k: nat)
    ensures k <= |store| && IsIndexFrom(store, from, k)
  {
    if store == [] || from <= store[0].time then 0 else 1 + IndexFrom(store[1..], from)
  }

  /** Exactly the positions from `a` to before `b` are in the range. */
  ghost predicate InRange(store: seq<Candle>, from: int, until: int, a: nat, b: nat) {
    forall j :: 0 <= j < |store| ==> (from <= store[j].time <= until <==> a <= j < b)
  }

  lemma InRangeAt(store: seq<Candle>, from: int, until: int, a: nat, b: nat, j: nat)
    requires InRange(store, from, until, a, b) && j < |store|
    ensures from <= store[j].time <= until <==> a <= j < b
  {
  }

  lemma SliceNext(store: seq<Candle>, n: nat, a: nat, b: nat)
    requires 0 < n <= |store| && a <= b <= |store|
    ensures store[Min(a, n)..Min(b, n)]
         == store[Min(a, n - 1)..Min(b, n - 1)] + if a <= n - 1 < b then [store[n - 1]] else []
  {
  }

  lemma {:induction false} QueryFirstSlice(store: seq<Candle>, n: nat, from: int, until: int, a: nat, b: nat)
    requires n <= |store| && a <= b <= |store| && InRange(store, from, until, a, b)
    ensures QueryFirst(store, n, from, until) == store[Min(a, n)..Min(b, n)]
  {
    hide InRange, Min;
    if n > 0 {
      QueryFirstSlice(store, n - 1, from, until, a, b);
      InRangeAt(store, from, until, a, b, n - 1);
      SliceNext(store, n, a, b);
    } else {
      EmptySlice(store, a, b);
    }
  }

  lemma EmptySlice(store: seq<Candle>, a: nat, b: nat)
    requires a <= b
    ensures store[Min(a, 0)..Min(b, 0)] == []
  {
  }

  /** A query returns a stretch of the store without a hole. */
  lemma QueryIsSlice(store: seq<Candle>, from: int, until: int)
    requires Ascending(store)
    ensures var a := IndexFrom(store, from);
      var b := Max(a, IndexFrom(store, until + 1));
      Query(store, from, until) == store[a..b]
  {
    var a := IndexFrom(store, from);
    var b := Max(a, IndexFrom(store, until + 1));
    forall j | 0 <= j < |store|
      ensures from <= store[j].time <= until <==> a <= j < b
    {
      IndexSplits(store, from, j);
      IndexSplits(store, until + 1, j);
    }
    QueryFirstSlice(store, |store|, from, until, a, b);
  }

  lemma IndexSplits(store: seq<Candle>, from: int, j: nat)
    requires Ascending(store) && j < |store|
    ensures from <= store[j].time <==> IndexFrom(store, from) <= j
  {
  }

  lemma IndexIs(store: seq<Candle>, from: int, k: nat)
    requires Ascending(store) && k <= |store|
    requires k > 0 ==> store[k - 1].time < from
    requires k < |store| ==> from <= store[k].time
    ensures IndexFrom(store, from) == k
  {
    hide Ascending, IsIndexFrom;
    if k > 0 {
      IndexSplits(store, from, k - 1);
    }
    if k < |store| {
      IndexSplits(store, from, k);
    }
  }

  /** The first candle from the end of a candle's minute on is the one after it. */
  lemma NextIndex(store: seq<Candle>, pos: nat)
    requires Ascending(store) && OnMinutes(store) && pos < |store|
    ensures IndexFrom(store, store[pos].time + 59) == pos + 1
  {
    if pos + 1 < |store| {
      MinuteLater(store[pos].time, store[pos + 1].time);
    }
    IndexIs(store, store[pos].time + 59, pos + 1);
  }

  lemma MinuteLater(a: int, b: int)
    requires a % MINUTE == 0 && b % MINUTE == 0 && a < b
    ensures a + MINUTE <= b
  {
  }

  // ----- The unbuffered replay

  ghost predicate AreDue(queue: seq<Settlement>, cursor: int, n: nat)
    requires n <= |queue|
  {
    && (forall j :: 0 <= j < n ==> queue[j].time <= cursor)
    && (n < |queue| ==> cursor < queue[n].time)
  }

  function DueCount(queue: seq<Settlement>, cursor: int): (n: nat)
    ensures n <= |queue| && AreDue(queue, cursor, n)
  {
    if queue == [] || cursor < queue[0].time then 0 else 1 + DueCount(queue[1..], cursor)
  }

  function Settles(queue: seq<Settlement>): seq<Event> {
    if queue == [] then [] else Settles(queue[..|queue| - 1]) + [Settle(queue[|queue| - 1])]
  }

  /** The evaluation at a cursor, and the report when a day is over. */
  function Head(cursor: int, next: int): seq<Event> {
    [Iterate(cursor)] + if cursor >= next then [Report(next + 1)] else []
  }

  function NextReport(cursor: int, next: int): int {
    if cursor >= next then next + DAY else next
  }

  function Cursor(store: seq<Candle>, pos: nat): int
    requires pos < |store|
  {
    store[pos].time + 59
  }

  /** Everything from a candle on, given the settlements still to come. */
  function Rounds(store: seq<Candle>, pos: nat, queue: seq<Settlement>, next: int, end: int): seq<Event>
    requires pos < |store|
    decreases |store| - pos
  {
    var cursor := Cursor(store, pos);
    if cursor >= end - 1 || pos + 1 == |store| then Head(cursor, next)
    else
      var due := DueCount(queue, Cursor(store, pos + 1));
      Head(cursor, next) + Settles(queue[..due]) + [Feed(store[pos + 1])]
      + Rounds(store, pos + 1, queue[due..], NextReport(cursor, next), end)
  }

  function Replayed(store: seq<Candle>, settlements: seq<Settlement>, start: int, end: int, lookback: nat): seq<Event> {
    var pos := IndexFrom(store, start);
    if pos == |store| then [] else
      [Load(Query(store, start - lookback, store[pos].time)), Report(store[pos].time)]
      + Rounds(store, pos, settlements, start + DAY - 1, end)
  }

  // ----- The buffered loop

  method FirstFrom(buffer: seq<Candle>, start: int) returns (i: nat)
    ensures i <= |buffer|
    ensures forall j :: 0 <= j < i ==> buffer[j].time < start
    ensures i < |buffer| ==> start <= buffer[i].time
  {
    i := 0;
    while i < |buffer| && buffer[i].time < start
      invariant i <= |buffer|
      invariant forall j :: 0 <= j < i ==> buffer[j].time < start
    {
      i := i + 1;
    }
  }

  /** The buffer is a stretch of the store. */
  ghost predicate IsWindow(store: seq<Candle>, buffer: seq<Candle>, offset: nat) {
    offset + |buffer| <= |store| && forall j :: 0 <= j < |buffer| ==> buffer[j] == store[offset + j]
  }

  lemma WindowAt(store: seq<Candle>, buffer: seq<Candle>, offset: nat, i: nat)
    requires IsWindow(store, buffer, offset) && i < |buffer|
    ensures offset + i < |store| && buffer[i] == store[offset + i]
  {
  }

  lemma QueryIsWindow(store: seq<Candle>, from: int, until: int)
    requires Ascending(store)
    ensures IsWindow(store, Query(store, from, until), IndexFrom(store, from))
  {
    hide Ascending, Query, IsIndexFrom;
    QueryIsSlice(store, from, until);
  }

  /** The first candles of a query are the query up to the last of them. */
  lemma QueryPrefix(store: seq<Candle>, from: int, until: int, i: nat)
    requires Ascending(store) && i < |Query(store, from, until)|
    ensures Query(store, from, until)[..i + 1] == Query(store, from, Query(store, from, until)[i].time)
  {
    hide Ascending, Query, IsIndexFrom;
    var a := IndexFrom(store, from);
    QueryIsSlice(store, from, until);
    var pos := a + i;
    assert Query(store, from, until)[i] == store[pos];
    AscendsAt(store, pos);
    QueryIsSlice(store, from, store[pos].time);
    IndexIs(store, store[pos].time + 1, pos + 1);
    assert Query(store, from, until)[..i + 1] == store[a..pos + 1];
  }

  /** The first fetch holds the candles up to the first one of the run, and then the next ones. */
  lemma InitialBuffer(store: seq<Candle>, from: int, until: int, start: int, i: nat)
    requires Ascending(store) && from <= start
    requires i < |Query(store, from, until)|
    requires forall j :: 0 <= j < i ==> Query(store, from, until)[j].time < start
    requires start <= Query(store, from, until)[i].time
    ensures var buffer, a := Query(store, from, until), IndexFrom(store, from);
      && IsWindow(store, buffer, a)
      && IndexFrom(store, start) == a + i
      && buffer[..i + 1] == Query(store, from, buffer[i].time)
  {
    hide Ascending, Query, IsIndexFrom;
    var buffer, a := Query(store, from, until), IndexFrom(store, from);
    QueryIsWindow(store, from, until);
    QueryPrefix(store, from, until, i);
    if i > 0 {
      assert store[a + i - 1] == buffer[i - 1];
    } else if a > 0 {
      IndexSplits(store, from, a - 1);
    }
    IndexIs(store, start, a + i);
  }

  function Pending(next: Option<Settlement>, queue: seq<Settlement>): seq<Settlement> {
    if next.None? then queue else [next.value] + queue
  }

  method PopFront(queue: seq<Settlement>) returns (next: Option<Settlement>, left: seq<Settlement>)
    ensures Pending(next, left) == queue && (next.None? ==> left == [])
  {
    if queue == [] {
      next, left := None, [];
    } else {
      next, left := Some(queue[0]), queue[1..];
    }
  }

  lemma DueIs(queue: seq<Settlement>, cursor: int, k: nat)
    requires k <= |queue| && AreDue(queue, cursor, k)
    ensures DueCount(queue, cursor) == k
  {
  }

  lemma SettlesAppend(queue: seq<Settlement>, k: nat)
    requires k < |queue|
    ensures Settles(queue[..k + 1]) == Settles(queue[..k]) + [Settle(queue[k])]
  {
    assert queue[..k + 1][..k] == queue[..k];
  }

  lemma DropFirst(next: Option<Settlement>, queue: seq<Settlement>, pending: seq<Settlement>, k: nat)
    requires k <= |pending| && Pending(next, queue) == pending[k..]
    requires next.None? ==> queue == []
    ensures next.None? <==> k == |pending|
    ensures next.Some? ==> next.value == pending[k] && queue == pending[k + 1..]
  {
    if next.Some? {
      assert pending[k..][0] == pending[k] && pending[k..][1..] == pending[k + 1..];
    }
  }

  /** Applies the settlements due at a cursor. */
  method SettleDue(next: Option<Settlement>, queue: seq<Settlement>, cursor: int)
    returns (events: seq<Event>, newNext: Option<Settlement>, newQueue: seq<Settlement>)
    requires next.None? ==> queue == []
    ensures newNext.None? ==> newQueue == []
    ensures var pending := Pending(next, queue);
      var due := DueCount(pending, cursor);
      events == Settles(pending[..due]) && Pending(newNext, newQueue) == pending[due..]
  {
    assert Settles([]) == [];
    hide DueCount, Settles, Pending;
    events, newNext, newQueue := [], next, queue;
    ghost var pending, k: nat := Pending(next, queue), 0;
    assert pending[0..] == pending;
    while newNext.Some? && newNext.value.time <= cursor
      invariant k <= |pending| && Pending(newNext, newQueue) == pending[k..]
      invariant newNext.None? ==> newQueue == []
      invariant forall j :: 0 <= j < k ==> pending[j].time <= cursor
      invariant events == Settles(pending[..k])
      decreases |pending| - k
    {
      DropFirst(newNext, newQueue, pending, k);
      SettlesAppend(pending, k);
      events := events + [Settle(newNext.value)];
      newNext, newQueue := PopFront(newQueue);
      k := k + 1;
    }
    DropFirst(newNext, newQueue, pending, k);
    DueIs(pending, cursor, k);
  }

  /** The evaluation at a cursor, and the report when a day is over. */
  method Evaluate(cursor: int, sendNextUpdateAt: int) returns (events: seq<Event>, newSendNextUpdateAt: int)
    ensures events == Head(cursor, sendNextUpdateAt) && newSendNextUpdateAt == NextReport(cursor, sendNextUpdateAt)
  {
    events, newSendNextUpdateAt := [Iterate(cursor)], sendNextUpdateAt;
    if cursor >= sendNextUpdateAt {
      events := events + [Report(sendNextUpdateAt + 1)];
      newSendNextUpdateAt := sendNextUpdateAt + DAY;
    }
  }

  /** Moves on in the buffer, or refetches it from the cursor on when it is exhausted. */
  method Advance(store: seq<Candle>, buffer: seq<Candle>, i: nat, cursor: int, bufferSize: nat, end: int,
                 ghost offset: nat)
    returns (r: Result<(seq<Candle>, nat)>, ghost newOffset: nat)
    requires Ascending(store) && OnMinutes(store)
    requires IsWindow(store, buffer, offset) && i < |buffer| && cursor == Cursor(store, offset + i)
    ensures r.Err? ==> r.error == UnexpectedEmptyBuffer
    ensures r.Err? ==> forall c <- store :: cursor <= c.time ==> Min(cursor + MINUTE * bufferSize, end) < c.time
    ensures r.Ok? ==>
      && IsWindow(store, r.value.0, newOffset) && r.value.1 < |r.value.0|
      && newOffset + r.value.1 == offset + i + 1
      && newOffset + r.value.1 < |store| && store[offset + i].time < store[offset + i + 1].time
  {
    hide Ascending, OnMinutes, Query, IsIndexFrom;
    newOffset := offset;
    var newBuffer, newI := buffer, i + 1;
    NextIndex(store, offset + i);
    AscendsAt(store, offset + i);
    if newI >= |buffer| {
      var bufferTo := Min(cursor + MINUTE * bufferSize, end);
      newBuffer := Query(store, cursor, bufferTo);
      QueryIsWindow(store, cursor, bufferTo);
      if newBuffer == [] {
        NothingFetched(store, cursor, bufferTo);
        return Err(UnexpectedEmptyBuffer), offset;
      }
      newOffset, newI := offset + i + 1, 0;
    }
    r := Ok((newBuffer, newI));
  }

  lemma NothingFetched(store: seq<Candle>, from: int, until: int)
    requires Ascending(store) && Query(store, from, until) == []
    ensures forall c <- store :: from <= c.time ==> until < c.time
  {
    QueryIsSlice(store, from, until);
    forall j | 0 <= j < |store|
      ensures from <= store[j].time ==> until < store[j].time
    {
      IndexSplits(store, from, j);
      IndexSplits(store, until + 1, j);
    }
  }

  lemma AscendsAt(store: seq<Candle>, pos: nat)
    requires Ascending(store)
    ensures pos + 1 < |store| ==> store[pos].time < store[pos + 1].time
  {
  }

  /** One round of the loop is one round of the replay. */
  lemma RoundStep(whole: seq<Event>, log: seq<Event>, store: seq<Candle>, pos: nat, queue: seq<Settlement>,
                  next: int, end: int)
    requires pos + 1 < |store| && Cursor(store, pos) < end - 1
    requires whole == log + Rounds(store, pos, queue, next, end)
    ensures var due, cursor := DueCount(queue, Cursor(store, pos + 1)), Cursor(store, pos);
      whole == log + Head(cursor, next) + Settles(queue[..due]) + [Feed(store[pos + 1])]
               + Rounds(store, pos + 1, queue[due..], NextReport(cursor, next), end)
  {
    hide DueCount, Head, Settles, Cursor, NextReport;
    var due, cursor := DueCount(queue, Cursor(store, pos + 1)), Cursor(store, pos);
    Associate(log, Head(cursor, next), Settles(queue[..due]), [Feed(store[pos + 1])],
              Rounds(store, pos + 1, queue[due..], NextReport(cursor, next), end));
  }

  lemma Associate<T>(a: seq<T>, b: seq<T>, c: seq<T>, d: seq<T>, e: seq<T>)
    ensures a + (b + c + d + e) == a + b + c + d + e
  {
  }

  lemma HeadFirst(log: seq<Event>, store: seq<Candle>, pos: nat, queue: seq<Settlement>, next: int, end: int)
    requires pos < |store|
    ensures log + Head(Cursor(store, pos), next) <= log + Rounds(store, pos, queue, next, end)
    ensures Cursor(store, pos) >= end - 1 ==> Rounds(store, pos, queue, next, end) == Head(Cursor(store, pos), next)
  {
  }

  lemma ReplayedFrom(store: seq<Candle>, settlements: seq<Settlement>, start: int, end: int, lookback: nat)
    ensures var pos := IndexFrom(store, start);
      pos < |store| ==>
        && start <= store[pos].time
        && Replayed(store, settlements, start, end, lookback)
           == [Load(Query(store, start - lookback, store[pos].time)), Report(store[pos].time)]
              + Rounds(store, pos, settlements, start + DAY - 1, end)
  {
  }

  /**
   Whatever the buffer size, the run does what the unbuffered replay does, as long as every fetch
   finds a candle; the cursor moves on with every round, so it ends. A fetch finds nothing only when
   no stored candle lies within its span.
   */
  method Run(store: seq<Candle>, settlements: seq<Settlement>, start: int, end: int, bufferSize: nat, lookback: nat)
    returns (r: Result<()>, log: seq<Event>)
    requires Ascending(store) && OnMinutes(store)
    ensures r.Ok? ==> log == Replayed(store, settlements, start, end, lookback)
    ensures r.Err? ==> r.error == UnexpectedEmptyBuffer && log <= Replayed(store, settlements, start, end, lookback)
    ensures GapFree(store, start, end) && bufferSize >= 1 && lookback <= MINUTE * bufferSize ==> r.Ok?
  {
    hide Ascending, OnMinutes, Query, IsWindow, Replayed, Pending, DueCount, AreDue, Settles, Head, Rounds, IsIndexFrom,
         NextReport, GapFree;
    log := [];
    var bufferFrom := start - lookback;
    var buffer := Query(store, bufferFrom, bufferFrom + MINUTE * bufferSize);
    var i := FirstFrom(buffer, start);
    if i == |buffer| {
      NoStart(store, bufferFrom, bufferFrom + MINUTE * bufferSize, start, end);
      return Err(UnexpectedEmptyBuffer), log;
    }
    InitialBuffer(store, bufferFrom, bufferFrom + MINUTE * bufferSize, start, i);
    ghost var offset: nat := IndexFrom(store, bufferFrom);
    ReplayedFrom(store, settlements, start, end, lookback);
    WindowAt(store, buffer, offset, i);
    var first := buffer[i];
    var next, queue := PopFront(settlements);
    var cursor := first.time + 59;
    log := [Load(buffer[..i + 1]), Report(first.time)];
    var sendNextUpdateAt := start + DAY - 1;

    ghost var whole := Replayed(store, settlements, start, end, lookback);
    while true
      invariant i < |buffer| && IsWindow(store, buffer, offset)
      invariant offset + i < |store| && cursor == Cursor(store, offset + i) && start <= store[offset + i].time
      invariant next.None? ==> queue == []
      invariant whole == log + Rounds(store, offset + i, Pending(next, queue), sendNextUpdateAt, end)
      decreases end - cursor
    {
      ghost var pos, pending, reportAt := offset + i, Pending(next, queue), sendNextUpdateAt;
      HeadFirst(log, store, pos, pending, reportAt, end);
      var evaluated;
      evaluated, sendNextUpdateAt := Evaluate(cursor, sendNextUpdateAt);
      ghost var before := log;
      log := log + evaluated;
      if cursor >= end - 1 {
        break;
      }
      var advanced;
      advanced, offset := Advance(store, buffer, i, cursor, bufferSize, end, offset);
      if advanced.Err? {
        NoNext(store, start, end, pos, bufferSize);
        return Err(advanced.error), log;
      }
      RoundStep(whole, before, store, pos, pending, reportAt, end);
      buffer, i := advanced.value.0, advanced.value.1;
      WindowAt(store, buffer, offset, i);
      cursor := buffer[i].time + 59;
      var settled;
      settled, next, queue := SettleDue(next, queue, cursor);
      log := log + settled + [Feed(buffer[i])];
    }
    r := Ok(());
  }

  // ----- Gap-free minutes

  ghost predicate Stored(store: seq<Candle>, t: int) {
    exists i :: 0 <= i < |store| && store[i].time == t
  }

  /** Every minute from the start to the end is stored. */
  ghost predicate GapFree(store: seq<Candle>, start: int, end: int) {
    && start % MINUTE == 0 && end % MINUTE == 0 && start + DAY <= end
    && forall t :: start <= t < end && t % MINUTE == 0 ==> Stored(store, t)
  }

  lemma InQuery(store: seq<Candle>, from: int, until: int, i: nat)
    requires Ascending(store) && i < |store| && from <= store[i].time <= until
    ensures store[i] in Query(store, from, until)
  {
    QueryIsSlice(store, from, until);
    IndexSplits(store, from, i);
    IndexSplits(store, until + 1, i);
    assert store[i] == Query(store, from, until)[i - IndexFrom(store, from)];
  }

  lemma NoStart(store: seq<Candle>, from: int, until: int, start: int, end: int)
    requires Ascending(store) && from <= start
    requires forall c <- Query(store, from, until) :: c.time < start
    ensures GapFree(store, start, end) ==> until < start
  {
    if GapFree(store, start, end) && start <= until {
      assert Stored(store, start);
      var i :| 0 <= i < |store| && store[i].time == start;
      InQuery(store, from, until, i);
    }
  }

  lemma NoNext(store: seq<Candle>, start: int, end: int, pos: nat, bufferSize: nat)
    requires pos < |store| && OnMinutes(store) && start <= store[pos].time && Cursor(store, pos) < end - 1
    requires forall c <- store :: Cursor(store, pos) <= c.time ==> Min(Cursor(store, pos) + MINUTE * bufferSize, end) < c.time
    ensures GapFree(store, start, end) ==> bufferSize == 0
  {
    if GapFree(store, start, end) {
      var t := store[pos].time + MINUTE;
      assert t % MINUTE == 0;
      MinuteLater(store[pos].time, end);
      assert Stored(store, t);
      var i :| 0 <= i < |store| && store[i].time == t;
      assert store[i] in store;
    }
  }
}
