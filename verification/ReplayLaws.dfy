/** What a replay feeds, settles and reports, and when its daily reports are in time. */
module ReplayLaws {
  import opened Basics
  import opened Market
  import opened Replay
  import Grid

  // ----- What a log holds

  /** Everything the events contribute, in order. */
  function Project<T>(log: seq<Event>, f: Event -> seq<T>): seq<T> {
    if log == [] then [] else f(log[0]) + Project(log[1..], f)
  }

  function CandlesOf(e: Event): seq<Candle> {
    match e case Feed(c) => [c] case Load(candles) => candles case _ => []
  }

  function SettlementsOf(e: Event): seq<Settlement> {
    match e case Settle(s) => [s] case _ => []
  }

  function ReportsOf(e: Event): seq<int> {
    match e case Report(t) => [t] case _ => []
  }

  function Fed(log: seq<Event>): seq<Candle> {
    Project(log, CandlesOf)
  }

  function Settled(log: seq<Event>): seq<Settlement> {
    Project(log, SettlementsOf)
  }

  function Reports(log: seq<Event>): seq<int> {
    Project(log, ReportsOf)
  }

  lemma {:induction false} ProjectConcat<T>(a: seq<Event>, b: seq<Event>, f: Event -> seq<T>)
    ensures Project(a + b, f) == Project(a, f) + Project(b, f)
  {
    if a == [] {
      assert a + b == b;
    } else {
      assert (a + b)[1..] == a[1..] + b;
      ProjectConcat(a[1..], b, f);
      assert f(a[0]) + (Project(a[1..], f) + Project(b, f)) == f(a[0]) + Project(a[1..], f) + Project(b, f);
    }
  }

  lemma ProjectOne<T>(e: Event, f: Event -> seq<T>)
    ensures Project([e], f) == f(e)
  {
    assert [e][1..] == [];
  }

  lemma {:induction false} SettlesAlone<T>(queue: seq<Settlement>, f: Event -> seq<T>)
    requires forall s :: f(Settle(s)) == []
    ensures Project(Settles(queue), f) == []
  {
    if queue != [] {
      var last := |queue| - 1;
      SettlesAlone(queue[..last], f);
      ProjectConcat(Settles(queue[..last]), [Settle(queue[last])], f);
      ProjectOne(Settle(queue[last]), f);
    }
  }

  lemma {:induction false} SettlesAll(queue: seq<Settlement>)
    ensures Settled(Settles(queue)) == queue
  {
    if queue != [] {
      var last := |queue| - 1;
      SettlesAll(queue[..last]);
      ProjectConcat(Settles(queue[..last]), [Settle(queue[last])], SettlementsOf);
      ProjectOne(Settle(queue[last]), SettlementsOf);
    }
  }

  /** The two events every replay opens with. */
  lemma ProjectOpening<T>(load: Event, time: int, rounds: seq<Event>, f: Event -> seq<T>)
    ensures Project([load, Report(time)] + rounds, f) == f(load) + f(Report(time)) + Project(rounds, f)
  {
    hide Project;
    assert [load, Report(time)] == [load] + [Report(time)];
    ProjectConcat([load, Report(time)], rounds, f);
    ProjectConcat([load], [Report(time)], f);
    ProjectOne(load, f);
    ProjectOne(Report(time), f);
  }

  lemma ProjectHead<T>(cursor: int, next: int, f: Event -> seq<T>)
    ensures Project(Head(cursor, next), f) == f(Iterate(cursor)) + if cursor >= next then f(Report(next + 1)) else []
  {
    ProjectOne(Iterate(cursor), f);
    if cursor >= next {
      ProjectOne(Report(next + 1), f);
      ProjectConcat([Iterate(cursor)], [Report(next + 1)], f);
    }
  }

  /** The part of a round before the next one. */
  function Front(store: seq<Candle>, pos: nat, queue: seq<Settlement>, next: int): seq<Event>
    requires pos + 1 < |store|
  {
    Head(Cursor(store, pos), next) + Settles(queue[..DueCount(queue, Cursor(store, pos + 1))]) + [Feed(store[pos + 1])]
  }

  function After(store: seq<Candle>, pos: nat, queue: seq<Settlement>, next: int, end: int): seq<Event>
    requires pos + 1 < |store|
  {
    Rounds(store, pos + 1, queue[DueCount(queue, Cursor(store, pos + 1))..], NextReport(Cursor(store, pos), next), end)
  }

  lemma ProjectRound<T>(store: seq<Candle>, pos: nat, queue: seq<Settlement>, next: int, end: int, f: Event -> seq<T>)
    requires pos + 1 < |store| && Cursor(store, pos) < end - 1
    ensures Rounds(store, pos, queue, next, end) == Front(store, pos, queue, next) + After(store, pos, queue, next, end)
    ensures var cursor, due := Cursor(store, pos), DueCount(queue, Cursor(store, pos + 1));
      Project(Rounds(store, pos, queue, next, end), f)
      == f(Iterate(cursor)) + (if cursor >= next then f(Report(next + 1)) else [])
         + Project(Settles(queue[..due]), f) + f(Feed(store[pos + 1])) + Project(After(store, pos, queue, next, end), f)
  {
    hide DueCount, Settles, Head, NextReport;
    var cursor, due := Cursor(store, pos), DueCount(queue, Cursor(store, pos + 1));
    var head, settles, feed := Head(cursor, next), Settles(queue[..due]), [Feed(store[pos + 1])];
    ProjectHead(cursor, next, f);
    ProjectOne(Feed(store[pos + 1]), f);
    ProjectConcat(head, settles, f);
    ProjectConcat(head + settles, feed, f);
    ProjectConcat(head + settles + feed, After(store, pos, queue, next, end), f);
  }

  // ----- How far a replay gets

  /** The last candle a replay reaches. */
  function Last(store: seq<Candle>, pos: nat, end: int): (last: nat)
    requires pos < |store|
    ensures pos <= last < |store|
    decreases |store| - pos
  {
    if Cursor(store, pos) >= end - 1 || pos + 1 == |store| then pos else Last(store, pos + 1, end)
  }

  lemma LastRound(store: seq<Candle>, pos: nat, queue: seq<Settlement>, next: int, end: int)
    requires pos < |store|
    ensures Last(store, pos, end) == pos <==> Cursor(store, pos) >= end - 1 || pos + 1 == |store|
    ensures Last(store, pos, end) == pos ==> Rounds(store, pos, queue, next, end) == Head(Cursor(store, pos), next)
    ensures Last(store, pos, end) > pos ==> Last(store, pos, end) == Last(store, pos + 1, end)
  {
  }

  lemma FirstThenRest<T>(s: seq<T>, i: nat, j: nat)
    requires i < j <= |s|
    ensures s[i..j] == [s[i]] + s[i + 1..j]
  {
  }

  /** Every candle after the first, up to the last one reached, is fed once and in order. */
  lemma {:induction false} FeedsEachCandleOnce(store: seq<Candle>, pos: nat, queue: seq<Settlement>, next: int,
                                               end: int)
    requires pos < |store|
    ensures Fed(Rounds(store, pos, queue, next, end)) == store[pos + 1..Last(store, pos, end) + 1]
    decreases |store| - pos
  {
    hide DueCount, Head, Settles, Project, Rounds, Last;
    LastRound(store, pos, queue, next, end);
    if Last(store, pos, end) == pos {
      ProjectHead(Cursor(store, pos), next, CandlesOf);
    } else {
      ProjectRound(store, pos, queue, next, end, CandlesOf);
      var due := DueCount(queue, Cursor(store, pos + 1));
      SettlesAlone(queue[..due], CandlesOf);
      FeedsEachCandleOnce(store, pos + 1, queue[due..], NextReport(Cursor(store, pos), next), end);
      FirstThenRest(store, pos + 1, Last(store, pos, end) + 1);
    }
  }

  function CursorsOf(e: Event): seq<int> {
    match e case Iterate(cursor) => [cursor] case _ => []
  }

  function Cursors(store: seq<Candle>, pos: nat, last: nat): seq<int>
    requires last < |store|
    decreases last + 1 - pos
  {
    if pos > last then [] else [Cursor(store, pos)] + Cursors(store, pos + 1, last)
  }

  lemma {:induction false} CursorsAt(store: seq<Candle>, pos: nat, last: nat, m: nat)
    requires last < |store| && pos + m <= last
    ensures |Cursors(store, pos, last)| == last + 1 - pos && Cursors(store, pos, last)[m] == Cursor(store, pos + m)
    decreases last - pos
  {
    hide Cursor, Cursors;
    CursorsFirst(store, pos, last);
    if pos < last {
      CursorsAt(store, pos + 1, last, if m > 0 then m - 1 else 0);
    }
  }

  lemma CursorsFirst(store: seq<Candle>, pos: nat, last: nat)
    requires pos <= last < |store|
    ensures Cursors(store, pos, last) == [Cursor(store, pos)] + Cursors(store, pos + 1, last)
    ensures Cursors(store, last + 1, last) == []
  {
  }

  /** The evaluators are called once at the end of every candle from the first to the last one reached. */
  lemma {:induction false} IteratesEachCandle(store: seq<Candle>, pos: nat, queue: seq<Settlement>, next: int, end: int)
    requires pos < |store|
    ensures Project(Rounds(store, pos, queue, next, end), CursorsOf) == Cursors(store, pos, Last(store, pos, end))
    decreases |store| - pos
  {
    hide DueCount, Head, Settles, Project, Rounds, Last;
    LastRound(store, pos, queue, next, end);
    if Last(store, pos, end) == pos {
      ProjectHead(Cursor(store, pos), next, CursorsOf);
      assert Cursors(store, pos + 1, pos) == [];
    } else {
      ProjectRound(store, pos, queue, next, end, CursorsOf);
      var due := DueCount(queue, Cursor(store, pos + 1));
      SettlesAlone(queue[..due], CursorsOf);
      IteratesEachCandle(store, pos + 1, queue[due..], NextReport(Cursor(store, pos), next), end);
    }
  }

  /** A round before the next one feeds one candle. */
  lemma FrontFeeds(store: seq<Candle>, pos: nat, queue: seq<Settlement>, next: int)
    requires pos + 1 < |store|
    ensures Fed(Front(store, pos, queue, next)) == [store[pos + 1]]
  {
    hide DueCount, Project, Settles, Head;
    var due := DueCount(queue, Cursor(store, pos + 1));
    var head, settles, feed := Head(Cursor(store, pos), next), Settles(queue[..due]), Feed(store[pos + 1]);
    ProjectHead(Cursor(store, pos), next, CandlesOf);
    SettlesAlone(queue[..due], CandlesOf);
    ProjectOne(feed, CandlesOf);
    ProjectConcat(head, settles, CandlesOf);
    ProjectConcat(head + settles, [feed], CandlesOf);
  }

  /** Only the first event of a round is an evaluation, and a round loads nothing. */
  lemma FrontIterates(store: seq<Candle>, pos: nat, queue: seq<Settlement>, next: int, i: nat)
    requires pos + 1 < |store| && i < |Front(store, pos, queue, next)|
    ensures var front := Front(store, pos, queue, next);
      && front[0] == Iterate(Cursor(store, pos))
      && (front[i].Iterate? ==> i == 0)
      && !front[i].Load?
  {
    hide DueCount;
    SettlesAt(queue[..DueCount(queue, Cursor(store, pos + 1))]);
  }

  lemma CursorsDiffer(store: seq<Candle>, i: nat, j: nat)
    requires Ascending(store) && i < |store| && j < |store| && Cursor(store, i) == Cursor(store, j)
    ensures i == j
  {
  }

  /** When a candle's end is evaluated, exactly the candles after the first one up to it have been fed. */
  lemma {:induction false} FedBefore(store: seq<Candle>, pos: nat, queue: seq<Settlement>, next: int, end: int,
                                     i: nat, j: nat)
    requires Ascending(store) && pos < |store| && pos <= j < |store|
    requires i < |Rounds(store, pos, queue, next, end)|
    requires Rounds(store, pos, queue, next, end)[i] == Iterate(Cursor(store, j))
    ensures Fed(Rounds(store, pos, queue, next, end)[..i]) == store[pos + 1..j + 1]
    decreases |store| - pos
  {
    hide DueCount, Settles, Last, Cursor, Ascending, Front, After;
    LastRound(store, pos, queue, next, end);
    if Last(store, pos, end) == pos {
      if i == 0 {
        CursorsDiffer(store, pos, j);
      }
    } else {
      ProjectRound(store, pos, queue, next, end, CandlesOf);
      FedInFront(store, pos, queue, next, end, i, j);
    }
  }

  lemma FedInFront(store: seq<Candle>, pos: nat, queue: seq<Settlement>, next: int, end: int, i: nat, j: nat)
    requires Ascending(store) && pos + 1 < |store| && pos <= j < |store|
    requires var rounds := Front(store, pos, queue, next) + After(store, pos, queue, next, end);
      i < |rounds| && rounds[i] == Iterate(Cursor(store, j))
    ensures var rounds := Front(store, pos, queue, next) + After(store, pos, queue, next, end);
      Fed(rounds[..i]) == store[pos + 1..j + 1]
    decreases |store| - pos, 0
  {
    hide DueCount, Settles, Last, Cursor, Ascending, Front, Rounds;
    var front, after := Front(store, pos, queue, next), After(store, pos, queue, next, end);
    var n := |front|;
    if i < n {
      FrontIterates(store, pos, queue, next, i);
      assert (front + after)[i] == front[i];
      assert (front + after)[..0] == [];
      CursorsDiffer(store, pos, j);
    } else {
      assert (front + after)[i] == after[i - n];
      assert (front + after)[..i] == front + after[..i - n];
      FrontFeeds(store, pos, queue, next);
      LaterCursor(store, pos, j, queue, next, end, i - n);
      FedBefore(store, pos + 1, queue[DueCount(queue, Cursor(store, pos + 1))..],
                NextReport(Cursor(store, pos), next), end, i - n, j);
      ProjectConcat(front, after[..i - n], CandlesOf);
      FirstThenRest(store, pos + 1, j + 1);
    }
  }

  /** The first event of a replay evaluates its first candle; every later evaluation follows the candle it evaluates. */
  lemma {:induction false} FeedsThenEvaluates(store: seq<Candle>, pos: nat, queue: seq<Settlement>, next: int,
                                              end: int, i: nat, j: nat)
    requires Ascending(store) && pos < |store| && pos <= j < |store|
    requires i < |Rounds(store, pos, queue, next, end)|
    requires Rounds(store, pos, queue, next, end)[i] == Iterate(Cursor(store, j))
    ensures i == 0 <==> j == pos
    ensures i > 0 ==> Rounds(store, pos, queue, next, end)[i - 1] == Feed(store[j])
    decreases |store| - pos
  {
    hide DueCount, Settles, Last, Cursor, Ascending, Front, After, Rounds;
    LastRound(store, pos, queue, next, end);
    if Last(store, pos, end) == pos {
      CursorsDiffer(store, pos, j);
    } else {
      ProjectRound(store, pos, queue, next, end, CandlesOf);
      EvaluatesAfterFront(store, pos, queue, next, end, i, j);
    }
  }

  lemma EvaluatesAfterFront(store: seq<Candle>, pos: nat, queue: seq<Settlement>, next: int, end: int, i: nat, j: nat)
    requires Ascending(store) && pos + 1 < |store| && pos <= j < |store|
    requires var rounds := Front(store, pos, queue, next) + After(store, pos, queue, next, end);
      i < |rounds| && rounds[i] == Iterate(Cursor(store, j))
    ensures i == 0 <==> j == pos
    ensures var rounds := Front(store, pos, queue, next) + After(store, pos, queue, next, end);
      i > 0 ==> rounds[i - 1] == Feed(store[j])
    decreases |store| - pos, 0
  {
    hide DueCount, Settles, Last, Cursor, Ascending, Front, Rounds;
    var front, after := Front(store, pos, queue, next), After(store, pos, queue, next, end);
    var n := |front|;
    FrontEnds(store, pos, queue, next);
    if i < n {
      FrontIterates(store, pos, queue, next, i);
      assert (front + after)[i] == front[i];
      CursorsDiffer(store, pos, j);
    } else {
      assert (front + after)[i] == after[i - n];
      LaterCursor(store, pos, j, queue, next, end, i - n);
      FeedsThenEvaluates(store, pos + 1, queue[DueCount(queue, Cursor(store, pos + 1))..],
                         NextReport(Cursor(store, pos), next), end, i - n, j);
      if i > n {
        assert (front + after)[i - 1] == after[i - n - 1];
      }
    }
  }

  lemma FrontEnds(store: seq<Candle>, pos: nat, queue: seq<Settlement>, next: int)
    requires pos + 1 < |store|
    ensures var front := Front(store, pos, queue, next);
      front != [] && front[|front| - 1] == Feed(store[pos + 1])
  {
  }

  /** What a later round evaluates is the end of a later candle. */
  lemma LaterCursor(store: seq<Candle>, pos: nat, j: nat, queue: seq<Settlement>, next: int, end: int, i: nat)
    requires Ascending(store) && pos + 1 < |store| && pos <= j < |store|
    requires i < |After(store, pos, queue, next, end)|
    requires After(store, pos, queue, next, end)[i] == Iterate(Cursor(store, j))
    ensures pos + 1 <= j
  {
    hide DueCount, Rounds;
    var due, newNext := DueCount(queue, Cursor(store, pos + 1)), NextReport(Cursor(store, pos), next);
    EvaluatesFrom(store, pos + 1, queue[due..], newNext, end, i);
    AscendsAt(store, pos);
  }

  lemma {:induction false} EvaluatesFrom(store: seq<Candle>, pos: nat, queue: seq<Settlement>, next: int, end: int,
                                         i: nat)
    requires Ascending(store) && pos < |store| && i < |Rounds(store, pos, queue, next, end)|
    ensures var e := Rounds(store, pos, queue, next, end)[i];
      !e.Load? && (e.Iterate? ==> Cursor(store, pos) <= e.cursor)
    decreases |store| - pos
  {
    hide DueCount, Settles, Last, Ascending, Front, Rounds, Cursor, NextReport;
    LastRound(store, pos, queue, next, end);
    if Last(store, pos, end) > pos {
      ProjectRound(store, pos, queue, next, end, CandlesOf);
      var front, after := Front(store, pos, queue, next), After(store, pos, queue, next, end);
      if i < |front| {
        FrontIterates(store, pos, queue, next, i);
        assert (front + after)[i] == front[i];
      } else {
        assert (front + after)[i] == after[i - |front|];
        CursorAscends(store, pos);
        EvaluatesFrom(store, pos + 1, queue[DueCount(queue, Cursor(store, pos + 1))..],
                      NextReport(Cursor(store, pos), next), end, i - |front|);
      }
    }
  }

  lemma CursorAscends(store: seq<Candle>, pos: nat)
    requires Ascending(store) && pos + 1 < |store|
    ensures Cursor(store, pos) < Cursor(store, pos + 1)
  {
    AscendsAt(store, pos);
  }

  lemma LastIsLater(store: seq<Candle>, pos: nat, end: int)
    requires Ascending(store) && pos < |store|
    ensures Cursor(store, pos) <= Cursor(store, Last(store, pos, end))
  {
  }

  lemma DueSplits(queue: seq<Settlement>, cursor: int, later: int)
    requires cursor <= later
    ensures var due := DueCount(queue, cursor);
      DueCount(queue, later) == due + DueCount(queue[due..], later)
  {
    hide DueCount;
    var due := DueCount(queue, cursor);
    DueIs(queue, later, due + DueCount(queue[due..], later));
  }

  lemma PrefixSplit<T>(s: seq<T>, i: nat, j: nat)
    requires i + j <= |s|
    ensures s[..i] + s[i..][..j] == s[..i + j]
  {
  }

  /** Every settlement up to the final cursor is applied once and in order, and no other. */
  lemma {:induction false} SettlesEachOnce(store: seq<Candle>, pos: nat, queue: seq<Settlement>, next: int, end: int)
    requires Ascending(store) && pos < |store|
    requires Last(store, pos, end) > pos || DueCount(queue, Cursor(store, pos)) == 0
    ensures Settled(Rounds(store, pos, queue, next, end))
         == queue[..DueCount(queue, Cursor(store, Last(store, pos, end)))]
    decreases |store| - pos
  {
    hide DueCount, AreDue, Head, Settles, Ascending, Project, Rounds, Last;
    LastRound(store, pos, queue, next, end);
    if Last(store, pos, end) == pos {
      ProjectHead(Cursor(store, pos), next, SettlementsOf);
    } else {
      var cursor := Cursor(store, pos + 1);
      var due, final := DueCount(queue, cursor), Cursor(store, Last(store, pos, end));
      var left := queue[due..];
      ProjectRound(store, pos, queue, next, end, SettlementsOf);
      SettlesAll(queue[..due]);
      DueSplits(queue, cursor, cursor);
      SettlesEachOnce(store, pos + 1, left, NextReport(Cursor(store, pos), next), end);
      LastIsLater(store, pos + 1, end);
      DueSplits(queue, cursor, final);
      PrefixSplit(queue, due, DueCount(left, final));
    }
  }

  // ----- Settlements come before the candle that covers them

  ghost predicate InOrder(queue: seq<Settlement>) {
    forall i, j :: 0 <= i < j < |queue| ==> queue[i].time <= queue[j].time
  }

  /** Each settlement is applied after the candles that end before it and before those that cover it. */
  ghost predicate Placed(log: seq<Event>) {
    forall i, j :: 0 <= i < |log| && 0 <= j < |log| && log[i].Settle? && log[j].Feed? ==>
      && (j < i ==> log[j].candle.time + 59 < log[i].settlement.time)
      && (i < j ==> log[i].settlement.time <= log[j].candle.time + 59)
  }

  ghost predicate Ends(e: Event, cut: int) {
    (e.Feed? ==> e.candle.time + 59 <= cut) && (e.Settle? ==> e.settlement.time <= cut)
  }

  ghost predicate Starts(e: Event, cut: int) {
    (e.Feed? ==> cut < e.candle.time + 59) && (e.Settle? ==> cut < e.settlement.time)
  }

  ghost predicate AllEnd(log: seq<Event>, cut: int) {
    forall e <- log :: Ends(e, cut)
  }

  ghost predicate AllStart(log: seq<Event>, cut: int) {
    forall e <- log :: Starts(e, cut)
  }

  lemma PlacedConcat(front: seq<Event>, tail: seq<Event>, cut: int)
    requires Placed(front) && Placed(tail)
    requires AllEnd(front, cut) && AllStart(tail, cut)
    ensures Placed(front + tail)
  {
    var log, n := front + tail, |front|;
    forall i, j | 0 <= i < |log| && 0 <= j < |log| && log[i].Settle? && log[j].Feed?
      ensures j < i ==> log[j].candle.time + 59 < log[i].settlement.time
      ensures i < j ==> log[i].settlement.time <= log[j].candle.time + 59
    {
      assert log[i] == if i < n then front[i] else tail[i - n];
      assert log[j] == if j < n then front[j] else tail[j - n];
      assert i < n ==> Ends(front[i], cut);
      assert j < n ==> Ends(front[j], cut);
      assert i >= n ==> Starts(tail[i - n], cut);
      assert j >= n ==> Starts(tail[j - n], cut);
    }
  }

  lemma {:induction false} SettlesAt(queue: seq<Settlement>)
    ensures |Settles(queue)| == |queue| && forall i :: 0 <= i < |queue| ==> Settles(queue)[i] == Settle(queue[i])
  {
    if queue != [] {
      SettlesAt(queue[..|queue| - 1]);
    }
  }

  lemma FrontIsPlaced(store: seq<Candle>, pos: nat, queue: seq<Settlement>, next: int)
    requires pos + 1 < |store|
    ensures var front, cut := Front(store, pos, queue, next), Cursor(store, pos + 1);
      Placed(front) && AllEnd(front, cut)
  {
    hide Settles, DueCount;
    var cut := Cursor(store, pos + 1);
    var due := DueCount(queue, cut);
    var head, settles, feed := Head(Cursor(store, pos), next), Settles(queue[..due]), Feed(store[pos + 1]);
    SettlesAt(queue[..due]);
    assert Front(store, pos, queue, next) == head + settles + [feed];
    forall e <- head + settles + [feed]
      ensures Ends(e, cut) && (e.Feed? ==> e == feed)
    {
      if e in settles {
        var i :| 0 <= i < |settles| && settles[i] == e;
        assert e == Settle(queue[i]) && queue[i].time <= cut;
      } else {
        assert e in head || e == feed;
      }
    }
    FeedsLast(head + settles, feed, cut);
  }

  /** Settlements up to a candle's end come before it. */
  lemma FeedsLast(before: seq<Event>, feed: Event, cut: int)
    requires feed.Feed? && feed.candle.time + 59 == cut
    requires forall e <- before :: !e.Feed? && Ends(e, cut)
    ensures Placed(before + [feed])
  {
    var log := before + [feed];
    forall k | 0 <= k < |before|
      ensures log[k] == before[k] && !log[k].Feed? && Ends(log[k], cut)
    {
      assert before[k] in before;
    }
    forall i, j | 0 <= i < |log| && 0 <= j < |log| && log[i].Settle? && log[j].Feed?
      ensures i < j && log[i].settlement.time <= log[j].candle.time + 59
    {
      assert j == |before|;
    }
  }

  lemma FrontStarts(store: seq<Candle>, pos: nat, queue: seq<Settlement>, next: int)
    requires Ascending(store) && pos + 1 < |store|
    requires forall s <- queue :: Cursor(store, pos) < s.time
    ensures AllStart(Front(store, pos, queue, next), Cursor(store, pos))
  {
    SettlesAt(queue[..DueCount(queue, Cursor(store, pos + 1))]);
  }

  lemma LeftIsLater(queue: seq<Settlement>, cursor: int)
    requires InOrder(queue)
    ensures var left := queue[DueCount(queue, cursor)..];
      InOrder(left) && forall s <- left :: cursor < s.time
  {
  }

  lemma StartsConcat(front: seq<Event>, tail: seq<Event>, cut: int, later: int)
    requires cut <= later
    requires AllStart(front, cut) && AllStart(tail, later)
    ensures AllStart(front + tail, cut)
  {
  }

  lemma HeadStarts(cursor: int, next: int, cut: int)
    ensures AllStart(Head(cursor, next), cut)
  {
  }

  lemma {:induction false} RoundsStart(store: seq<Candle>, pos: nat, queue: seq<Settlement>, next: int, end: int)
    requires Ascending(store) && pos < |store| && InOrder(queue)
    requires forall s <- queue :: Cursor(store, pos) < s.time
    ensures AllStart(Rounds(store, pos, queue, next, end), Cursor(store, pos))
    decreases |store| - pos
  {
    hide DueCount, AreDue, InOrder, Ascending, Settles, Last, Front, AllStart;
    LastRound(store, pos, queue, next, end);
    if Last(store, pos, end) == pos {
      HeadStarts(Cursor(store, pos), next, Cursor(store, pos));
    } else {
      ProjectRound(store, pos, queue, next, end, SettlementsOf);
      FrontStarts(store, pos, queue, next);
      LeftIsLater(queue, Cursor(store, pos + 1));
      AscendsAt(store, pos);
      var newNext := NextReport(Cursor(store, pos), next);
      var left := queue[DueCount(queue, Cursor(store, pos + 1))..];
      RoundsStart(store, pos + 1, left, newNext, end);
      var tail := Rounds(store, pos + 1, left, newNext, end);
      StartsConcat(Front(store, pos, queue, next), tail, Cursor(store, pos), Cursor(store, pos + 1));
    }
  }

  /** Each settlement is applied before the candle covering it and after all earlier candles. */
  lemma {:induction false} SettlesBeforeCoveringCandle(store: seq<Candle>, pos: nat, queue: seq<Settlement>,
                                                       next: int, end: int)
    requires Ascending(store) && pos < |store| && InOrder(queue)
    ensures Placed(Rounds(store, pos, queue, next, end))
    decreases |store| - pos
  {
    hide DueCount, AreDue, InOrder, Ascending, Settles, Last, Placed, AllStart, AllEnd, Front;
    LastRound(store, pos, queue, next, end);
    if Last(store, pos, end) > pos {
      var newNext := NextReport(Cursor(store, pos), next);
      var left := queue[DueCount(queue, Cursor(store, pos + 1))..];
      ProjectRound(store, pos, queue, next, end, SettlementsOf);
      FrontIsPlaced(store, pos, queue, next);
      LeftIsLater(queue, Cursor(store, pos + 1));
      RoundsStart(store, pos + 1, left, newNext, end);
      SettlesBeforeCoveringCandle(store, pos + 1, left, newNext, end);
      PlacedConcat(Front(store, pos, queue, next), Rounds(store, pos + 1, left, newNext, end), Cursor(store, pos + 1));
    } else {
      HeadIsPlaced(Cursor(store, pos), next);
    }
  }

  lemma HeadIsPlaced(cursor: int, next: int)
    ensures Placed(Head(cursor, next))
  {
  }

  // ----- Settlements and evaluations

  /** No settlement comes after an evaluation at or past its time. */
  ghost predicate SettledFirst(log: seq<Event>) {
    forall i, j :: 0 <= i < j < |log| && log[i].Iterate? && log[j].Settle? ==> log[i].cursor < log[j].settlement.time
  }

  ghost predicate AllEvaluatedBy(log: seq<Event>, cut: int) {
    forall e <- log :: e.Iterate? ==> e.cursor <= cut
  }

  lemma SettledFirstConcat(front: seq<Event>, tail: seq<Event>, cut: int)
    requires SettledFirst(front) && SettledFirst(tail)
    requires AllEvaluatedBy(front, cut) && AllStart(tail, cut)
    ensures SettledFirst(front + tail)
  {
    var log, n := front + tail, |front|;
    forall i, j | 0 <= i < j < |log| && log[i].Iterate? && log[j].Settle?
      ensures log[i].cursor < log[j].settlement.time
    {
      assert log[i] == if i < n then front[i] else tail[i - n];
      assert log[j] == if j < n then front[j] else tail[j - n];
      assert i < n ==> front[i] in front;
      assert j >= n ==> Starts(tail[j - n], cut);
    }
  }

  lemma NothingDue(queue: seq<Settlement>, cursor: int)
    requires InOrder(queue)
    ensures DueCount(queue, cursor) == 0 <==> forall s <- queue :: cursor < s.time
  {
    if DueCount(queue, cursor) == 0 {
      LeftIsLater(queue, cursor);
      assert queue[0..] == queue;
    } else {
      assert queue[0] in queue && queue[0].time <= cursor;
    }
  }

  lemma FrontSettlesFirst(store: seq<Candle>, pos: nat, queue: seq<Settlement>, next: int)
    requires pos + 1 < |store| && forall s <- queue :: Cursor(store, pos) < s.time
    ensures var front := Front(store, pos, queue, next);
      SettledFirst(front) && AllEvaluatedBy(front, Cursor(store, pos))
  {
    hide DueCount, Settles;
    var due := DueCount(queue, Cursor(store, pos + 1));
    var head, settles := Head(Cursor(store, pos), next), Settles(queue[..due]);
    SettlesAt(queue[..due]);
    forall e <- Front(store, pos, queue, next)
      ensures e.Iterate? ==> e.cursor == Cursor(store, pos)
      ensures e.Settle? ==> e.settlement in queue
    {
      if e in settles {
        var i :| 0 <= i < |settles| && settles[i] == e;
        assert e == Settle(queue[i]);
      } else {
        assert e in head || e == Feed(store[pos + 1]);
      }
    }
    EvaluatedOnce(Front(store, pos, queue, next), Cursor(store, pos));
  }

  lemma EvaluatedOnce(log: seq<Event>, cursor: int)
    requires forall e <- log :: e.Iterate? ==> e.cursor == cursor
    requires forall e <- log :: e.Settle? ==> cursor < e.settlement.time
    ensures SettledFirst(log) && AllEvaluatedBy(log, cursor)
  {
    forall i | 0 <= i < |log|
      ensures log[i] in log
    {
    }
  }

  /** When nothing is due at the first evaluation, every settlement comes before the evaluations past its time. */
  lemma {:induction false} SettlesBeforeEvaluations(store: seq<Candle>, pos: nat, queue: seq<Settlement>,
                                                    next: int, end: int)
    requires Ascending(store) && pos < |store| && InOrder(queue)
    requires forall s <- queue :: Cursor(store, pos) < s.time
    ensures SettledFirst(Rounds(store, pos, queue, next, end))
    decreases |store| - pos
  {
    hide DueCount, AreDue, InOrder, Ascending, Settles, Last, SettledFirst, AllStart, AllEvaluatedBy, Front;
    LastRound(store, pos, queue, next, end);
    if Last(store, pos, end) > pos {
      var newNext := NextReport(Cursor(store, pos), next);
      var left := queue[DueCount(queue, Cursor(store, pos + 1))..];
      ProjectRound(store, pos, queue, next, end, SettlementsOf);
      FrontSettlesFirst(store, pos, queue, next);
      LeftIsLater(queue, Cursor(store, pos + 1));
      RoundsStart(store, pos + 1, left, newNext, end);
      SettlesBeforeEvaluations(store, pos + 1, left, newNext, end);
      EvaluatedEarlier(Front(store, pos, queue, next), Cursor(store, pos), Cursor(store, pos + 1)) by {
        CursorAscends(store, pos);
      }
      SettledFirstConcat(Front(store, pos, queue, next), Rounds(store, pos + 1, left, newNext, end),
                         Cursor(store, pos + 1));
    } else {
      HeadSettlesFirst(Cursor(store, pos), next);
    }
  }

  lemma EvaluatedEarlier(log: seq<Event>, cut: int, later: int)
    requires AllEvaluatedBy(log, cut) && cut <= later
    ensures AllEvaluatedBy(log, later)
  {
  }

  lemma HeadSettlesFirst(cursor: int, next: int)
    ensures SettledFirst(Head(cursor, next))
  {
  }

  /** A settlement due at the first evaluation is applied after it, before the next candle. */
  lemma SettlesLate(store: seq<Candle>, pos: nat, queue: seq<Settlement>, next: int, end: int)
    requires Ascending(store) && pos + 1 < |store| && Cursor(store, pos) < end - 1
    requires queue != [] && queue[0].time <= Cursor(store, pos)
    ensures !SettledFirst(Rounds(store, pos, queue, next, end))
  {
    hide Ascending, Settles;
    var due := DueCount(queue, Cursor(store, pos + 1));
    var head, settles := Head(Cursor(store, pos), next), Settles(queue[..due]);
    CursorAscends(store, pos);
    SettlesAt(queue[..due]);
    ProjectRound(store, pos, queue, next, end, SettlementsOf);
    var rounds, j := Rounds(store, pos, queue, next, end), |head|;
    assert rounds[0] == head[0] == Iterate(Cursor(store, pos));
    assert rounds[j] == settles[0] == Settle(queue[0]);
  }

  /**
   Every settlement comes before the evaluations at or past its time if and only if none is due at the
   first evaluation already, or the replay ends there: the first candle is shown before anything is settled.
   */
  lemma SettlesBeforeEvaluationsIff(store: seq<Candle>, pos: nat, queue: seq<Settlement>, next: int, end: int)
    requires Ascending(store) && pos < |store| && InOrder(queue)
    ensures SettledFirst(Rounds(store, pos, queue, next, end))
       <==> Last(store, pos, end) == pos || DueCount(queue, Cursor(store, pos)) == 0
  {
    hide Ascending, InOrder, DueCount, Last, SettledFirst, Rounds, AreDue;
    LastRound(store, pos, queue, next, end);
    if Last(store, pos, end) == pos {
      HeadSettlesFirst(Cursor(store, pos), next);
    } else {
      NothingDue(queue, Cursor(store, pos));
      if DueCount(queue, Cursor(store, pos)) == 0 {
        SettlesBeforeEvaluations(store, pos, queue, next, end);
      } else {
        FirstIsDue(queue, Cursor(store, pos));
        SettlesLate(store, pos, queue, next, end);
      }
    }
  }

  lemma FirstIsDue(queue: seq<Settlement>, cursor: int)
    requires DueCount(queue, cursor) > 0
    ensures queue != [] && queue[0].time <= cursor
  {
  }

  /** The same for a whole replay, whose first candle is loaded and evaluated but never fed. */
  lemma ReplaySettlesFirstIff(store: seq<Candle>, settlements: seq<Settlement>, start: int, end: int, lookback: nat)
    requires Ascending(store) && InOrder(settlements) && IndexFrom(store, start) < |store|
    ensures var p := IndexFrom(store, start);
      SettledFirst(Replayed(store, settlements, start, end, lookback))
      <==> Last(store, p, end) == p || DueCount(settlements, Cursor(store, p)) == 0
  {
    hide Ascending, InOrder, DueCount, Last, SettledFirst, Rounds, AreDue, Query, IsIndexFrom, Replayed;
    var p := IndexFrom(store, start);
    var rounds := Rounds(store, p, settlements, start + DAY - 1, end);
    ReplayedFrom(store, settlements, start, end, lookback);
    SettlesBeforeEvaluationsIff(store, p, settlements, start + DAY - 1, end);
    OpeningSettlesNothing([Load(Query(store, start - lookback, store[p].time)), Report(store[p].time)], rounds);
  }

  lemma OpeningSettlesNothing(opening: seq<Event>, log: seq<Event>)
    requires forall e <- opening :: !e.Iterate? && !e.Settle?
    ensures SettledFirst(opening + log) <==> SettledFirst(log)
  {
    var whole, n := opening + log, |opening|;
    forall i | 0 <= i < |log|
      ensures whole[n + i] == log[i]
    {
    }
    forall i | 0 <= i < n
      ensures !whole[i].Iterate? && !whole[i].Settle?
    {
      assert whole[i] == opening[i] && opening[i] in opening;
    }
    if SettledFirst(log) {
      forall i, j | 0 <= i < j < |whole| && whole[i].Iterate? && whole[j].Settle?
        ensures whole[i].cursor < whole[j].settlement.time
      {
        assert whole[i] == log[i - n] && whole[j] == log[j - n];
      }
    }
    if SettledFirst(whole) {
      forall i, j | 0 <= i < j < |log| && log[i].Iterate? && log[j].Settle?
        ensures log[i].cursor < log[j].settlement.time
      {
        assert whole[n + i] == log[i] && whole[n + j] == log[j];
      }
    }
  }

  /**
   Two minutes and a settlement at the start: it is applied after the first candle was loaded and
   evaluated, although that candle covers it.
   */
  lemma FirstSettlementIsLate(c0: Candle, c1: Candle, s: Settlement, start: int)
    requires c0.time == start && c1.time == start + MINUTE && s.time == start
    ensures Replayed([c0, c1], [s], start, start + 2 * MINUTE, 0)
         == [Load([c0]), Report(start), Iterate(start + 59), Settle(s), Feed(c1), Iterate(start + 119)]
    ensures !SettledFirst(Replayed([c0, c1], [s], start, start + 2 * MINUTE, 0))
  {
    var store, end := [c0, c1], start + 2 * MINUTE;
    assert IndexFrom(store, start) == 0;
    IndexIs(store, start + 1, 1);
    QueryIsSlice(store, start, start);
    assert Query(store, start, start) == [c0];
    assert Settles([s]) == [Settle(s)] by {
      SettlesAt([s]);
    }
    assert DueCount([s], start + 119) == 1;
    assert [s][..1] == [s] && [s][1..] == [];
    assert Rounds(store, 1, [], start + DAY - 1, end) == [Iterate(start + 119)];
    assert Rounds(store, 0, [s], start + DAY - 1, end)
        == [Iterate(start + 59)] + [Settle(s)] + [Feed(c1)] + [Iterate(start + 119)];
    var log := Replayed(store, [s], start, end, 0);
    assert log[2] == Iterate(start + 59) && log[3] == Settle(s);
  }

  /** A midnight is a settlement time from the third phase on; before that the first one comes hours later. */
  lemma MidnightCeil(start: int)
    requires start % DAY == 0
    ensures if Grid.C_START <= start then Grid.CeilSettlementTime(start) == start
            else Grid.CeilSettlementTime(start) > start + 59
  {
    hide Grid.CeilSettlementTime, Grid.FloorSettlementTime, Grid.IsValidSettlementTime;
    var days := start / DAY;
    DivSplit(start, DAY);
    QuotientIs(start, Grid.INTERVAL, 3 * days);
    NotStray(start);
    Grid.FloorCeilAdjunction(start, start);
    forall t | start <= t <= start + 59 && t < Grid.C_START
      ensures !Grid.OnGrid(t)
    {
      QuotientIs(t, DAY, days);
      QuotientIs(t, Grid.INTERVAL, 3 * days);
    }
  }

  lemma NotStray(start: int)
    requires start % DAY == 0
    ensures start != Grid.STRAY
  {
  }

  /**
   For a run from a midnight, with its settlements fetched from the first one on: before the third phase
   each comes before the evaluations at or past its time; from then on, the one of the start itself
   comes after the first evaluation.
   */
  lemma MidnightRun(store: seq<Candle>, settlements: seq<Settlement>, start: int, end: int, lookback: nat)
    requires Ascending(store) && OnMinutes(store) && GapFree(store, start, end) && InOrder(settlements)
    requires start % DAY == 0 && forall s <- settlements :: Grid.CeilSettlementTime(start) <= s.time
    ensures var log := Replayed(store, settlements, start, end, lookback);
      && (start < Grid.C_START ==> SettledFirst(log))
      && (Grid.C_START <= start && settlements != [] && settlements[0].time == start ==> !SettledFirst(log))
  {
    hide Ascending, OnMinutes, GapFree, InOrder, DueCount, Last, SettledFirst, Replayed, IsIndexFrom,
         Grid.CeilSettlementTime;
    GapFreeFrame(store, start, end);
    ReplaySettlesFirstIff(store, settlements, start, end, lookback);
    MidnightCeil(start);
    NothingDue(settlements, start + 59);
  }

  // ----- Daily reports

  predicate IsDayEnd(d: int, next: int) {
    d >= next && (d - next) % DAY == 0
  }

  ghost predicate HasCursor(store: seq<Candle>, pos: nat, last: nat, cursor: int)
    requires last < |store|
  {
    exists j :: pos <= j <= last && Cursor(store, j) == cursor
  }

  /** The last minute of every day the replay passes is stored. */
  ghost predicate DayEndsStored(store: seq<Candle>, pos: nat, next: int, end: int)
    requires pos < |store|
  {
    var last := Last(store, pos, end);
    forall d :: IsDayEnd(d, next) && d <= Cursor(store, last) ==> HasCursor(store, pos, last, d)
  }

  /** The executor's clock after an event. */
  function Clock(e: Event, time: int): int {
    match e case Feed(c) => c.time + 59 case Report(t) => t case _ => time
  }

  /** No event asks the executor to go back in time. */
  predicate InTime(log: seq<Event>, time: int) {
    log == [] || (time <= Clock(log[0], time) && InTime(log[1..], Clock(log[0], time)))
  }

  lemma InTimeFirst(e: Event, log: seq<Event>, time: int)
    ensures InTime([e] + log, time) <==> time <= Clock(e, time) && InTime(log, Clock(e, time))
  {
    assert ([e] + log)[1..] == log;
  }

  lemma {:induction false} InTimeSettles(queue: seq<Settlement>, log: seq<Event>, time: int)
    ensures InTime(Settles(queue) + log, time) <==> InTime(log, time)
  {
    if queue == [] {
      assert Settles(queue) + log == log;
    } else {
      var last := |queue| - 1;
      var e := Settle(queue[last]);
      assert Settles(queue) + log == Settles(queue[..last]) + ([e] + log);
      InTimeSettles(queue[..last], [e] + log, time);
      InTimeFirst(e, log, time);
    }
  }

  lemma InTimeHead(cursor: int, next: int, log: seq<Event>, time: int)
    ensures InTime(Head(cursor, next) + log, time)
       <==> if cursor >= next then time <= next + 1 && InTime(log, next + 1) else InTime(log, time)
  {
    if cursor >= next {
      assert Head(cursor, next) + log == [Iterate(cursor)] + ([Report(next + 1)] + log);
      InTimeFirst(Iterate(cursor), [Report(next + 1)] + log, time);
      InTimeFirst(Report(next + 1), log, time);
    } else {
      InTimeFirst(Iterate(cursor), log, time);
    }
  }

  lemma InTimeRound(store: seq<Candle>, pos: nat, queue: seq<Settlement>, next: int, end: int, time: int)
    requires pos + 1 < |store| && Cursor(store, pos) < end - 1
    ensures var clock := if Cursor(store, pos) >= next then next + 1 else time;
      InTime(Rounds(store, pos, queue, next, end), time)
      <==> time <= clock <= Cursor(store, pos + 1)
           && InTime(After(store, pos, queue, next, end), Cursor(store, pos + 1))
  {
    hide DueCount, AreDue, Settles, Head, InTime;
    var cursor, due := Cursor(store, pos), DueCount(queue, Cursor(store, pos + 1));
    var head, settles, feed := Head(cursor, next), Settles(queue[..due]), Feed(store[pos + 1]);
    var after := After(store, pos, queue, next, end);
    var clock := if cursor >= next then next + 1 else time;
    assert Rounds(store, pos, queue, next, end) == head + (settles + ([feed] + after));
    InTimeHead(cursor, next, settles + ([feed] + after), time);
    InTimeSettles(queue[..due], [feed] + after, clock);
    InTimeFirst(feed, after, clock);
  }

  lemma NextDayEnd(next: int, d: int)
    ensures IsDayEnd(d, next) <==> d == next || IsDayEnd(d, next + DAY)
  {
    if IsDayEnd(d, next) && d != next {
      assert d - next == (d - next) / DAY * DAY;
    }
    if IsDayEnd(d, next + DAY) {
      assert d - next == ((d - next - DAY) / DAY + 1) * DAY;
    }
  }

  lemma CursorFurther(store: seq<Candle>, pos: nat, last: nat, d: int)
    requires pos < last < |store|
    ensures HasCursor(store, pos, last, d) <==> d == Cursor(store, pos) || HasCursor(store, pos + 1, last, d)
  {
    if d == Cursor(store, pos) {
      assert Cursor(store, pos) == d;
    } else if HasCursor(store, pos, last, d) {
      var j :| pos <= j <= last && Cursor(store, j) == d;
      assert pos + 1 <= j;
    }
  }

  /** Moving on one candle, the day ends still to come are stored if and only if they were. */
  lemma DayEndsMoveOn(store: seq<Candle>, pos: nat, next: int, end: int)
    requires Ascending(store) && pos < |store| && Last(store, pos, end) > pos
    requires Cursor(store, pos) <= next
    ensures DayEndsStored(store, pos, next, end)
       <==> DayEndsStored(store, pos + 1, NextReport(Cursor(store, pos), next), end)
  {
    var last, cursor, newNext := Last(store, pos, end), Cursor(store, pos), NextReport(Cursor(store, pos), next);
    if DayEndsStored(store, pos, next, end) {
      forall d | IsDayEnd(d, newNext) && d <= Cursor(store, last)
        ensures HasCursor(store, pos + 1, last, d)
      {
        NextDayEnd(next, d);
        CursorFurther(store, pos, last, d);
      }
    }
    if DayEndsStored(store, pos + 1, newNext, end) {
      forall d | IsDayEnd(d, next) && d <= Cursor(store, last)
        ensures HasCursor(store, pos, last, d)
      {
        NextDayEnd(next, d);
        CursorFurther(store, pos, last, d);
      }
    }
  }

  lemma LateReport(store: seq<Candle>, pos: nat, next: int, end: int)
    requires Ascending(store) && pos < |store| && next < Cursor(store, pos)
    ensures !DayEndsStored(store, pos, next, end)
  {
    LastIsLater(store, pos, end);
    assert IsDayEnd(next, next);
    AllLater(store, pos, Last(store, pos, end), next);
  }

  lemma AllLater(store: seq<Candle>, pos: nat, last: nat, d: int)
    requires Ascending(store) && pos <= last < |store| && d < Cursor(store, pos)
    ensures !HasCursor(store, pos, last, d)
  {
    forall j | pos <= j <= last
      ensures d < Cursor(store, j)
    {
    }
  }

  /**
   A daily report asks the executor to go back in time unless the last minute of each day that the
   replay passes is stored; then no event ever does.
   */
  lemma {:induction false} ReportsInTimeIff(store: seq<Candle>, pos: nat, queue: seq<Settlement>, next: int,
                                            end: int, time: int)
    requires Ascending(store) && OnMinutes(store) && pos < |store| && next % MINUTE == 59
    requires time <= Cursor(store, pos) && (time == Cursor(store, pos) || Cursor(store, pos) <= next)
    ensures InTime(Rounds(store, pos, queue, next, end), time) <==> DayEndsStored(store, pos, next, end)
    decreases |store| - pos
  {
    hide Ascending, OnMinutes, IsDayEnd, DayEndsStored, HasCursor, InTime, DueCount;
    var cursor := Cursor(store, pos);
    CursorAligned(store, pos, next);
    if cursor > next {
      LateReport(store, pos, next, end);
      LateIsNotInTime(store, pos, queue, next, end, time);
    } else if Last(store, pos, end) == pos {
      LastInTime(store, pos, queue, next, end, time);
    } else {
      InTimeRound(store, pos, queue, next, end, time);
      AscendsAt(store, pos);
      CursorAligned(store, pos + 1, next);
      DayEndsMoveOn(store, pos, next, end);
      var due := DueCount(queue, Cursor(store, pos + 1));
      ReportsInTimeIff(store, pos + 1, queue[due..], NextReport(cursor, next), end, Cursor(store, pos + 1));
    }
  }

  lemma CursorAligned(store: seq<Candle>, pos: nat, next: int)
    requires OnMinutes(store) && pos < |store| && next % MINUTE == 59
    ensures Cursor(store, pos) % MINUTE == 59 && (next + DAY) % MINUTE == 59
    ensures Cursor(store, pos) > next ==> Cursor(store, pos) > next + 1
    ensures Cursor(store, pos) < next ==> Cursor(store, pos) + MINUTE <= next
    ensures pos + 1 < |store| && Cursor(store, pos) < Cursor(store, pos + 1)
         ==> Cursor(store, pos) + 1 <= Cursor(store, pos + 1)
  {
  }

  lemma LateIsNotInTime(store: seq<Candle>, pos: nat, queue: seq<Settlement>, next: int, end: int, time: int)
    requires pos < |store| && next + 1 < Cursor(store, pos) && time == Cursor(store, pos)
    ensures !InTime(Rounds(store, pos, queue, next, end), time)
  {
    var log := Rounds(store, pos, queue, next, end);
    var rest := log[2..];
    assert log == Head(Cursor(store, pos), next) + rest;
    InTimeHead(Cursor(store, pos), next, rest, time);
  }

  lemma LastInTime(store: seq<Candle>, pos: nat, queue: seq<Settlement>, next: int, end: int, time: int)
    requires pos < |store| && Last(store, pos, end) == pos
    requires time <= Cursor(store, pos) <= next
    ensures InTime(Rounds(store, pos, queue, next, end), time) && DayEndsStored(store, pos, next, end)
  {
    var cursor := Cursor(store, pos);
    LastRound(store, pos, queue, next, end);
    assert Head(cursor, next) + [] == Head(cursor, next);
    InTimeHead(cursor, next, [], time);
    if cursor == next {
      assert Cursor(store, pos) == next;
    }
  }

  function Days(from: int, until: int): seq<int>
    decreases until - from
  {
    if from > until then [] else [from] + Days(from + DAY, until)
  }

  lemma {:induction false} DaysExact(from: int, until: int, t: int)
    ensures t in Days(from, until) <==> from <= t <= until && (t - from) % DAY == 0
    ensures forall i, j :: 0 <= i < j < |Days(from, until)| ==> Days(from, until)[i] < Days(from, until)[j]
    decreases until - from
  {
    hide IsDayEnd;
    if from <= until {
      DaysExact(from + DAY, until, t);
      DayStep(from, t);
      var rest := Days(from + DAY, until);
      forall j | 0 <= j < |rest|
        ensures from < rest[j]
      {
        DaysStart(from + DAY, until, j);
      }
    }
  }

  lemma DayStep(from: int, t: int)
    ensures from <= t && (t - from) % DAY == 0 <==> t == from || (from + DAY <= t && (t - (from + DAY)) % DAY == 0)
  {
    NextDayEnd(from, t);
  }

  lemma {:induction false} DaysStart(from: int, until: int, j: nat)
    requires j < |Days(from, until)|
    ensures from <= Days(from, until)[j]
    decreases until - from
  {
    if j > 0 {
      DaysStart(from + DAY, until, j - 1);
    }
  }

  /** When the last minute of every day passed is stored, there is one report for each midnight passed. */
  lemma {:induction false} ReportsAreDays(store: seq<Candle>, pos: nat, queue: seq<Settlement>, next: int, end: int)
    requires Ascending(store) && pos < |store| && Cursor(store, pos) <= next
    requires DayEndsStored(store, pos, next, end)
    ensures Reports(Rounds(store, pos, queue, next, end)) == Days(next + 1, Cursor(store, Last(store, pos, end)) + 1)
    decreases |store| - pos
  {
    hide Ascending, DayEndsStored, DueCount, Settles, Project, AreDue;
    var cursor := Cursor(store, pos);
    LastIsLater(store, pos, end);
    if Last(store, pos, end) == pos {
      ProjectHead(cursor, next, ReportsOf);
    } else {
      var due, newNext := DueCount(queue, Cursor(store, pos + 1)), NextReport(cursor, next);
      ProjectRound(store, pos, queue, next, end, ReportsOf);
      SettlesAlone(queue[..due], ReportsOf);
      DayEndsMoveOn(store, pos, next, end);
      if Cursor(store, pos + 1) > newNext {
        LateReport(store, pos + 1, newNext, end);
      }
      ReportsAreDays(store, pos + 1, queue[due..], newNext, end);
    }
  }

  // ----- Gap-free minutes

  /** The candle of a stored minute after another one comes later, and the next minute comes next. */
  lemma NextMinuteAt(store: seq<Candle>, pos: nat, t: int)
    requires Ascending(store) && OnMinutes(store) && pos < |store|
    requires t == store[pos].time + MINUTE && Stored(store, t)
    ensures pos + 1 < |store| && store[pos + 1].time == t
  {
    var i :| 0 <= i < |store| && store[i].time == t;
    assert pos < i;
    MinuteLater(store[pos].time, store[pos + 1].time);
  }

  lemma FirstMinuteAt(store: seq<Candle>, start: int)
    requires Ascending(store) && Stored(store, start)
    ensures IndexFrom(store, start) < |store| && store[IndexFrom(store, start)].time == start
  {
    var i :| 0 <= i < |store| && store[i].time == start;
    IndexIs(store, start, i);
  }

  lemma {:induction false} MinuteAt(store: seq<Candle>, start: int, end: int, k: nat)
    requires Ascending(store) && OnMinutes(store) && GapFree(store, start, end) && start + MINUTE * k < end
    ensures IndexFrom(store, start) + k < |store|
    ensures store[IndexFrom(store, start) + k].time == start + MINUTE * k
  {
    MinuteIsStored(store, start, end, k);
    hide Ascending, OnMinutes, GapFree, Stored, IsIndexFrom;
    if k == 0 {
      FirstMinuteAt(store, start);
    } else {
      MinuteAt(store, start, end, k - 1);
      NextMinuteAt(store, IndexFrom(store, start) + k - 1, start + MINUTE * k);
    }
  }

  lemma MinuteIsStored(store: seq<Candle>, start: int, end: int, k: nat)
    requires GapFree(store, start, end) && start + MINUTE * k < end
    ensures Stored(store, start + MINUTE * k)
  {
    var t := start + MINUTE * k;
    assert t % MINUTE == 0;
  }

  /** A replay of gap-free minutes ends with the last minute before the end. */
  lemma {:induction false} LastMinute(store: seq<Candle>, start: int, end: int, k: nat)
    requires Ascending(store) && OnMinutes(store) && GapFree(store, start, end) && start + MINUTE * k < end
    ensures IndexFrom(store, start) + k < |store|
    ensures Last(store, IndexFrom(store, start) + k, end) == IndexFrom(store, start) + (end - start) / MINUTE - 1
    decreases end - start - MINUTE * k
  {
    hide Ascending, OnMinutes;
    MinuteAt(store, start, end, k);
    WholeMinutes(start, end, k);
    if start + MINUTE * (k + 1) < end {
      LastMinute(store, start, end, k + 1);
    }
  }

  lemma WholeMinutes(start: int, end: int, k: nat)
    requires start % MINUTE == 0 && end % MINUTE == 0 && start + MINUTE * k < end
    ensures start + MINUTE * (k + 1) == end <==> (end - start) / MINUTE == k + 1
    ensures start + MINUTE * (k + 1) <= end
    ensures MINUTE * ((end - start) / MINUTE) == end - start
  {
    assert end - start == (end / MINUTE - start / MINUTE) * MINUTE;
  }

  /** The frame of a replay of gap-free minutes. */
  lemma GapFreeFrame(store: seq<Candle>, start: int, end: int)
    requires Ascending(store) && OnMinutes(store) && GapFree(store, start, end)
    ensures var p := IndexFrom(store, start);
      && p < |store| && store[p].time == start && start + DAY <= end && start % MINUTE == 0
      && Last(store, p, end) > p && Cursor(store, Last(store, p, end)) == end - 1
  {
    var minutes := (end - start) / MINUTE;
    WholeMinutes(start, end, 0);
    MinuteAt(store, start, end, 0);
    MinuteAt(store, start, end, minutes - 1);
    LastMinute(store, start, end, 0);
  }

  /** Without a missing minute, the last minute of every day is stored. */
  lemma GapFreeDayEnds(store: seq<Candle>, start: int, end: int)
    requires Ascending(store) && OnMinutes(store) && GapFree(store, start, end)
    ensures IndexFrom(store, start) < |store|
    ensures DayEndsStored(store, IndexFrom(store, start), start + DAY - 1, end)
  {
    hide Ascending, OnMinutes, GapFree, IsIndexFrom, IsDayEnd, Last;
    GapFreeFrame(store, start, end);
    var p := IndexFrom(store, start);
    var last := Last(store, p, end);
    forall d | IsDayEnd(d, start + DAY - 1) && d <= Cursor(store, last)
      ensures HasCursor(store, p, last, d)
    {
      DayEndHasCursor(store, start, end, d);
    }
  }

  lemma DayEndHasCursor(store: seq<Candle>, start: int, end: int, d: int)
    requires Ascending(store) && OnMinutes(store) && GapFree(store, start, end)
    requires IsDayEnd(d, start + DAY - 1) && d < end
    ensures IndexFrom(store, start) < |store|
    ensures HasCursor(store, IndexFrom(store, start), Last(store, IndexFrom(store, start), end), d)
  {
    hide Ascending, OnMinutes, IsIndexFrom, Last;
    var p := IndexFrom(store, start);
    var k := DayEndMinute(start, d);
    GapFreeFrame(store, start, end);
    MinuteAt(store, start, end, k);
    LastMinute(store, start, end, k);
    assert Cursor(store, p + k) == d;
    LastMinute(store, start, end, 0);
  }

  lemma DayEndMinute(start: int, d: int) returns (k: nat)
    requires IsDayEnd(d, start + DAY - 1)
    ensures d == start + MINUTE * k + 59
  {
    var days := (d - (start + DAY - 1)) / DAY;
    k := (days + 1) * 1_440 - 1;
  }

  lemma LoadsAndFeedsAll(store: seq<Candle>, settlements: seq<Settlement>, start: int, end: int, lookback: nat)
    requires Ascending(store) && OnMinutes(store) && GapFree(store, start, end)
    ensures Fed(Replayed(store, settlements, start, end, lookback)) == Query(store, start - lookback, end - MINUTE)
  {
    hide Ascending, OnMinutes, GapFree, Query, Rounds, Last, IsIndexFrom, Replayed, Project;
    var p, from := IndexFrom(store, start), start - lookback;
    GapFreeFrame(store, start, end);
    ReplayedFrom(store, settlements, start, end, lookback);
    var last, rounds := Last(store, p, end), Rounds(store, p, settlements, start + DAY - 1, end);
    var load := Query(store, from, start);
    FeedsEachCandleOnce(store, p, settlements, start + DAY - 1, end);
    ProjectOpening(Load(load), start, rounds, CandlesOf);
    QueryThrough(store, from, p);
    assert store[last].time == end - MINUTE;
    QueryThrough(store, from, last);
    SlicesJoin(store, IndexFrom(store, from), p + 1, last + 1);
  }

  lemma SlicesJoin<T>(s: seq<T>, a: nat, b: nat, c: nat)
    requires a <= b <= c <= |s|
    ensures s[a..b] + s[b..c] == s[a..c]
  {
  }

  /** A query up to a stored candle ends with it. */
  lemma QueryThrough(store: seq<Candle>, from: int, pos: nat)
    requires Ascending(store) && pos < |store| && from <= store[pos].time
    ensures IndexFrom(store, from) <= pos
    ensures Query(store, from, store[pos].time) == store[IndexFrom(store, from)..pos + 1]
  {
    hide Query, IsIndexFrom;
    QueryIsSlice(store, from, store[pos].time);
    IndexSplits(store, from, pos);
    AscendsAt(store, pos);
    IndexIs(store, store[pos].time + 1, pos + 1);
  }

  lemma SettlesAllInTime(store: seq<Candle>, settlements: seq<Settlement>, start: int, end: int, lookback: nat)
    requires Ascending(store) && OnMinutes(store) && GapFree(store, start, end) && InOrder(settlements)
    ensures Settled(Replayed(store, settlements, start, end, lookback)) == settlements[..DueCount(settlements, end - 1)]
    ensures Placed(Replayed(store, settlements, start, end, lookback))
  {
    hide Ascending, OnMinutes, GapFree, Query, Rounds, Last, IsIndexFrom, Replayed, InOrder, Project,
         Placed, DueCount, AreDue;
    var p := IndexFrom(store, start);
    GapFreeFrame(store, start, end);
    ReplayedFrom(store, settlements, start, end, lookback);
    var rounds := Rounds(store, p, settlements, start + DAY - 1, end);
    var load := Load(Query(store, start - lookback, start));
    SettlesEachOnce(store, p, settlements, start + DAY - 1, end);
    SettlesBeforeCoveringCandle(store, p, settlements, start + DAY - 1, end);
    ProjectOpening(load, start, rounds, SettlementsOf);
    PlacedAfter([load, Report(start)], rounds);
  }

  lemma PlacedAfter(opening: seq<Event>, log: seq<Event>)
    requires Placed(log) && forall e <- opening :: !e.Settle? && !e.Feed?
    ensures Placed(opening + log)
  {
    var whole, n := opening + log, |opening|;
    forall i, j | 0 <= i < |whole| && 0 <= j < |whole| && whole[i].Settle? && whole[j].Feed?
      ensures j < i ==> whole[j].candle.time + 59 < whole[i].settlement.time
      ensures i < j ==> whole[i].settlement.time <= whole[j].candle.time + 59
    {
      assert n <= i && n <= j;
      assert whole[i] == log[i - n] && whole[j] == log[j - n];
    }
  }

  /** Loading and the first report go before everything else. */
  lemma InTimeFromStart(load: Event, rounds: seq<Event>, start: int)
    requires load.Load?
    ensures InTime([load, Report(start)] + rounds, start) <==> InTime(rounds, start)
  {
    assert [load, Report(start)] + rounds == [load] + ([Report(start)] + rounds);
    InTimeFirst(load, [Report(start)] + rounds, start);
    InTimeFirst(Report(start), rounds, start);
  }

  /** The end of the first day whose last minute must be stored, given the first candle. */
  function FirstDayEnd(start: int, first: int): int {
    if first < start + DAY then start + DAY - 1 else start + 2 * DAY - 1
  }

  /** A first candle after the first day makes the first report late, and one exactly at its end does not. */
  lemma FirstReportInTimeIff(store: seq<Candle>, pos: nat, queue: seq<Settlement>, next: int, end: int)
    requires Ascending(store) && OnMinutes(store) && pos < |store| && next % MINUTE == 59
    requires next < store[pos].time
    ensures InTime(Rounds(store, pos, queue, next, end), store[pos].time)
       <==> store[pos].time == next + 1 && DayEndsStored(store, pos, next + DAY, end)
  {
    hide Ascending, OnMinutes, IsDayEnd, DayEndsStored, HasCursor, InTime, DueCount, Rounds, Last;
    var time, cursor := store[pos].time, Cursor(store, pos);
    LastRound(store, pos, queue, next, end);
    if Last(store, pos, end) == pos {
      assert Head(cursor, next) + [] == Head(cursor, next);
      InTimeHead(cursor, next, [], time);
      NothingInTime(next + 1);
      NoDayEnd(store, pos, next + DAY, end);
    } else {
      InTimeRound(store, pos, queue, next, end, time);
      CursorAscends(store, pos);
      CursorAligned(store, pos, next);
      if time == next + 1 {
        DayEndsMoveOn(store, pos, next + DAY, end);
        CursorAligned(store, pos + 1, next + DAY);
        var due := DueCount(queue, Cursor(store, pos + 1));
        ReportsInTimeIff(store, pos + 1, queue[due..], next + DAY, end, Cursor(store, pos + 1));
      }
    }
  }

  lemma NothingInTime(time: int)
    ensures InTime([], time)
  {
  }

  lemma NoDayEnd(store: seq<Candle>, pos: nat, next: int, end: int)
    requires pos < |store| && Last(store, pos, end) == pos
    ensures Cursor(store, pos) < next ==> DayEndsStored(store, pos, next, end)
  {
  }

  /**
   A backtest never asks the executor to go back in time if and only if its first candle is no later
   than the end of the first day and the last minute of each later day it passes is stored: one missing
   candle before midnight makes the daily report fail.
   */
  lemma DailyReportsInTimeIff(store: seq<Candle>, settlements: seq<Settlement>, start: int, end: int, lookback: nat)
    requires Ascending(store) && OnMinutes(store) && start % MINUTE == 0
    requires IndexFrom(store, start) < |store|
    ensures var p := IndexFrom(store, start);
      InTime(Replayed(store, settlements, start, end, lookback), store[p].time)
      <==> store[p].time <= start + DAY && DayEndsStored(store, p, FirstDayEnd(start, store[p].time), end)
  {
    hide Ascending, OnMinutes, Query, Rounds, Last, IsIndexFrom, Replayed, DayEndsStored, InTime, IsDayEnd;
    var p, next := IndexFrom(store, start), start + DAY - 1;
    ReplayedFrom(store, settlements, start, end, lookback);
    InTimeFromStart(Load(Query(store, start - lookback, store[p].time)), Rounds(store, p, settlements, next, end),
                    store[p].time);
    if store[p].time < start + DAY {
      CursorAligned(store, p, next);
      ReportsInTimeIff(store, p, settlements, next, end, store[p].time);
    } else {
      FirstReportInTimeIff(store, p, settlements, next, end);
    }
  }

  lemma ReportsEveryDay(store: seq<Candle>, settlements: seq<Settlement>, start: int, end: int, lookback: nat)
    requires Ascending(store) && OnMinutes(store) && GapFree(store, start, end)
    ensures Reports(Replayed(store, settlements, start, end, lookback)) == Days(start, end)
    ensures InTime(Replayed(store, settlements, start, end, lookback), start)
  {
    hide Ascending, OnMinutes, GapFree, Query, Rounds, Last, IsIndexFrom, Replayed, DayEndsStored, InTime, Project;
    var p, next := IndexFrom(store, start), start + DAY - 1;
    GapFreeFrame(store, start, end);
    GapFreeDayEnds(store, start, end);
    ReplayedFrom(store, settlements, start, end, lookback);
    DailyReportsInTimeIff(store, settlements, start, end, lookback);
    var rounds := Rounds(store, p, settlements, next, end);
    var load := Load(Query(store, start - lookback, start));
    ReportsAreDays(store, p, settlements, next, end);
    ProjectOpening(load, start, rounds, ReportsOf);
    DaysFrom(start, end);
  }

  lemma DaysFrom(start: int, end: int)
    requires start <= end
    ensures Days(start, end) == [start] + Days(start + DAY, end)
  {
  }

  /**
   On gap-free minutes, the replay loads and feeds every candle from the lookback to the end once and
   in order, applies every settlement up to the end once and before the candle covering it, reports
   the start of every day and no other time, and never asks the executor to go back in time.
   */
  lemma ReplayOfGapFreeMinutes(store: seq<Candle>, settlements: seq<Settlement>, start: int, end: int, lookback: nat,
                               t: int)
    requires Ascending(store) && OnMinutes(store) && GapFree(store, start, end) && InOrder(settlements)
    ensures var log := Replayed(store, settlements, start, end, lookback);
      && Fed(log) == Query(store, start - lookback, end - MINUTE)
      && Settled(log) == settlements[..DueCount(settlements, end - 1)]
      && Placed(log)
      && (t in Reports(log) <==> start <= t <= end && (t - start) % DAY == 0)
      && (forall i, j :: 0 <= i < j < |Reports(log)| ==> Reports(log)[i] < Reports(log)[j])
      && InTime(log, start)
  {
    hide *;
    LoadsAndFeedsAll(store, settlements, start, end, lookback);
    SettlesAllInTime(store, settlements, start, end, lookback);
    ReportsEveryDay(store, settlements, start, end, lookback);
    DaysExact(start, end, t);
  }
}
