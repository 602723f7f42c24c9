/** How often the evaluators of a backtest run over the cursors of its replay. */
module OperatorRuns {
  import opened Basics
  import opened Market
  import opened Lookbacks
  import Scheduler

  // ----- One evaluator over any cursors

  /** The last run of an evaluator after some cursors; it counts from the start. */
  function LastRun(interval: int, start: int, cursors: seq<int>): int {
    if cursors == [] then start else
      var last, now := LastRun(interval, start, cursors[..|cursors| - 1]), cursors[|cursors| - 1];
      if now >= last + interval then now else last
  }

  predicate RunsAt(interval: int, start: int, cursors: seq<int>, m: nat)
    requires m < |cursors|
  {
    cursors[m] >= LastRun(interval, start, cursors[..m]) + interval
  }

  lemma LastRunNext(interval: int, start: int, cursors: seq<int>, m: nat)
    requires m < |cursors|
    ensures LastRun(interval, start, cursors[..m + 1])
         == if RunsAt(interval, start, cursors, m) then cursors[m] else LastRun(interval, start, cursors[..m])
  {
    assert cursors[..m + 1][..m] == cursors[..m];
  }

  ghost predicate Ascend(start: int, cursors: seq<int>) {
    && (cursors != [] ==> start <= cursors[0])
    && forall m :: 0 < m < |cursors| ==> cursors[m - 1] < cursors[m]
  }

  /** The cursor before `m`, or the start. */
  function Previous(start: int, cursors: seq<int>, m: nat): int
    requires m <= |cursors|
  {
    if m == 0 then start else cursors[m - 1]
  }

  /**
   Over ascending cursors, with gaps or not, an evaluator runs at the first cursor that is an interval
   after its last run: never sooner, and it is never left overdue.
   */
  lemma {:induction false} NeverOverdue(interval: int, start: int, cursors: seq<int>, m: nat)
    requires interval > 0 && Ascend(start, cursors) && m <= |cursors|
    ensures var last := LastRun(interval, start, cursors[..m]);
      last <= Previous(start, cursors, m) < last + interval
  {
    hide LastRun;
    if m == 0 {
      NoRun(interval, start);
      assert cursors[..0] == [];
    } else {
      NeverOverdue(interval, start, cursors, m - 1);
      LastRunNext(interval, start, cursors, m - 1);
    }
  }

  lemma NoRun(interval: int, start: int)
    ensures LastRun(interval, start, []) == start
  {
  }

  // ----- The cursors of gap-free minutes

  /** The ends of consecutive minutes from the start on. */
  ghost predicate MinuteEnds(start: int, cursors: seq<int>) {
    forall m :: 0 <= m < |cursors| ==> cursors[m] == start + MINUTE * m + 59
  }

  /** The number of the first minute an evaluator runs at the end of. */
  function FirstMinute(interval: int): int {
    interval / MINUTE
  }

  /** The minutes from one run to the next: the interval in minutes, rounded up. */
  function Every(interval: int): int {
    Scheduler.Rounds(interval, MINUTE)
  }

  lemma EveryIsPositive(interval: int)
    requires interval > 0
    ensures Every(interval) >= 1
  {
    Scheduler.RoundsIsCeiling(interval, MINUTE, 0);
  }

  lemma {:induction false} LastMinuteRun(interval: int, start: int, cursors: seq<int>, n: nat)
    requires interval > 0 && MinuteEnds(start, cursors) && n <= |cursors|
    ensures Every(interval) >= 1
    ensures var first, every := FirstMinute(interval), Every(interval);
      LastRun(interval, start, cursors[..n])
      == if n <= first then start else start + 59 + MINUTE * (first + Scheduler.Multiple(n - 1 - first, every))
  {
    hide LastRun, Scheduler.Multiple, Every;
    EveryIsPositive(interval);
    if n == 0 {
      NoRun(interval, start);
      assert cursors[..0] == [];
    } else {
      LastMinuteRun(interval, start, cursors, n - 1);
      LastRunNext(interval, start, cursors, n - 1);
      MinuteStep(interval, start, n - 1);
    }
  }

  /** What the end of minute `m` does to an evaluator that last ran when it should. */
  lemma MinuteStep(interval: int, start: int, m: nat)
    requires interval > 0 && Every(interval) >= 1
    ensures var first, every, now := FirstMinute(interval), Every(interval), start + MINUTE * m + 59;
      if m < first then now < start + interval
      else if m == first then now >= start + interval && Scheduler.Multiple(0, every) == 0
      else
        var last := start + 59 + MINUTE * (first + Scheduler.Multiple(m - 1 - first, every));
        && (now >= last + interval <==> Scheduler.Multiple(m - first, every) == m - first)
        && (now < last + interval
            ==> Scheduler.Multiple(m - first, every) == Scheduler.Multiple(m - 1 - first, every))
  {
    hide Scheduler.Multiple, Scheduler.Rounds;
    var first, every := FirstMinute(interval), Every(interval);
    DivSplit(interval, MINUTE);
    Scheduler.NoMultiple(every);
    if m > first {
      Scheduler.MultipleStep(m - 1 - first, every);
      Scheduler.RoundsIsCeiling(interval, MINUTE, m - first - Scheduler.Multiple(m - 1 - first, every));
    }
  }

  /**
   In a backtest over gap-free minutes an evaluator runs at the end of exactly every k-th minute, k being
   its interval in minutes, rounded up; the first time at the first minute that ends an interval after
   the start.
   */
  lemma RunsEveryKthMinute(interval: int, start: int, cursors: seq<int>, m: nat)
    requires interval > 0 && MinuteEnds(start, cursors) && m < |cursors|
    ensures Every(interval) >= 1
    ensures RunsAt(interval, start, cursors, m)
       <==> m >= FirstMinute(interval) && (m - FirstMinute(interval)) % Every(interval) == 0
  {
    hide LastRun, Scheduler.Multiple, Every;
    LastMinuteRun(interval, start, cursors, m);
    MinuteStep(interval, start, m);
    if m > FirstMinute(interval) {
      MultipleIff(m - FirstMinute(interval), Every(interval));
    } else if m == FirstMinute(interval) {
      MultipleIff(0, Every(interval));
    }
  }

  lemma MultipleIff(n: nat, c: int)
    requires c > 0
    ensures Scheduler.Multiple(n, c) == n <==> n % c == 0
    ensures Scheduler.Multiple(0, c) == 0
  {
    DivSplit(n, c);
    Scheduler.NoMultiple(c);
  }

  // ----- The operator

  ghost predicate Called(calls: seq<Call>, i: nat) {
    exists call <- calls :: call.evaluator == i
  }

  lemma {:induction false} CallsDue(evaluators: seq<Evaluator>, lastEval: seq<int>, cursor: int,
                                    buffers: map<int, seq<Candle>>, n: nat, i: nat)
    requires n <= |evaluators| == |lastEval|
    requires forall e <- evaluators :: e.lookback.Some? ==> e.lookback.value.seconds in buffers
    ensures Called(Calls(evaluators, lastEval, cursor, buffers, n), i)
       <==> i < n && Due(evaluators[i], lastEval[i], cursor)
  {
    hide Slice;
    if n > 0 {
      CallsDue(evaluators, lastEval, cursor, buffers, n - 1, i);
    }
  }

  ghost predicate Serves(buffers: map<int, seq<Candle>>, evaluators: seq<Evaluator>) {
    forall e <- evaluators :: e.lookback.Some? ==> e.lookback.value.seconds in buffers
  }

  /** The last rows of a buffer: as many as the period, or all there are. */
  predicate IsTail(candles: seq<Candle>, buffer: seq<Candle>, period: nat) {
    |candles| == Min(|buffer|, period) && candles == buffer[|buffer| - |candles|..]
  }

  /** What an evaluator is shown: nothing without a lookback, else the tail of the buffer of its resolution. */
  ghost predicate Shown(call: Call, evaluators: seq<Evaluator>, buffers: map<int, seq<Candle>>) {
    && call.evaluator < |evaluators|
    && match evaluators[call.evaluator].lookback
       case None => call.candles == []
       case Some(l) => l.seconds in buffers && IsTail(call.candles, buffers[l.seconds], l.period)
  }

  /** The evaluators are called in order, each with what it is to be shown. */
  ghost predicate InOrderShown(calls: seq<Call>, evaluators: seq<Evaluator>, buffers: map<int, seq<Candle>>) {
    && (forall j, k :: 0 <= j < k < |calls| ==> calls[j].evaluator < calls[k].evaluator)
    && (forall j :: 0 <= j < |calls| ==> Shown(calls[j], evaluators, buffers))
  }

  lemma SliceIsTail(buffer: seq<Candle>, period: nat)
    ensures IsTail(Slice(buffer, period), buffer, period)
  {
  }

  ghost predicate AllBelow(calls: seq<Call>, n: nat) {
    forall j :: 0 <= j < |calls| ==> calls[j].evaluator < n
  }

  lemma OneMoreShown(calls: seq<Call>, call: Call, evaluators: seq<Evaluator>, buffers: map<int, seq<Candle>>)
    requires InOrderShown(calls, evaluators, buffers) && AllBelow(calls, call.evaluator)
    requires Shown(call, evaluators, buffers)
    ensures InOrderShown(calls + [call], evaluators, buffers) && AllBelow(calls + [call], call.evaluator + 1)
  {
    hide Shown;
  }

  lemma {:induction false} CallsShow(evaluators: seq<Evaluator>, lastEval: seq<int>, cursor: int,
                                     buffers: map<int, seq<Candle>>, n: nat)
    requires n <= |evaluators| == |lastEval|
    requires forall e <- evaluators :: e.lookback.Some? ==> e.lookback.value.seconds in buffers
    ensures InOrderShown(Calls(evaluators, lastEval, cursor, buffers, n), evaluators, buffers)
    ensures AllBelow(Calls(evaluators, lastEval, cursor, buffers, n), n)
  {
    hide Slice, IsTail, InOrderShown, Due;
    if n == 0 {
      NothingShown(evaluators, buffers);
    } else {
      CallsShow(evaluators, lastEval, cursor, buffers, n - 1);
      var e, calls := evaluators[n - 1], Calls(evaluators, lastEval, cursor, buffers, n - 1);
      if Due(e, lastEval[n - 1], cursor) {
        if e.lookback.Some? {
          SliceIsTail(buffers[e.lookback.value.seconds], e.lookback.value.period);
        }
        OneMoreShown(calls, Calls(evaluators, lastEval, cursor, buffers, n)[|calls|], evaluators, buffers);
      } else {
        assert calls + [] == calls;
      }
    }
  }

  lemma NothingShown(evaluators: seq<Evaluator>, buffers: map<int, seq<Candle>>)
    ensures InOrderShown([], evaluators, buffers)
  {
  }

  /** Each evaluator is called at exactly the cursors at which it runs. */
  ghost predicate CalledWhenDue(calls: seq<seq<Call>>, evaluators: seq<Evaluator>, start: int, cursors: seq<int>)
    requires |calls| <= |cursors|
  {
    forall m, i :: 0 <= m < |calls| && 0 <= i < |evaluators| ==>
      (Called(calls[m], i) <==> RunsAt(evaluators[i].interval, start, cursors, m))
  }

  /** The operator over the cursors of a run, each with the buffers of that moment. */
  method Drive(evaluators: seq<Evaluator>, start: int, cursors: seq<int>, buffers: seq<map<int, seq<Candle>>>)
    returns (calls: seq<seq<Call>>)
    requires |buffers| == |cursors| && forall b <- buffers :: Serves(b, evaluators)
    ensures |calls| == |cursors| && CalledWhenDue(calls, evaluators, start, cursors)
    ensures forall m :: 0 <= m < |calls| ==> InOrderShown(calls[m], evaluators, buffers[m])
  {
    hide LastRun, Called, CalledWhenDue, Slice, InOrderShown;
    var operator := new SignalOperator(evaluators, start);
    calls := [];
    var m := 0;
    NothingCalled(evaluators, start, cursors);
    assert cursors[..0] == [];
    while m < |cursors|
      invariant 0 <= m <= |cursors| && |calls| == m
      invariant operator.evaluators == evaluators && |operator.lastEval| == |evaluators| && fresh(operator)
      invariant forall i :: 0 <= i < |evaluators| ==>
        operator.lastEval[i] == LastRun(evaluators[i].interval, start, cursors[..m])
      invariant CalledWhenDue(calls, evaluators, start, cursors)
      invariant forall k :: 0 <= k < m ==> InOrderShown(calls[k], evaluators, buffers[k])
    {
      ghost var lastEval := operator.lastEval;
      assert buffers[m] in buffers;
      var next := operator.Iterate(cursors[m], buffers[m]);
      forall i: nat | i < |evaluators|
        ensures Called(next, i) <==> RunsAt(evaluators[i].interval, start, cursors, m)
        ensures operator.lastEval[i] == LastRun(evaluators[i].interval, start, cursors[..m + 1])
      {
        CallsDue(evaluators, lastEval, cursors[m], buffers[m], |evaluators|, i);
        LastRunNext(evaluators[i].interval, start, cursors, m);
      }
      CalledNext(calls, next, evaluators, start, cursors);
      CallsShow(evaluators, lastEval, cursors[m], buffers[m], |evaluators|);
      calls := calls + [next];
      m := m + 1;
    }
  }

  lemma NothingCalled(evaluators: seq<Evaluator>, start: int, cursors: seq<int>)
    ensures CalledWhenDue([], evaluators, start, cursors)
    ensures forall i :: 0 <= i < |evaluators| ==> LastRun(evaluators[i].interval, start, []) == start
  {
  }

  lemma CalledNext(calls: seq<seq<Call>>, next: seq<Call>, evaluators: seq<Evaluator>, start: int, cursors: seq<int>)
    requires |calls| < |cursors| && CalledWhenDue(calls, evaluators, start, cursors)
    requires forall i :: 0 <= i < |evaluators| ==>
      (Called(next, i) <==> RunsAt(evaluators[i].interval, start, cursors, |calls|))
    ensures CalledWhenDue(calls + [next], evaluators, start, cursors)
  {
    hide Called, RunsAt;
    var whole := calls + [next];
    forall m, i | 0 <= m < |whole| && 0 <= i < |evaluators|
      ensures Called(whole[m], i) <==> RunsAt(evaluators[i].interval, start, cursors, m)
    {
      assert whole[m] == if m < |calls| then calls[m] else next;
    }
  }
}
