/**
 The live evaluation schedule: when the loop wakes, which evaluators run, and when it plans to wake
 again. Times are in ticks of the clock.
 */
module Scheduler {
  import opened Basics
  import opened Market

  ghost predicate Intervals(intervals: seq<int>) {
    intervals != [] && forall i :: 0 <= i < |intervals| ==> intervals[i] > 0
  }

  function Shortest(intervals: seq<int>): (m: int)
    requires intervals != []
    ensures m in intervals
    ensures forall i :: 0 <= i < |intervals| ==> m <= intervals[i]
  {
    var last := intervals[|intervals| - 1];
    if |intervals| == 1 then last else
      var front := intervals[..|intervals| - 1];
      Min(Shortest(front), last)
  }

  lemma ShortestOfFirst(intervals: seq<int>)
    requires intervals != []
    ensures Shortest(intervals[..1]) == intervals[0]
  {
  }

  lemma ShortestOfNext(intervals: seq<int>, i: nat)
    requires 0 < i < |intervals|
    ensures Shortest(intervals[..i + 1]) == Min(Shortest(intervals[..i]), intervals[i])
  {
    assert intervals[..i + 1][..i] == intervals[..i];
  }

  // ----- One wake

  predicate Due(interval: int, lastEval: int, now: int) {
    now >= lastEval + interval
  }

  /** The last runs after a wake: an evaluator runs when its interval has passed. */
  function Evaluated(intervals: seq<int>, lastEval: seq<int>, now: int): (r: seq<int>)
    requires |intervals| == |lastEval|
    ensures |r| == |intervals|
    ensures forall i :: 0 <= i < |r| ==> r[i] == if Due(intervals[i], lastEval[i], now) then now else lastEval[i]
  {
    seq(|intervals|, i requires 0 <= i < |intervals| => if Due(intervals[i], lastEval[i],
             now) then now else lastEval[i])
  }

  /** The earliest next run among the evaluators that ran; `None` stands for the end of time. */
  function NextEval(intervals: seq<int>, lastEval: seq<int>, now: int, n: nat): Option<int>
    requires n <= |intervals| == |lastEval|
  {
    if n == 0 then None else
      var earlier := NextEval(intervals, lastEval, now, n - 1);
      if Due(intervals[n - 1], lastEval[n - 1], now) && (earlier.None? || now + intervals[n - 1] < earlier.value) then
        Some(now + intervals[n - 1])
      else earlier
  }

  class LiveSignalSchedule {
    const intervals: seq<int>
    var lastEval: seq<int>
    var nextEval: Option<int>

    ghost predicate Valid()
      reads this
    {
      Intervals(intervals) && |lastEval| == |intervals|
    }

    constructor (intervals: seq<int>, now: int)
      requires Intervals(intervals)
      ensures Valid() && this.intervals == intervals
      ensures lastEval == LastEvals(intervals, now, []) && nextEval == Planned(intervals, now, [])
    {
      hide Shortest, Evaluated;
      ShortestOfFirst(intervals);
      var shortest := intervals[0];
      var last: seq<int> := [];
      var i := 0;
      while i < |intervals|
        invariant 0 <= i <= |intervals| && |last| == i
        invariant forall j :: 0 <= j < i ==> last[j] == now
        invariant shortest == Shortest(intervals[..Max(i, 1)])
      {
        if i > 0 {
          ShortestOfNext(intervals, i);
        }
        shortest := Min(shortest, intervals[i]);
        last := last + [now];
        i := i + 1;
      }
      assert intervals[..|intervals|] == intervals;
      this.intervals, lastEval, nextEval := intervals, last, Some(now + shortest);
    }

    /** Runs what is due and plans the next wake. */
    method Wake(now: int) returns (ran: seq<nat>)
      requires Valid()
      modifies this
      ensures Valid()
      ensures lastEval == Evaluated(intervals, old(lastEval), now)
      ensures nextEval == NextEval(intervals, old(lastEval), now, |intervals|)
      ensures forall i :: i in ran <==> (0 <= i < |intervals| && Due(intervals[i], old(lastEval)[i], now))
    {
      nextEval := None;
      ran := [];
      var i := 0;
      while i < |intervals|
        invariant 0 <= i <= |intervals| && |lastEval| == |intervals|
        invariant forall j :: 0 <= j < |intervals| ==>
          lastEval[j] == if j < i && Due(intervals[j], old(lastEval)[j], now) then now else old(lastEval)[j]
        invariant nextEval == NextEval(intervals, old(lastEval), now, i)
        invariant forall j :: j in ran <==> (0 <= j < i && Due(intervals[j], old(lastEval)[j], now))
      {
        var interval := intervals[i];
        if !(now < lastEval[i] + interval) {
          lastEval := lastEval[i := now];
          if nextEval.None? || now + interval < nextEval.value {
            nextEval := Some(now + interval);
          }
          ran := ran + [i];
        }
        i := i + 1;
      }
    }
  }

  // ----- Whole runs

  /** The last runs after the given wakes. */
  function LastEvals(intervals: seq<int>, start: int, wakes: seq<int>): (r: seq<int>)
    ensures |r| == |intervals|
  {
    if wakes == [] then seq(|intervals|, _ => start)
    else Evaluated(intervals, LastEvals(intervals, start, wakes[..|wakes| - 1]), wakes[|wakes| - 1])
  }

  /** The wake planned after the given ones. */
  function Planned(intervals: seq<int>, start: int, wakes: seq<int>): Option<int>
    requires intervals != []
  {
    if wakes == [] then Some(start + Shortest(intervals))
    else NextEval(intervals, LastEvals(intervals, start, wakes[..|wakes| - 1]), wakes[|wakes| - 1], |intervals|)
  }

  /** Every wake comes when it was planned, or at most a delay later. */
  ghost predicate WakesAsPlanned(intervals: seq<int>, start: int, wakes: seq<int>, delay: nat)
    requires intervals != []
  {
    wakes == [] ||
    (&& WakesAsPlanned(intervals, start, wakes[..|wakes| - 1], delay)
     && var planned := Planned(intervals, start, wakes[..|wakes| - 1]);
       planned.Some? && planned.value <= wakes[|wakes| - 1] <= planned.value + delay)
  }

  function LastWake(start: int, wakes: seq<int>): int {
    if wakes == [] then start else wakes[|wakes| - 1]
  }

  lemma {:induction false} NextEvalIsLeast(intervals: seq<int>, lastEval: seq<int>, now: int, n: nat)
    requires n <= |intervals| == |lastEval|
    ensures var next := NextEval(intervals, lastEval, now, n);
      && (next.None? <==> forall i :: 0 <= i < n ==> !Due(intervals[i], lastEval[i], now))
      && (next.Some? ==> exists i :: 0 <= i < n && Due(intervals[i], lastEval[i], now) && next.value == now + intervals[i])
      && (next.Some? ==> forall i :: 0 <= i < n && Due(intervals[i], lastEval[i], now) ==> next.value <= now + intervals[i])
  {
    if n > 0 {
      NextEvalIsLeast(intervals, lastEval, now, n - 1);
    }
  }

  /** When an evaluator of the shortest interval is due, the next wake is one such interval away. */
  lemma NextIsShortest(intervals: seq<int>, lastEval: seq<int>, now: int, i: nat)
    requires i < |intervals| == |lastEval| && intervals[i] == Shortest(intervals) && Due(intervals[i], lastEval[i], now)
    ensures NextEval(intervals, lastEval, now, |intervals|) == Some(now + Shortest(intervals))
  {
    hide NextEval, Shortest, Due;
    NextEvalIsLeast(intervals, lastEval, now, |intervals|);
  }

  /**
   At every wake the evaluators of the shortest interval run, so the plan is never empty: the next
   wake is one shortest interval after the last one.
   */
  lemma {:induction false} EveryWakeRuns(intervals: seq<int>, start: int, wakes: seq<int>, delay: nat, i: nat)
    requires Intervals(intervals) && WakesAsPlanned(intervals, start, wakes, delay)
    requires i < |intervals| && intervals[i] == Shortest(intervals)
    ensures LastEvals(intervals, start, wakes)[i] == LastWake(start, wakes)
    ensures Planned(intervals, start, wakes) == Some(LastWake(start, wakes) + Shortest(intervals))
    decreases |wakes|
  {
    hide NextEval, Shortest, Evaluated;
    if wakes != [] {
      var front, now := wakes[..|wakes| - 1], wakes[|wakes| - 1];
      EveryWakeRuns(intervals, start, front, delay, i);
      var lastEval := LastEvals(intervals, start, front);
      assert Due(intervals[i], lastEval[i], now);
      NextIsShortest(intervals, lastEval, now, i);
    }
  }

  lemma ShortestOccurs(intervals: seq<int>) returns (i: nat)
    requires intervals != []
    ensures i < |intervals| && intervals[i] == Shortest(intervals)
  {
    i :| 0 <= i < |intervals| && intervals[i] == Shortest(intervals);
  }

  /** The times an evaluator ran at. */
  function Runs(intervals: seq<int>, start: int, wakes: seq<int>, i: nat): seq<int>
    requires i < |intervals|
  {
    if wakes == [] then [] else
      var front, now := wakes[..|wakes| - 1], wakes[|wakes| - 1];
      Runs(intervals, start, front, i)
      + if Due(intervals[i], LastEvals(intervals, start, front)[i], now) then [now] else []
  }

  /** One wake of a run: when it comes, and what it does to one evaluator. */
  lemma WakeStep(intervals: seq<int>, start: int, wakes: seq<int>, delay: nat, i: nat)
    requires Intervals(intervals) && WakesAsPlanned(intervals, start, wakes, delay) && i < |intervals|
    requires wakes != []
    ensures var front, now, m := wakes[..|wakes| - 1], wakes[|wakes| - 1], Shortest(intervals);
      var lastEval := LastEvals(intervals, start, front)[i];
      && WakesAsPlanned(intervals, start, front, delay)
      && LastWake(start, front) + m <= now <= LastWake(start, front) + m + delay
      && LastEvals(intervals, start, wakes)[i] == (if Due(intervals[i], lastEval, now) then now else lastEval)
      && Runs(intervals, start, wakes, i)
         == if Due(intervals[i], lastEval, now) then Runs(intervals, start, front, i) + [now]
            else Runs(intervals, start, front, i)
  {
    var front := wakes[..|wakes| - 1];
    var s := ShortestOccurs(intervals);
    EveryWakeRuns(intervals, start, front, delay, s);
  }

  lemma NoWakes(intervals: seq<int>, start: int, delay: nat, i: nat)
    requires Intervals(intervals) && i < |intervals|
    ensures LastEvals(intervals, start, [])[i] == start && Runs(intervals, start, [], i) == []
    ensures Spaced([], start, intervals[i], intervals[i] + Shortest(intervals) + delay)
  {
  }

  function PreviousRun(runs: seq<int>, start: int, j: nat): int
    requires j <= |runs|
  {
    if j == 0 then start else runs[j - 1]
  }

  /** Consecutive runs, counted from the start, are at least an interval and less than a bound apart. */
  ghost predicate Spaced(runs: seq<int>, start: int, interval: int, bound: int) {
    forall j :: 0 <= j < |runs| ==> interval <= runs[j] - PreviousRun(runs, start, j) < bound
  }

  lemma SpacedAppend(runs: seq<int>, start: int, interval: int, bound: int, run: int)
    requires Spaced(runs, start, interval, bound)
    requires interval <= run - LastWake(start, runs) < bound
    ensures Spaced(runs + [run], start, interval, bound)
  {
    forall j | 0 <= j < |runs| + 1
      ensures interval <= (runs + [run])[j] - PreviousRun(runs + [run], start, j) < bound
    {
      assert PreviousRun(runs + [run], start, j) == PreviousRun(runs, start, j);
    }
  }

  /**
   An evaluator never runs sooner than its interval after its last run, and never later than one
   shortest interval and the delay of a wake beyond that; nor is it ever left overdue.
   */
  lemma {:induction false} SpacingAndLateness(intervals: seq<int>, start: int, wakes: seq<int>, delay: nat, i: nat)
    requires Intervals(intervals) && WakesAsPlanned(intervals, start, wakes, delay) && i < |intervals|
    ensures var runs := Runs(intervals, start, wakes, i);
      && Spaced(runs, start, intervals[i], intervals[i] + Shortest(intervals) + delay)
      && LastEvals(intervals, start, wakes)[i] == LastWake(start, runs)
      && LastWake(start, runs) <= LastWake(start, wakes) < LastWake(start, runs) + intervals[i]
    decreases |wakes|
  {
    hide Spaced, WakesAsPlanned, LastEvals, Runs, Evaluated, Shortest;
    if wakes == [] {
      NoWakes(intervals, start, delay, i);
    } else {
      var front, now := wakes[..|wakes| - 1], wakes[|wakes| - 1];
      WakeStep(intervals, start, wakes, delay, i);
      SpacingAndLateness(intervals, start, front, delay, i);
      if Due(intervals[i], LastEvals(intervals, start, front)[i], now) {
        SpacedAppend(Runs(intervals, start, front, i), start, intervals[i],
                     intervals[i] + Shortest(intervals) + delay, now);
      }
    }
  }

  // ----- On-time wakes

  /** How many shortest intervals fit an interval, rounded up. */
  function Rounds(interval: int, shortest: int): int
    requires shortest > 0
  {
    (interval + shortest - 1) / shortest
  }

  lemma RoundsIsCeiling(interval: int, shortest: int, j: int)
    requires shortest > 0
    ensures j * shortest >= interval <==> j >= Rounds(interval, shortest)
  {
    var r := Rounds(interval, shortest);
    DivSplit(interval + shortest - 1, shortest);
    if j >= r {
      MulMonotone(r, j, shortest);
    } else {
      MulMonotone(j, r - 1, shortest);
    }
    assert (r - 1) * shortest == r * shortest - shortest;
  }

  /** With every wake on time, the n-th comes n shortest intervals after the start. */
  lemma {:induction false} OnTimeWake(intervals: seq<int>, start: int, wakes: seq<int>)
    requires Intervals(intervals) && WakesAsPlanned(intervals, start, wakes, 0)
    ensures LastWake(start, wakes) == start + |wakes| * Shortest(intervals)
    decreases |wakes|
  {
    hide WakesAsPlanned, LastEvals, Runs, Shortest, Evaluated;
    if wakes != [] {
      var front := wakes[..|wakes| - 1];
      WakeStep(intervals, start, wakes, 0, 0);
      OnTimeWake(intervals, start, front);
      assert |wakes| * Shortest(intervals) == |front| * Shortest(intervals) + Shortest(intervals);
    }
  }

  /** The largest multiple of `c` up to `n`. */
  function Multiple(n: nat, c: int): int
    requires c > 0
  {
    n / c * c
  }

  lemma MultipleStep(n: nat, c: int)
    requires c > 0
    ensures 0 <= n - Multiple(n, c) < c
    ensures Multiple(n + 1, c) == if n + 1 - Multiple(n, c) == c then n + 1 else Multiple(n, c)
  {
    DivSplit(n, c);
    var q := n / c;
    var next := if n + 1 == q * c + c then q + 1 else q;
    assert (q + 1) * c == q * c + c;
    assert next * c <= n + 1 < next * c + c;
    QuotientIs(n + 1, c, next);
  }

  /**
   With every wake on time, an evaluator runs at exactly every k-th wake, where k is its interval in
   shortest intervals, rounded up: its interval is kept to the tick if and only if the shortest divides it.
   */
  lemma {:induction false} OnTimeRuns(intervals: seq<int>, start: int, wakes: seq<int>, i: nat)
    requires Intervals(intervals) && WakesAsPlanned(intervals, start, wakes, 0) && i < |intervals|
    ensures var m := Shortest(intervals);
      var c := Rounds(intervals[i], m);
      && c >= 1
      && LastEvals(intervals, start, wakes)[i] == start + Multiple(|wakes|, c) * m
    decreases |wakes|
  {
    hide WakesAsPlanned, LastEvals, Runs, Shortest, Multiple, Rounds, Evaluated, Planned;
    var m := Shortest(intervals);
    var c := Rounds(intervals[i], m);
    RoundsIsCeiling(intervals[i], m, 0);
    if wakes == [] {
      NoWakes(intervals, start, 0, i);
      NoMultiple(c);
    } else {
      var front, n := wakes[..|wakes| - 1], |wakes| - 1;
      WakeStep(intervals, start, wakes, 0, i);
      OnTimeRuns(intervals, start, front, i);
      OnTimeWake(intervals, start, wakes);
      MultipleStep(n, c);
      var passed := n + 1 - Multiple(n, c);
      Distributes(Multiple(n, c), passed, m);
      RoundsIsCeiling(intervals[i], m, passed);
    }
  }

  lemma Distributes(a: int, b: int, m: int)
    ensures (a + b) * m == a * m + b * m
  {
  }

  lemma NoMultiple(c: int)
    requires c > 0
    ensures Multiple(0, c) == 0
  {
  }

  lemma PunctualIff(interval: int, shortest: int)
    requires shortest > 0
    ensures Rounds(interval, shortest) * shortest == interval <==> interval % shortest == 0
  {
    var q := interval / shortest;
    DivSplit(interval, shortest);
    RoundsIsCeiling(interval, shortest, q);
    RoundsIsCeiling(interval, shortest, q - 1);
    assert (q - 1) * shortest == q * shortest - shortest;
    assert interval == q * shortest + interval % shortest;
    if interval % shortest == 0 {
      assert Rounds(interval, shortest) == q;
    } else {
      assert Rounds(interval, shortest) > q;
      MulMonotone(q + 1, Rounds(interval, shortest), shortest);
      assert (q + 1) * shortest == q * shortest + shortest;
    }
  }
}
