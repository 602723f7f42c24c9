/**
 The funding-settlement grid: three phases of calendar arithmetic with two dead zones, and the
 search for grid points that are missing from a store. Times are in whole seconds.
 */
module Grid {
  import opened Basics
  import opened Market

  const HOUR: int := 3_600
  const INTERVAL: int := 28_800
  const A_START: int := 1_610_352_000
  const A_END: int := 1_638_864_000
  const B_START: int := 1_638_907_200
  const B_END: int := 1_744_344_000
  const C_START: int := 1_744_387_200

  /** 2025-04-11T12:00Z, on the hours of phase B but after its last settlement. */
  const STRAY: int := 1_744_372_800

  /** The settlement times: 08 daily, then 04, 12 and 20, then 00, 08 and 16. */
  predicate OnGrid(t: int) {
    || (t <= A_END && t % DAY == 8 * HOUR)
    || (B_START <= t <= B_END && t % INTERVAL == 4 * HOUR)
    || (C_START <= t && t % INTERVAL == 0)
  }

  // ----- The code's arithmetic

  function HourOf(t: int): int {
    t % DAY / HOUR
  }

  function FloorDay(t: int): int {
    t - t % DAY
  }

  predicate IsValidSettlementTime(t: int) {
    var clean := t % HOUR == 0;
    if t < B_START then clean && HourOf(t) == 8
    else if t < C_START then clean && HourOf(t) % 8 == 4
    else clean && HourOf(t) % 8 == 0
  }

  function CeilSettlementTime(t: int): int {
    if IsValidSettlementTime(t) then t
    else if A_END < t < B_START then B_START
    else if B_END < t < C_START then C_START
    else if t < B_START then
      var base := FloorDay(t) + 8 * HOUR;
      var result := if t <= base then base else base + DAY;
      if result > A_END then B_START else result
    else
      var offset := if t < C_START then 4 else 0;
      var nextSlot := ((HourOf(t) - offset) / 8 + 1) * 8 + offset;
      var result := FloorDay(t) + (if nextSlot >= 24 then 24 + offset else nextSlot) * HOUR;
      if B_END < result < C_START then C_START else result
  }

  function FloorSettlementTime(t: int): int {
    if IsValidSettlementTime(t) then t
    else if A_END < t < B_START then A_END
    else if B_END < t < C_START then B_END
    else if t < B_START then
      var base := FloorDay(t) + 8 * HOUR;
      if t >= base then base else base - DAY
    else
      var offset := if t < C_START then 4 else 0;
      var slot := (HourOf(t) - offset) / 8 * 8 + offset;
      if slot < 0 then FloorDay(t) - DAY + (24 + slot) * HOUR else FloorDay(t) + slot * HOUR
  }

  // ----- Laws of the grid

  /** Day, hour of the day and seconds into the hour. */
  lemma Split(t: int) returns (day: int, hour: int, rest: int)
    ensures t == day * DAY + hour * HOUR + rest && 0 <= hour < 24 && 0 <= rest < HOUR
    ensures HourOf(t) == hour && FloorDay(t) == day * DAY
    ensures t % HOUR == rest
    ensures t % DAY == hour * HOUR + rest
    ensures t % INTERVAL == hour % 8 * HOUR + rest
  {
    day := t / DAY;
    var second := t % DAY;
    DivSplit(t, DAY);
    hour, rest := second / HOUR, second % HOUR;
    DivSplit(second, HOUR);
    HourInDay(second, hour, rest);
    SplitHours(t, day, hour, rest);
  }

  lemma HourInDay(second: int, hour: int, rest: int)
    requires 0 <= second < DAY && second == hour * HOUR + rest && 0 <= rest < HOUR
    ensures 0 <= hour < 24
  {
  }

  lemma SplitHours(t: int, day: int, hour: int, rest: int)
    requires t == day * DAY + hour * HOUR + rest && 0 <= hour < 24 && 0 <= rest < HOUR
    ensures t % HOUR == rest && t % INTERVAL == hour % 8 * HOUR + rest
  {
    QuotientIs(t, HOUR, 24 * day + hour);
    var slot, within := hour / 8, hour % 8;
    assert hour == slot * 8 + within;
    QuotientIs(t, INTERVAL, 3 * day + slot);
  }

  lemma HourMatchesInterval(t: int)
    ensures t % HOUR == 0 && HourOf(t) == 8 <==> t % DAY == 8 * HOUR
    ensures t % HOUR == 0 && HourOf(t) % 8 == 4 <==> t % INTERVAL == 4 * HOUR
    ensures t % HOUR == 0 && HourOf(t) % 8 == 0 <==> t % INTERVAL == 0
  {
    var day, hour, rest := Split(t);
  }

  /** Validity is membership of the grid, but for one stray instant. */
  lemma ValidIsOnGrid(t: int)
    ensures IsValidSettlementTime(t) <==> OnGrid(t) || t == STRAY
  {
    HourMatchesInterval(t);
  }

  lemma DailySpacing(a: int, b: int)
    requires a < b && a % DAY == b % DAY
    ensures a + DAY <= b
  {
    DivSplit(a, DAY);
    DivSplit(b, DAY);
    LessFromProducts(a / DAY, b / DAY, DAY);
  }

  lemma SlotSpacing(a: int, b: int)
    requires a < b && a % INTERVAL == b % INTERVAL
    ensures a + INTERVAL <= b
  {
    DivSplit(a, INTERVAL);
    DivSplit(b, INTERVAL);
    LessFromProducts(a / INTERVAL, b / INTERVAL, INTERVAL);
  }

  /** Phase A: the surrounding 08:00 of the day. */
  lemma PhaseAForm(t: int)
    requires t < B_START && !IsValidSettlementTime(t)
    ensures IsBracket(FloorSettlementTime(t), t, CeilSettlementTime(t))
  {
    if t <= A_END {
      var day, hour, rest := Split(t);
      var d := if hour >= 8 then day else day - 1;
      var f, c := MorningOf(d), MorningOf(d + 1);
      assert f < t < c by {
        HourMatchesInterval(t);
      }
      assert FloorSettlementTime(t) == f;
      MorningEdges(d, t);
      assert CeilSettlementTime(t) == c;
    }
  }

  function MorningOf(day: int): int {
    day * DAY + 8 * HOUR
  }

  lemma MorningEdges(day: int, t: int)
    requires MorningOf(day) < t <= A_END
    ensures MorningOf(day) % DAY == MorningOf(day + 1) % DAY == 8 * HOUR
    ensures MorningOf(day + 1) == MorningOf(day) + DAY <= A_END
  {
    QuotientIs(MorningOf(day), DAY, day);
    QuotientIs(MorningOf(day + 1), DAY, day + 1);
    EdgesOnGrid();
    DailySpacing(MorningOf(day), A_END);
  }

  function SlotStart(day: int, slot: int, offset: int): int {
    day * DAY + (slot * 8 + offset) * HOUR
  }

  /** Phases B and C: the surrounding 8-hour slot. */
  lemma SlotForm(t: int)
    requires B_START <= t && !IsValidSettlementTime(t)
    requires t != STRAY
    ensures IsBracket(FloorSettlementTime(t), t, CeilSettlementTime(t))
  {
    hide IsValidSettlementTime, SlotStart, HourOf, FloorDay;
    if !(B_END < t < C_START) {
      var day, hour, rest := Split(t);
      var offset := if t < C_START then 4 else 0;
      var slot := (hour - offset) / 8;
      SlotAt(t, day, hour, offset, slot);
      SlotHolds(t, day, hour, rest, offset);
      SlotEdges(day, slot, offset, t);
    }
  }

  /** The code's slots, in terms of the day and the hour. */
  lemma SlotAt(t: int, day: int, hour: int, offset: int, slot: int)
    requires B_START <= t && !(B_END < t < C_START) && !IsValidSettlementTime(t)
    requires HourOf(t) == hour && FloorDay(t) == day * DAY && 0 <= hour < 24
    requires offset == (if t < C_START then 4 else 0) && slot == (hour - offset) / 8
    ensures FloorSettlementTime(t) == SlotStart(day, slot, offset)
    ensures var next := SlotStart(day, slot + 1, offset);
      CeilSettlementTime(t) == if B_END < next < C_START then C_START else next
  {
    hide IsValidSettlementTime, HourOf, FloorDay;
  }

  lemma SlotHolds(t: int, day: int, hour: int, rest: int, offset: int)
    requires t == day * DAY + hour * HOUR + rest && 0 <= hour < 24 && 0 <= rest < HOUR
    requires offset == (if t < C_START then 4 else 0)
    requires t % HOUR == rest && HourOf(t) == hour
    requires B_START <= t && !IsValidSettlementTime(t)
    ensures SlotStart(day, (hour - offset) / 8, offset) < t < SlotStart(day, (hour - offset) / 8 + 1, offset)
  {
    hide HourOf;
    var slot, within := (hour - offset) / 8, (hour - offset) % 8;
    assert hour - offset == slot * 8 + within;
    assert within * HOUR + rest > 0;
  }

  lemma SlotOnGrid(day: int, slot: int, offset: int)
    requires 0 <= offset < 8
    ensures SlotStart(day, slot, offset) % INTERVAL == offset * HOUR
    ensures SlotStart(day, slot + 1, offset) == SlotStart(day, slot, offset) + INTERVAL
  {
    QuotientIs(SlotStart(day, slot, offset), INTERVAL, 3 * day + slot);
  }

  lemma SlotEdges(day: int, slot: int, offset: int, t: int)
    requires 0 <= offset < 8 && SlotStart(day, slot, offset) < t < SlotStart(day, slot + 1, offset)
    ensures SlotStart(day, slot, offset) % INTERVAL == SlotStart(day, slot + 1, offset) % INTERVAL == offset * HOUR
    ensures SlotStart(day, slot + 1, offset) == SlotStart(day, slot, offset) + INTERVAL
    ensures offset == 4 && B_START <= t ==> B_START <= SlotStart(day, slot, offset)
    ensures offset == 4 && t <= B_END ==> SlotStart(day, slot + 1, offset) <= B_END
    ensures offset == 0 && C_START <= t ==> C_START <= SlotStart(day, slot, offset)
  {
    hide SlotStart;
    var f := SlotStart(day, slot, offset);
    SlotOnGrid(day, slot, offset);
    SlotOnGrid(day, slot + 1, offset);
    EdgesOnGrid();
    if offset == 4 {
      SlotAround(f, t, B_START);
      SlotAround(f, t, B_END);
    } else if offset == 0 {
      SlotAround(f, t, C_START);
    }
  }

  /** A grid point lies at or before the start of a slot, or at or after its end. */
  lemma SlotAround(f: int, t: int, edge: int)
    requires f < t < f + INTERVAL && f % INTERVAL == edge % INTERVAL
    ensures edge <= t ==> edge <= f
    ensures t <= edge ==> f + INTERVAL <= edge
  {
    if f < edge {
      SlotSpacing(f, edge);
    }
  }

  /** A time off the grid lies strictly between two grid points. */
  lemma Bracketed(t: int)
    requires t != STRAY && !IsValidSettlementTime(t)
    ensures IsBracket(FloorSettlementTime(t), t, CeilSettlementTime(t))
  {
    if t < B_START {
      PhaseAForm(t);
    } else {
      SlotForm(t);
    }
  }

  /** Neighbouring grid points around a time: one step apart within a phase, or the edges of a dead zone. */
  ghost predicate IsBracket(f: int, t: int, c: int) {
    && f < t < c
    && (|| (f == A_END && c == B_START)
       || (f == B_END && c == C_START)
       || (c == f + DAY && c <= A_END && f % DAY == c % DAY == 8 * HOUR)
       || (c == f + INTERVAL && B_START <= f && c <= B_END && f % INTERVAL == c % INTERVAL == 4 * HOUR)
       || (c == f + INTERVAL && C_START <= f && f % INTERVAL == c % INTERVAL == 0))
  }

  lemma BracketEnds(f: int, t: int, c: int)
    requires IsBracket(f, t, c)
    ensures OnGrid(f) && OnGrid(c)
  {
    EdgesOnGrid();
  }

  /** No grid point lies strictly inside a bracket. */
  lemma BracketEmpty(f: int, t: int, c: int, g: int)
    requires IsBracket(f, t, c) && OnGrid(g)
    ensures g <= f || c <= g
  {
    if f < g < c && c == f + DAY {
      DailySpacing(f, g);
      assert false;
    } else if f < g < c && c == f + INTERVAL {
      SlotSpacing(f, g);
      assert false;
    }
  }

  lemma EdgesOnGrid()
    ensures A_START % DAY == A_END % DAY == 8 * HOUR
    ensures B_START % INTERVAL == B_END % INTERVAL == 4 * HOUR
    ensures C_START % INTERVAL == 0
  {
  }

  /** Floor is the greatest and ceiling the least grid point on its side, except at the stray instant. */
  lemma FloorCeilAdjunction(t: int, g: int)
    requires t != STRAY
    ensures OnGrid(FloorSettlementTime(t)) && OnGrid(CeilSettlementTime(t))
    ensures FloorSettlementTime(t) <= t <= CeilSettlementTime(t)
    ensures OnGrid(g) ==> (g <= FloorSettlementTime(t) <==> g <= t)
    ensures OnGrid(g) ==> (CeilSettlementTime(t) <= g <==> t <= g)
  {
    if IsValidSettlementTime(t) {
      ValidIsOnGrid(t);
    } else {
      Bracketed(t);
      BracketEnds(FloorSettlementTime(t), t, CeilSettlementTime(t));
      if OnGrid(g) {
        BracketEmpty(FloorSettlementTime(t), t, CeilSettlementTime(t), g);
      }
    }
  }

  /** Flooring and ceiling are monotone away from the stray instant, and idempotent everywhere. */
  lemma FloorCeilMonotone(s: int, t: int)
    ensures s <= t && s != STRAY && t != STRAY ==>
      FloorSettlementTime(s) <= FloorSettlementTime(t) && CeilSettlementTime(s) <= CeilSettlementTime(t)
    ensures FloorSettlementTime(FloorSettlementTime(t)) == FloorSettlementTime(t)
    ensures CeilSettlementTime(CeilSettlementTime(t)) == CeilSettlementTime(t)
  {
    if s != STRAY {
      FloorCeilAdjunction(s, FloorSettlementTime(s));
      if t != STRAY {
        FloorCeilAdjunction(t, FloorSettlementTime(s));
        FloorCeilAdjunction(t, CeilSettlementTime(t));
        FloorCeilAdjunction(s, CeilSettlementTime(t));
      }
    }
    if t != STRAY {
      FloorCeilAdjunction(t, t);
      ValidIsOnGrid(FloorSettlementTime(t));
      ValidIsOnGrid(CeilSettlementTime(t));
    }
  }

  /** The stray instant is its own floor and ceiling although it is not on the grid, so neither is monotone there. */
  lemma StrayInstant(t: int)
    ensures OnGrid(FloorSettlementTime(t)) <==> t != STRAY
    ensures OnGrid(CeilSettlementTime(t)) <==> t != STRAY
    ensures FloorSettlementTime(STRAY) == CeilSettlementTime(STRAY) == STRAY
    ensures FloorSettlementTime(STRAY + 1) < FloorSettlementTime(STRAY)
    ensures CeilSettlementTime(STRAY) < CeilSettlementTime(STRAY - 1)
  {
    if t != STRAY {
      FloorCeilAdjunction(t, t);
    }
    ValidIsOnGrid(STRAY);
    ValidIsOnGrid(STRAY + 1);
    ValidIsOnGrid(STRAY - 1);
  }

  // ----- Missing settlement times

  /** `generate_series` with both ends included. */
  function Series(from: int, last: int, step: int): seq<int>
    requires step > 0
    decreases last - from
  {
    if from > last then [] else [from] + Series(from + step, last, step)
  }

  function Absent(times: seq<int>, store: set<int>): seq<int> {
    if times == [] then [] else
      (if times[0] in store then [] else [times[0]]) + Absent(times[1..], store)
  }

  ghost predicate StrictlyAscending(s: seq<int>) {
    forall i, j :: 0 <= i < j < |s| ==> s[i] < s[j]
  }

  lemma {:induction false} SeriesMembers(from: int, last: int, step: int, t: int)
    requires step > 0
    ensures t in Series(from, last, step) <==> from <= t <= last && (t - from) % step == 0
    decreases last - from
  {
    if from <= last {
      SeriesMembers(from + step, last, step, t);
      StepBack(t - from, step);
    }
  }

  lemma StepBack(x: int, step: int)
    requires step > 0
    ensures x >= 0 && x % step == 0 <==> x == 0 || (x - step >= 0 && (x - step) % step == 0)
  {
    DivSplit(x, step);
    if x >= step {
      var q := x / step;
      assert (q - 1) * step == q * step - step;
      QuotientIs(x - step, step, q - 1);
    } else if x >= 0 {
      QuotientIs(x, step, 0);
    }
  }

  lemma {:induction false} SeriesAscends(from: int, last: int, step: int)
    requires step > 0
    ensures StrictlyAscending(Series(from, last, step))
    ensures forall t <- Series(from, last, step) :: from <= t <= last
    decreases last - from
  {
    if from <= last {
      SeriesAscends(from + step, last, step);
      var rest := Series(from + step, last, step);
      assert forall i :: 0 <= i < |rest| ==> rest[i] in rest;
    }
  }

  lemma {:induction false} AbsentFilters(times: seq<int>, store: set<int>)
    requires StrictlyAscending(times)
    ensures StrictlyAscending(Absent(times, store))
    ensures forall t :: t in Absent(times, store) <==> (t in times && t !in store)
  {
    if times != [] {
      AbsentFilters(times[1..], store);
      var rest := Absent(times[1..], store);
      assert times == [times[0]] + times[1..];
      forall i | 0 <= i < |rest|
        ensures times[0] < rest[i]
      {
        assert rest[i] in rest;
      }
    }
  }

  /** The missing times of one phase segment. */
  function QueryMissing(store: set<int>, from: int, to: int, step: int): seq<int>
    requires step > 0
  {
    Absent(Series(from, to, step), store)
  }

  lemma QueryMissingMembers(store: set<int>, from: int, to: int, step: int)
    requires step > 0
    ensures StrictlyAscending(QueryMissing(store, from, to, step))
    ensures forall t ::
      (t in QueryMissing(store, from, to, step) <==> (from <= t <= to && (t - from) % step == 0 && t !in store))
  {
    SeriesAscends(from, to, step);
    AbsentFilters(Series(from, to, step), store);
    forall t
      ensures t in Series(from, to, step) <==> (from <= t <= to && (t - from) % step == 0)
    {
      SeriesMembers(from, to, step, t);
    }
  }

  /** The grid points of a range that the store lacks. */
  ghost predicate IsMissing(store: set<int>, from: int, to: int, t: int) {
    OnGrid(t) && Max(from, A_START) <= t <= to && t !in store
  }

  /** The missing times up to a limit, in order. */
  ghost predicate FoundUpTo(times: seq<int>, store: set<int>, from: int, to: int, limit: int) {
    && StrictlyAscending(times)
    && forall t :: t in times <==> (IsMissing(store, from, to, t) && t <= limit)
  }

  /** The missing times of a range after one limit and up to another. */
  ghost predicate IsSegment(times: seq<int>, store: set<int>, from: int, to: int, after: int, limit: int) {
    && StrictlyAscending(times)
    && forall t :: t in times <==> (IsMissing(store, from, to, t) && after < t <= limit)
  }

  lemma SameDailyResidue(a: int, b: int)
    ensures (a - b) % DAY == 0 <==> a % DAY == b % DAY
  {
  }

  lemma SameSlotResidue(a: int, b: int)
    ensures (a - b) % INTERVAL == 0 <==> a % INTERVAL == b % INTERVAL
  {
  }

  lemma PhaseA(store: set<int>, from: int, to: int)
    requires OnGrid(from) || from == STRAY
    ensures from <= A_END ==>
      FoundUpTo(QueryMissing(store, Max(from, A_START), Min(to, A_END), DAY), store, from, to, A_END)
    ensures from > A_END ==> FoundUpTo([], store, from, to, A_END)
  {
    var f := Max(from, A_START);
    QueryMissingMembers(store, f, Min(to, A_END), DAY);
    EdgesOnGrid();
    forall t
      ensures (t - f) % DAY == 0 <==> t % DAY == f % DAY
    {
      SameDailyResidue(t, f);
    }
  }

  lemma SegmentB(store: set<int>, from: int, to: int)
    requires OnGrid(from) || from == STRAY
    ensures from <= B_END && to >= B_START ==>
      IsSegment(QueryMissing(store, Max(from, B_START), Min(to, B_END), INTERVAL), store, from, to, A_END, B_END)
    ensures !(from <= B_END && to >= B_START) ==> IsSegment([], store, from, to, A_END, B_END)
  {
    if from <= B_END && to >= B_START {
      var f := Max(from, B_START);
      QueryMissingMembers(store, f, Min(to, B_END), INTERVAL);
      EdgesOnGrid();
      forall t
        ensures (t - f) % INTERVAL == 0 <==> t % INTERVAL == 4 * HOUR
      {
        SameSlotResidue(t, f);
      }
    }
  }

  lemma SegmentC(store: set<int>, from: int, to: int)
    requires OnGrid(from) || from == STRAY
    ensures to >= C_START ==>
      IsSegment(QueryMissing(store, Max(from, C_START), to, INTERVAL), store, from, to, B_END, to)
    ensures to < C_START ==> IsSegment([], store, from, to, B_END, to)
  {
    if to >= C_START {
      var f := Max(from, C_START);
      QueryMissingMembers(store, f, to, INTERVAL);
      EdgesOnGrid();
      forall t
        ensures (t - f) % INTERVAL == 0 <==> t % INTERVAL == 0
      {
        SameSlotResidue(t, f);
      }
    }
  }

  lemma Extend(times: seq<int>, segment: seq<int>, store: set<int>, from: int, to: int, after: int, limit: int)
    requires FoundUpTo(times, store, from, to, after)
    requires IsSegment(segment, store, from, to, after, limit) && (after <= limit || limit == to)
    ensures FoundUpTo(times + segment, store, from, to, limit)
  {
    Concat(times, segment, after);
  }

  lemma Concat(a: seq<int>, b: seq<int>, limit: int)
    requires StrictlyAscending(a) && StrictlyAscending(b)
    ensures (forall x <- a :: x <= limit) && (forall y <- b :: limit < y) ==> StrictlyAscending(a + b)
    ensures forall t :: t in a + b <==> (t in a || t in b)
  {
    if (forall x <- a :: x <= limit) && (forall y <- b :: limit < y) {
      forall i, j | 0 <= i < j < |a + b| ensures (a + b)[i] < (a + b)[j] {
        if i < |a| <= j {
          assert a[i] in a && b[j - |a|] in b;
        }
      }
    }
  }

  /** Exactly the grid points of the range, from the first settlement on, that the store lacks; ascending. */
  method GetMissingSettlementTimes(store: set<int>, from: int, to: int) returns (r: Result<seq<int>>)
    ensures r.Err? <==> !IsValidSettlementTime(from) || !IsValidSettlementTime(to)
    ensures r.Err? ==> r.error == InvalidSettlementTime
    ensures r.Ok? ==> StrictlyAscending(r.value)
    ensures r.Ok? ==> forall t :: t in r.value <==> IsMissing(store, from, to, t)
  {
    if !IsValidSettlementTime(from) || !IsValidSettlementTime(to) {
      return Err(InvalidSettlementTime);
    }
    ValidIsOnGrid(from);
    var combined: seq<int> := [];
    PhaseA(store, from, to);
    if from <= A_END {
      var missing := QueryMissing(store, Max(from, A_START), Min(to, A_END), DAY);
      assert combined + missing == missing;
      combined := combined + missing;
    }
    var missingB := [];
    SegmentB(store, from, to);
    if from <= B_END && to >= B_START {
      missingB := QueryMissing(store, Max(from, B_START), Min(to, B_END), INTERVAL);
    }
    Extend(combined, missingB, store, from, to, A_END, B_END);
    combined := combined + missingB;
    var missingC := [];
    SegmentC(store, from, to);
    if to >= C_START {
      missingC := QueryMissing(store, Max(from, C_START), to, INTERVAL);
    }
    Extend(combined, missingC, store, from, to, B_END, to);
    combined := combined + missingC;
    r := Ok(combined);
  }
}
