/**
 The stored minute candles with their `stable` and `gap` flags: how missing minutes are flagged, what
 gaps are reported, and what a range said to be available really holds. Times are in seconds.
 */
module CandleStore {
  import opened Basics
  import opened Market
  import opened TimeSets

  datatype Row = Row(stable: bool, gap: bool)

  type Rows = map<int, Row>

  ghost predicate OnMinutes(rows: Rows) {
    forall t <- rows :: t % MINUTE == 0
  }

  predicate Stable(rows: Rows, t: int) {
    t in rows && rows[t].stable
  }

  // ----- Flagging, as three updates of the whole table

  /** No row lies strictly between the two. */
  predicate Adjacent(rows: Rows, t: int, u: int) {
    t in rows && u in rows && t < u && forall k <- rows :: !(t < k < u)
  }

  /** A stable row followed, more than a minute later, by a stable row without a gap flag. */
  predicate OpensGap(rows: Rows, cutoff: int, t: int) {
    && t >= cutoff && Stable(rows, t)
    && exists u <- rows :: Adjacent(rows, t, u) && u > t + MINUTE && rows[u].stable && !rows[u].gap
  }

  function OpenGaps(rows: Rows, cutoff: int): set<int> {
    set t <- rows | OpensGap(rows, cutoff, t)
  }

  function Between(rows: Rows, first: int, last: int): set<int> {
    set t <- rows | first <= t <= last
  }

  /** Among the five nearest rows up to `gap`, or the five nearest after it. */
  predicate NearGap(rows: Rows, cutoff: int, gap: int, t: int) {
    && t in rows && t >= cutoff
    && if t <= gap then |Between(rows, t, gap)| <= 5 else |Between(rows, gap + 1, t)| <= 5
  }

  predicate SixthAfter(rows: Rows, cutoff: int, gap: int, t: int) {
    t in rows && t >= cutoff && t > gap && |Between(rows, gap + 1, t)| == 6
  }

  function Unsettle(rows: Rows, cutoff: int, gaps: set<int>): (r: Rows)
    ensures r.Keys == rows.Keys
  {
    map t <- rows ::
      if exists gap <- gaps :: NearGap(rows, cutoff, gap, t) then rows[t].(stable := false) else rows[t]
  }

  function MarkSixth(rows: Rows, cutoff: int, gaps: set<int>): (r: Rows)
    ensures r.Keys == rows.Keys
  {
    map t <- rows ::
      if exists gap <- gaps :: SixthAfter(rows, cutoff, gap, t) then rows[t].(gap := true) else rows[t]
  }

  predicate AfterUnstable(rows: Rows, t: int) {
    exists p <- rows :: Adjacent(rows, p, t) && !rows[p].stable
  }

  /** Stable rows right after an unstable one begin a gap. */
  function MarkAfterUnstable(rows: Rows, cutoff: int): (r: Rows)
    ensures r.Keys == rows.Keys
  {
    map t <- rows ::
      if t >= cutoff && rows[t].stable && AfterUnstable(rows, t) then rows[t].(gap := true) else rows[t]
  }

  function Flagged(rows: Rows, cutoff: int): (r: Rows)
    ensures r.Keys == rows.Keys
  {
    var gaps := OpenGaps(rows, cutoff);
    MarkAfterUnstable(MarkSixth(Unsettle(rows, cutoff, gaps), cutoff, gaps), cutoff)
  }

  // ----- What is reported

  /** A stable row with a gap flag, and the latest stable row before it. */
  predicate IsGap(rows: Rows, from: int, until: int) {
    && Stable(rows, from) && Stable(rows, until) && rows[until].gap && from < until
    && forall t <- rows :: from < t < until ==> !rows[t].stable
  }

  function StableBefore(rows: Rows, t: int): set<int> {
    set k <- rows | k < t && rows[k].stable
  }

  /** The gaps that end at one of the given rows, in order. */
  function GapsAt(rows: Rows, times: set<int>): seq<(int, int)> {
    if times == {} then [] else
      var t := Newest(times);
      var before := StableBefore(rows, t);
      GapsAt(rows, times - {t})
      + if Stable(rows, t) && rows[t].gap && before != {} then [(Newest(before), t)] else []
  }

  function GetGaps(rows: Rows): seq<(int, int)> {
    GapsAt(rows, rows.Keys)
  }

  ghost predicate EndsAscend(gaps: seq<(int, int)>) {
    forall i, j :: 0 <= i < j < |gaps| ==> gaps[i].1 < gaps[j].1
  }

  lemma {:induction false} GapsAtExact(rows: Rows, times: set<int>)
    requires times <= rows.Keys
    ensures EndsAscend(GapsAt(rows, times))
    ensures forall gap :: gap in GapsAt(rows, times) <==> (IsGap(rows, gap.0, gap.1) && gap.1 in times)
  {
    if times != {} {
      var t := Newest(times);
      var rest, before := GapsAt(rows, times - {t}), StableBefore(rows, t);
      GapsAtExact(rows, times - {t});
      assert forall i :: 0 <= i < |rest| ==> rest[i] in rest;
      forall x
        ensures IsGap(rows, x, t) <==> (Stable(rows, t) && rows[t].gap && before != {} && x == Newest(before))
      {
        NearestStable(rows, x, t);
      }
      var own := if Stable(rows, t) && rows[t].gap && before != {} then [(Newest(before), t)] else [];
      assert GapsAt(rows, times) == rest + own;
      forall gap: (int, int)
        ensures gap in GapsAt(rows, times) <==> (IsGap(rows, gap.0, gap.1) && gap.1 in times)
      {
        assert gap in own <==> (gap.1 == t && IsGap(rows, gap.0, t));
      }
    }
  }

  /** The latest stable row before another is the only one with no stable row in between. */
  lemma NearestStable(rows: Rows, x: int, t: int)
    ensures var before := StableBefore(rows, t);
      (x < t && Stable(rows, x) && forall k <- rows :: x < k < t ==> !rows[k].stable)
      <==> (before != {} && x == Newest(before))
  {
    var before := StableBefore(rows, t);
    if x < t && Stable(rows, x) && (forall k <- rows :: x < k < t ==> !rows[k].stable) {
      assert x in before;
    }
    if before != {} && x == Newest(before) {
      forall k <- rows | x < k < t
        ensures !rows[k].stable
      {
        assert rows[k].stable ==> k in before;
      }
    }
  }

  /** The reported gaps are exactly the gaps, in ascending order and without overlap. */
  lemma GapsAreExactAndDisjoint(rows: Rows)
    ensures forall gap :: gap in GetGaps(rows) <==> IsGap(rows, gap.0, gap.1)
    ensures forall i, j :: 0 <= i < j < |GetGaps(rows)| ==> GetGaps(rows)[i].1 <= GetGaps(rows)[j].0
  {
    GapsAtExact(rows, rows.Keys);
    var gaps := GetGaps(rows);
    forall i, j | 0 <= i < j < |gaps|
      ensures gaps[i].1 <= gaps[j].0
    {
      assert gaps[i] in gaps && gaps[j] in gaps;
    }
  }

  // ----- Availability

  datatype PriceHistoryState = PriceHistoryState(
    reachTime: Option<int>, bounds: Option<(int, int)>, gaps: seq<(int, int)>)
  {
    predicate Overlaps(from: int, until: int) {
      exists i :: 0 <= i < |gaps| && from < gaps[i].1 && gaps[i].0 < until
    }

    function IsRangeAvailable(from: int, until: int): Result<bool> {
      if from >= until then Err(InvalidRange)
      else Ok(bounds.Some? && bounds.value.0 <= from && until <= bounds.value.1 && !Overlaps(from, until))
    }

    /** From the end of the last gap, or from the first row, to the last row. */
    function TailContinuousDuration(): Option<int> {
      if bounds.None? then None
      else if gaps == [] then Some(bounds.value.1 - bounds.value.0)
      else Some(bounds.value.1 - gaps[|gaps| - 1].1)
    }
  }

  /** A gap that starts before the reach can never be closed; a single row has no gaps. */
  function Evaluate(rows: Rows, reachTime: Option<int>): Result<PriceHistoryState> {
    if rows == map[] then Ok(PriceHistoryState(reachTime, None, []))
    else
      var earliest, latest := Earliest(rows.Keys), Newest(rows.Keys);
      if earliest == latest then
        if reachTime.Some? && earliest < reachTime.value then Err(UnreachableMissing)
        else Ok(PriceHistoryState(reachTime, Some((earliest, earliest)), []))
      else
        var gaps := GetGaps(rows);
        if gaps != [] && reachTime.Some? && gaps[0].0 < reachTime.value then Err(UnreachableMissing)
        else Ok(PriceHistoryState(reachTime, Some((earliest, latest)), gaps))
  }

  /** Stable rows with no stable row in between. */
  ghost predicate Consecutive(rows: Rows, x: int, y: int) {
    && x < y && Stable(rows, x) && Stable(rows, y)
    && forall t <- rows :: x < t < y ==> !rows[t].stable
  }

  /** From an instant on, every minute without a stable row between two stable ones is inside a marked gap. */
  ghost predicate Marked(rows: Rows, since: int) {
    forall x, y :: since <= x < y - MINUTE && Consecutive(rows, x, y) ==> rows[y].gap
  }

  lemma MinutesApart(x: int, m: int, y: int)
    requires x % MINUTE == 0 && m % MINUTE == 0 && y % MINUTE == 0 && x < m < y
    ensures x < y - MINUTE
  {
  }

  /** Around a minute that is not stable lie consecutive stable rows. */
  lemma AroundHole(rows: Rows, a: int, m: int, b: int) returns (x: int, y: int)
    requires a < m < b && Stable(rows, a) && Stable(rows, b) && !Stable(rows, m)
    ensures Consecutive(rows, x, y) && a <= x < m < y <= b
  {
    var before := StableBefore(rows, m);
    assert a in before;
    x := Newest(before);
    var after := set t <- rows | m < t && rows[t].stable;
    assert b in after;
    y := Earliest(after);
    forall t <- rows | x < t < y
      ensures !rows[t].stable
    {
      assert rows[t].stable ==> t in before || t in after || t == m;
    }
  }

  /** A minute that is not stable, between two stable rows, lies inside a gap between stable rows. */
  lemma HoleIsReported(rows: Rows, since: int, a: int, m: int, b: int) returns (gap: (int, int))
    requires OnMinutes(rows) && Marked(rows, since)
    requires since <= a < m < b && m % MINUTE == 0 && Stable(rows, a) && Stable(rows, b) && !Stable(rows, m)
    ensures IsGap(rows, gap.0, gap.1) && a <= gap.0 < m < gap.1 <= b
  {
    var x, y := AroundHole(rows, a, m, b);
    MinutesApart(x, m, y);
    gap := (x, y);
  }

  lemma GapIsReported(rows: Rows, reachTime: Option<int>, gap: (int, int))
    requires IsGap(rows, gap.0, gap.1)
    requires Evaluate(rows, reachTime).Ok?
    ensures rows != map[] && gap in Evaluate(rows, reachTime).value.gaps
  {
    assert gap.0 in rows.Keys && gap.1 in rows.Keys;
    GapsAtExact(rows, rows.Keys);
  }

  /** Whether some gap starts before an instant. */
  ghost predicate GapBefore(rows: Rows, time: int) {
    exists gap: (int, int) :: IsGap(rows, gap.0, gap.1) && gap.0 < time
  }

  ghost predicate NoGaps(rows: Rows) {
    forall gap: (int, int) :: !IsGap(rows, gap.0, gap.1)
  }

  lemma LoneRowHasNoGaps(rows: Rows)
    requires rows != map[] && Earliest(rows.Keys) == Newest(rows.Keys)
    ensures NoGaps(rows)
  {
    forall a, b | a in rows.Keys && b in rows.Keys
      ensures a == b
    {
    }
  }

  /** The first reported gap starts first and the last one ends last. */
  lemma FirstAndLastGap(rows: Rows)
    ensures var gaps := GetGaps(rows);
      && (gaps == [] <==> NoGaps(rows))
      && (gaps != [] ==>
            var first, last := gaps[0], gaps[|gaps| - 1];
            && IsGap(rows, first.0, first.1) && IsGap(rows, last.0, last.1)
            && forall gap: (int, int) :: IsGap(rows, gap.0, gap.1) ==> first.0 <= gap.0 && gap.1 <= last.1)
  {
    hide IsGap;
    GapsAreExactAndDisjoint(rows);
    GapsAtExact(rows, rows.Keys);
    var gaps := GetGaps(rows);
    if gaps != [] {
      assert gaps[0] in gaps && gaps[|gaps| - 1] in gaps;
      forall gap: (int, int) | IsGap(rows, gap.0, gap.1)
        ensures gaps[0].0 <= gap.0 && gap.1 <= gaps[|gaps| - 1].1
      {
        var i: nat :| i < |gaps| && gaps[i] == gap;
        GapIsForward(rows, gaps[0].0, gaps[0].1);
      }
    }
  }

  lemma GapIsForward(rows: Rows, a: int, b: int)
    requires IsGap(rows, a, b)
    ensures a < b
  {
  }

  lemma EvaluatedGaps(rows: Rows, reachTime: Option<int>)
    requires Evaluate(rows, reachTime).Ok? && rows != map[]
    ensures Evaluate(rows, reachTime).value.gaps == GetGaps(rows)
  {
    hide IsGap, GetGaps;
    FirstAndLastGap(rows);
    if Earliest(rows.Keys) == Newest(rows.Keys) {
      LoneRowHasNoGaps(rows);
    }
  }

  /** An evaluation fails exactly if a lone row, or some gap, starts before the reach. */
  lemma UnreachableIff(rows: Rows, reachTime: Option<int>)
    ensures Evaluate(rows, reachTime).Err? <==>
      && reachTime.Some? && rows != map[]
      && (Earliest(rows.Keys) == Newest(rows.Keys) < reachTime.value || GapBefore(rows, reachTime.value))
    ensures Evaluate(rows, reachTime).Err? ==> Evaluate(rows, reachTime).error == UnreachableMissing
  {
    hide IsGap, GetGaps;
    if rows != map[] {
      FirstAndLastGap(rows);
      if Earliest(rows.Keys) == Newest(rows.Keys) {
        LoneRowHasNoGaps(rows);
      }
    }
  }

  /** A range is available exactly if it is inside the ends of the table and meets no gap. */
  lemma AvailableIff(rows: Rows, reachTime: Option<int>, from: int, until: int)
    requires Evaluate(rows, reachTime).Ok?
    ensures Evaluate(rows, reachTime).value.IsRangeAvailable(from, until) == Ok(true) <==>
      && from < until && rows != map[] && Earliest(rows.Keys) <= from && until <= Newest(rows.Keys)
      && forall gap: (int, int) :: IsGap(rows, gap.0, gap.1) ==> gap.1 <= from || until <= gap.0
    ensures Evaluate(rows, reachTime).value.IsRangeAvailable(from, until).Err? <==> from >= until
  {
    hide IsGap, GetGaps;
    if rows != map[] {
      GapsAreExactAndDisjoint(rows);
      EvaluatedGaps(rows, reachTime);
      var gaps := Evaluate(rows, reachTime).value.gaps;
      forall i | 0 <= i < |gaps|
        ensures IsGap(rows, gaps[i].0, gaps[i].1)
      {
        assert gaps[i] in gaps;
      }
    }
  }

  /** The continuous tail runs from the end of the last gap, or from the first row, to the last row. */
  lemma TailStartsAfterLastGap(rows: Rows, reachTime: Option<int>)
    requires Evaluate(rows, reachTime).Ok?
    ensures var tail := Evaluate(rows, reachTime).value.TailContinuousDuration();
      && (tail.Some? <==> rows != map[])
      && (rows != map[] ==>
            var start := Newest(rows.Keys) - tail.value;
            if NoGaps(rows) then start == Earliest(rows.Keys)
            else
              && (exists a :: IsGap(rows, a, start))
              && (forall gap: (int, int) :: IsGap(rows, gap.0, gap.1) ==> gap.1 <= start))
  {
    hide IsGap, GetGaps, NoGaps;
    if rows != map[] {
      FirstAndLastGap(rows);
      EvaluatedGaps(rows, reachTime);
    }
  }

  lemma OverlapIsUnavailable(rows: Rows, reachTime: Option<int>, gap: (int, int), from: int, until: int)
    requires IsGap(rows, gap.0, gap.1) && from < gap.1 && gap.0 < until
    requires Evaluate(rows, reachTime).Ok?
    ensures Evaluate(rows, reachTime).value.IsRangeAvailable(from, until) != Ok(true)
  {
    GapIsReported(rows, reachTime, gap);
  }

  lemma GapEndsBeforeTail(rows: Rows, reachTime: Option<int>, gap: (int, int))
    requires IsGap(rows, gap.0, gap.1)
    requires Evaluate(rows, reachTime).Ok?
    ensures rows != map[]
    ensures var tail := Evaluate(rows, reachTime).value.TailContinuousDuration();
      tail.Some? && gap.1 <= Newest(rows.Keys) - tail.value
  {
    GapIsReported(rows, reachTime, gap);
    GapsAtExact(rows, rows.Keys);
    var gaps := Evaluate(rows, reachTime).value.gaps;
    var i :| 0 <= i < |gaps| && gaps[i] == gap;
  }

  /** In an available range, every minute between two stable rows is stored and stable. */
  lemma AvailableIsStable(rows: Rows, reachTime: Option<int>, since: int, from: int, until: int, a: int, m: int, b: int)
    requires OnMinutes(rows) && Marked(rows, since)
    requires Evaluate(rows, reachTime).Ok?
    requires Evaluate(rows, reachTime).value.IsRangeAvailable(from, until) == Ok(true)
    requires since <= a <= m <= b && from <= m <= until && m % MINUTE == 0 && Stable(rows, a) && Stable(rows, b)
    ensures Stable(rows, m)
  {
    if !Stable(rows, m) {
      var gap := HoleIsReported(rows, since, a, m, b);
      OverlapIsUnavailable(rows, reachTime, gap, from, until);
    }
  }

  /** The tail reported as continuous holds no hole between two stable rows either. */
  lemma TailIsStable(rows: Rows, reachTime: Option<int>, since: int, a: int, m: int, b: int)
    requires OnMinutes(rows) && Marked(rows, since)
    requires Evaluate(rows, reachTime).Ok? && rows != map[]
    requires
      var tail := Evaluate(rows, reachTime).value.TailContinuousDuration();
      Max(since, Newest(rows.Keys) - tail.value) <= a <= m <= b
    requires m % MINUTE == 0 && Stable(rows, a) && Stable(rows, b)
    ensures Stable(rows, m)
  {
    if !Stable(rows, m) {
      var gap := HoleIsReported(rows, since, a, m, b);
      GapEndsBeforeTail(rows, reachTime, gap);
    }
  }

  // ----- What flagging establishes

  /** Flagging only ever takes stability away and only ever adds gap flags. */
  lemma FlaggingIsMonotone(rows: Rows, cutoff: int, t: int)
    requires t in rows
    ensures Flagged(rows, cutoff)[t].stable ==> rows[t].stable
    ensures rows[t].gap ==> Flagged(rows, cutoff)[t].gap
  {
  }

  lemma OpenGapIsUnsettled(rows: Rows, cutoff: int, t: int)
    requires OpensGap(rows, cutoff, t)
    ensures !Flagged(rows, cutoff)[t].stable
  {
    assert t in OpenGaps(rows, cutoff);
    assert Between(rows, t, t) <= {t};
    FewerOrEqual(Between(rows, t, t), {t});
    assert NearGap(rows, cutoff, t, t);
  }

  lemma FewerOrEqual(a: set<int>, b: set<int>)
    requires a <= b
    ensures |a| <= |b|
  {
    assert b == a + (b - a);
  }

  /** Rows on either side of a hole are both stable only if the hole is marked. */
  lemma JumpIsMarked(rows: Rows, cutoff: int, x: int, y: int)
    requires cutoff <= x && x + MINUTE < y && Adjacent(rows, x, y)
    requires Stable(Flagged(rows, cutoff), x) && Stable(Flagged(rows, cutoff), y)
    ensures Flagged(rows, cutoff)[y].gap
  {
    FlaggingIsMonotone(rows, cutoff, x);
    FlaggingIsMonotone(rows, cutoff, y);
    if !rows[y].gap {
      OpenGapIsUnsettled(rows, cutoff, x);
    }
  }

  /** The row before a stable row is stable, or the stable row is marked. */
  lemma AfterUnstableIsMarked(rows: Rows, cutoff: int, p: int, y: int)
    requires cutoff <= y && Adjacent(rows, p, y)
    requires Stable(Flagged(rows, cutoff), y) && !Stable(Flagged(rows, cutoff), p)
    ensures Flagged(rows, cutoff)[y].gap
  {
    var gaps := OpenGaps(rows, cutoff);
    var before := MarkSixth(Unsettle(rows, cutoff, gaps), cutoff, gaps);
    assert Adjacent(before, p, y) && !before[p].stable;
    assert AfterUnstable(before, y);
  }

  lemma FlaggedIsMarked(rows: Rows, cutoff: int)
    ensures Marked(Flagged(rows, cutoff), cutoff)
  {
    var flagged := Flagged(rows, cutoff);
    forall x, y | cutoff <= x < y - MINUTE && Consecutive(flagged, x, y)
      ensures flagged[y].gap
    {
      var before := set k <- rows | k < y;
      assert x in before;
      var p := Newest(before);
      assert Adjacent(rows, p, y) by {
        assert forall k <- rows :: p < k < y ==> k in before;
      }
      if p == x {
        JumpIsMarked(rows, cutoff, x, y);
      } else {
        AfterUnstableIsMarked(rows, cutoff, p, y);
      }
    }
  }

  /** After flagging, a range that is available from the cutoff on has no unstable minute between stable ones. */
  lemma FlaggingMakesAvailabilitySound(rows: Rows, reachTime: Option<int>, cutoff: int, from: int, until: int,
                                       a: int, m: int, b: int)
    requires OnMinutes(rows)
    requires Evaluate(Flagged(rows, cutoff), reachTime).Ok?
    requires Evaluate(Flagged(rows, cutoff), reachTime).value.IsRangeAvailable(from, until) == Ok(true)
    requires cutoff <= a <= m <= b && from <= m <= until && m % MINUTE == 0
    requires Stable(Flagged(rows, cutoff), a) && Stable(Flagged(rows, cutoff), b)
    ensures Stable(Flagged(rows, cutoff), m)
  {
    FlaggedIsMarked(rows, cutoff);
    AvailableIsStable(Flagged(rows, cutoff), reachTime, cutoff, from, until, a, m, b);
  }

  /** Flagging again with the same cutoff changes nothing. */
  lemma FlaggingIsIdempotent(rows: Rows, cutoff: int)
    ensures Flagged(Flagged(rows, cutoff), cutoff) == Flagged(rows, cutoff)
  {
    var flagged := Flagged(rows, cutoff);
    forall t
      ensures t !in OpenGaps(flagged, cutoff)
    {
      NoOpenGapLeft(rows, cutoff, t);
    }
    forall t <- flagged
      ensures t >= cutoff && flagged[t].stable && AfterUnstable(flagged, t) ==> flagged[t].gap
    {
      NoUnmarkedLeft(rows, cutoff, t);
    }
    NothingToFlag(flagged, cutoff);
  }

  lemma NothingToFlag(rows: Rows, cutoff: int)
    requires forall t :: t !in OpenGaps(rows, cutoff)
    requires forall t <- rows :: t >= cutoff && rows[t].stable && AfterUnstable(rows, t) ==> rows[t].gap
    ensures Flagged(rows, cutoff) == rows
  {
    hide OpensGap, NearGap, SixthAfter, AfterUnstable;
    var gaps := OpenGaps(rows, cutoff);
    assert Unsettle(rows, cutoff, gaps) == rows;
    assert MarkSixth(rows, cutoff, gaps) == rows;
  }

  lemma NoUnmarkedLeft(rows: Rows, cutoff: int, t: int)
    requires t in rows
    ensures var flagged := Flagged(rows, cutoff);
      t >= cutoff && flagged[t].stable && AfterUnstable(flagged, t) ==> flagged[t].gap
  {
    var flagged := Flagged(rows, cutoff);
    if t >= cutoff && flagged[t].stable && AfterUnstable(flagged, t) {
      var p :| p in flagged && Adjacent(flagged, p, t) && !flagged[p].stable;
      assert Adjacent(rows, p, t);
      AfterUnstableIsMarked(rows, cutoff, p, t);
    }
  }

  lemma NoOpenGapLeft(rows: Rows, cutoff: int, t: int)
    ensures !OpensGap(Flagged(rows, cutoff), cutoff, t)
  {
    var flagged := Flagged(rows, cutoff);
    if OpensGap(flagged, cutoff, t) {
      var u :| u in flagged && Adjacent(flagged, t, u) && u > t + MINUTE && flagged[u].stable && !flagged[u].gap;
      assert Adjacent(rows, t, u);
      JumpIsMarked(rows, cutoff, t, u);
    }
  }

  /** No row within five minutes of a newly found hole stays stable. */
  lemma SafetyMargin(rows: Rows, cutoff: int, gap: int, next: int, t: int)
    requires OnMinutes(rows) && OpensGap(rows, cutoff, gap) && Adjacent(rows, gap, next)
    requires t in rows && t >= cutoff && (gap - 5 * MINUTE < t <= gap || next <= t < next + 5 * MINUTE)
    ensures !Flagged(rows, cutoff)[t].stable
  {
    assert gap in OpenGaps(rows, cutoff);
    if t <= gap {
      FiveUpTo(rows, t, gap);
    } else {
      FiveFrom(rows, gap, next, t);
    }
    assert NearGap(rows, cutoff, gap, t);
  }

  lemma FiveUpTo(rows: Rows, t: int, gap: int)
    requires OnMinutes(rows) && gap in rows && gap - 5 * MINUTE < t <= gap
    ensures |Between(rows, t, gap)| <= 5
  {
    var first := gap - 4 * MINUTE;
    forall k <- Between(rows, t, gap)
      ensures first <= k
    {
      assert k - gap == (k / MINUTE - gap / MINUTE) * MINUTE;
    }
    FiveMinutes(Between(rows, t, gap), first);
  }

  lemma FiveFrom(rows: Rows, gap: int, next: int, t: int)
    requires OnMinutes(rows) && Adjacent(rows, gap, next) && next <= t < next + 5 * MINUTE
    ensures |Between(rows, gap + 1, t)| <= 5
  {
    FiveMinutes(Between(rows, gap + 1, t), next);
  }

  lemma FiveMinutes(times: set<int>, first: int)
    requires first % MINUTE == 0
    requires forall t <- times :: t % MINUTE == 0 && first <= t < first + 5 * MINUTE
    ensures |times| <= 5
  {
    forall t <- times
      ensures t == first || t == first + 60 || t == first + 120 || t == first + 180 || t == first + 240
    {
      assert t - first == (t / MINUTE - first / MINUTE) * MINUTE;
    }
    FewerOrEqual(times, {first, first + 60, first + 120, first + 180, first + 240});
  }

  // ----- Adding candles

  const STABLE_AGE: int := 3_600

  /** The first fault of a batch that should run backwards in whole minutes. */
  function BatchFault(times: seq<int>): Option<Error> {
    if times == [] then None
    else if times[0] % MINUTE != 0 then Some(NotRoundedToMinute)
    else if |times| > 1 && times[1] >= times[0] then Some(NotOrderedByTimeDesc)
    else BatchFault(times[1..])
  }

  function ClearGap(rows: Rows, time: int): (r: Rows)
    ensures r.Keys == rows.Keys
  {
    if time in rows then rows[time := rows[time].(gap := false)] else rows
  }

  /** The batch replaces what it covers; its oldest row begins a gap unless the minute before is stable. */
  function Upserted(rows: Rows, times: seq<int>, now: int): Rows
    requires times != []
  {
    var oldest := times[|times| - 1];
    map t | t in rows.Keys + (set k <- times) ::
      if t in times then Row(t <= now - STABLE_AGE, t == oldest && !Stable(rows, oldest - MINUTE)) else rows[t]
  }

  function WithCandles(rows: Rows, before: Option<int>, times: seq<int>, now: int): Rows {
    if times == [] then rows
    else Upserted(if before.Some? then ClearGap(rows, before.value) else rows, times, now)
  }

  ghost predicate InRun(t: int, oldest: int, newest: int) {
    oldest <= t <= newest && t % MINUTE == 0
  }

  /** Every minute from the oldest to the newest, newest first. */
  ghost predicate IsMinuteRun(times: seq<int>, oldest: int, newest: int) {
    && times != [] && times[|times| - 1] == oldest && times[0] == newest
    && oldest % MINUTE == 0
    && forall t :: t in times <==> InRun(t, oldest, newest)
  }

  ghost predicate SettledOnly(rows: Rows, now: int) {
    forall t <- rows :: rows[t].stable ==> t <= now - STABLE_AGE
  }

  /** The first stable row after the batch follows it at once, or keeps its gap flag. */
  ghost predicate SeamClosed(rows: Rows, before: Option<int>, newest: int, since: int) {
    forall y :: since <= newest < y - MINUTE && FirstStableAfter(rows, newest, y) ==> rows[y].gap && before != Some(y)
  }

  ghost predicate FirstStableAfter(rows: Rows, newest: int, y: int) {
    newest < y && Stable(rows, y) && forall t <- rows :: newest < t < y ==> !rows[t].stable
  }

  /** What the batch leaves of every row. */
  lemma UpsertedRow(rows: Rows, before: Option<int>, times: seq<int>, now: int, oldest: int, newest: int, t: int)
    requires IsMinuteRun(times, oldest, newest)
    requires before.Some? ==> newest < before.value
    ensures var r := WithCandles(rows, before, times, now);
      && (t in r <==> t in rows || InRun(t, oldest, newest))
      && (InRun(t, oldest, newest) ==>
            r[t] == Row(t <= now - STABLE_AGE, t == oldest && !Stable(rows, oldest - MINUTE)))
      && (t in rows && !InRun(t, oldest, newest) ==>
            r[t] == if before == Some(t) then rows[t].(gap := false) else rows[t])
  {
    assert Stable(rows, oldest - MINUTE)
      <==> Stable(if before.Some? then ClearGap(rows, before.value) else rows, oldest - MINUTE);
  }

  /**
   Storing a run of minutes below a gap keeps every hole marked exactly when the run closes the gap
   or the gap keeps its flag. A page that stops short of the row whose flag is cleared hides the rest.
   */
  lemma AddingKeepsMarked(rows: Rows, before: Option<int>, times: seq<int>, now: int, oldest: int, newest: int,
                          since: int)
    requires OnMinutes(rows) && SettledOnly(rows, now) && Marked(rows, since)
    requires IsMinuteRun(times, oldest, newest)
    requires before.Some? ==> newest < before.value && forall t <- rows :: newest < t < before.value ==> !rows[t].stable
    ensures Marked(WithCandles(rows, before, times, now), since) <==> SeamClosed(rows, before, newest, since)
  {
    var r := WithCandles(rows, before, times, now);
    AddedRows(rows, before, times, now, oldest, newest);
    if SeamClosed(rows, before, newest, since) {
      forall x, y | since <= x < y - MINUTE && Consecutive(r, x, y)
        ensures r[y].gap
      {
        MarkedAfterAdding(rows, before, times, now, oldest, newest, since, x, y);
      }
    }
    if Marked(r, since) {
      forall y | since <= newest < y - MINUTE && FirstStableAfter(rows, newest, y)
        ensures rows[y].gap && before != Some(y)
      {
        assert Consecutive(r, newest, y);
      }
    }
  }

  lemma MarkedAfterAdding(rows: Rows, before: Option<int>, times: seq<int>, now: int, oldest: int, newest: int,
                          since: int,
                          x: int, y: int)
    requires OnMinutes(rows) && SettledOnly(rows, now) && Marked(rows, since)
    requires IsMinuteRun(times, oldest, newest)
    requires before.Some? ==> newest < before.value && forall t <- rows :: newest < t < before.value ==> !rows[t].stable
    requires SeamClosed(rows, before, newest, since)
    requires since <= x < y - MINUTE && Consecutive(WithCandles(rows, before, times, now), x, y)
    ensures WithCandles(rows, before, times, now)[y].gap
  {
    hide OnMinutes, InRun, WithCandles, SettledOnly;
    var r := WithCandles(rows, before, times, now);
    AddedRows(rows, before, times, now, oldest, newest);
    if y < oldest {
      assert Consecutive(rows, x, y);
    } else if newest < y {
      assert Stable(r, newest);
      if x > newest {
        assert Consecutive(rows, x, y);
      }
    } else if y > oldest {
      NotConsecutive(r, x, y - MINUTE, y);
    } else {
      assert Stable(rows, oldest - MINUTE) ==> Stable(r, oldest - MINUTE);
    }
  }

  lemma NotConsecutive(rows: Rows, x: int, m: int, y: int)
    requires x < m < y && Stable(rows, m)
    ensures !Consecutive(rows, x, y)
  {
  }

  lemma RunEnds(times: seq<int>, oldest: int, newest: int)
    requires IsMinuteRun(times, oldest, newest)
    ensures InRun(oldest, oldest, newest) && InRun(newest, oldest, newest)
  {
    assert times[0] in times;
  }

  /** Inside a run, the minute before a stable one is stable. */
  lemma StableBelow(rows: Rows, before: Option<int>, times: seq<int>, now: int, oldest: int, newest: int, t: int)
    requires OnMinutes(rows) && IsMinuteRun(times, oldest, newest)
    requires before.Some? ==> newest < before.value
    requires oldest < t <= newest && Stable(WithCandles(rows, before, times, now), t)
    ensures Stable(WithCandles(rows, before, times, now), t - MINUTE)
  {
    hide WithCandles, IsMinuteRun;
    UpsertedRow(rows, before, times, now, oldest, newest, t);
    RunEnds(times, oldest, newest);
    assert t % MINUTE == 0;
    MinuteAfterStart(oldest, t);
    UpsertedRow(rows, before, times, now, oldest, newest, t - MINUTE);
  }

  lemma MinuteAfterStart(oldest: int, t: int)
    requires oldest % MINUTE == 0 && t % MINUTE == 0 && oldest < t
    ensures oldest <= t - MINUTE && (t - MINUTE) % MINUTE == 0
  {
  }

  /** The rows after adding a run, from the oldest candle of the run upwards and downwards. */
  lemma AddedRows(rows: Rows, before: Option<int>, times: seq<int>, now: int, oldest: int, newest: int)
    requires OnMinutes(rows) && SettledOnly(rows, now) && IsMinuteRun(times, oldest, newest)
    requires before.Some? ==> newest < before.value
    ensures var r := WithCandles(rows, before, times, now);
      && (forall t :: t < oldest || newest < t ==>
            && (t in r <==> t in rows) && (Stable(r, t) <==> Stable(rows, t))
            && (t in r ==> r[t].gap == (rows[t].gap && before != Some(t))))
      && (forall t :: oldest < t <= newest && Stable(r, t) ==> Stable(r, t - MINUTE))
      && (forall t :: newest < t && Stable(rows, t) ==> Stable(r, newest))
      && oldest in r && (r[oldest].gap <==> !Stable(rows, oldest - MINUTE))
  {
    hide WithCandles, OnMinutes, IsMinuteRun;
    var r := WithCandles(rows, before, times, now);
    RunEnds(times, oldest, newest);
    forall t
      ensures t < oldest || newest < t ==>
        && (t in r <==> t in rows) && (Stable(r, t) <==> Stable(rows, t))
        && (t in r ==> r[t].gap == (rows[t].gap && before != Some(t)))
    {
      UpsertedRow(rows, before, times, now, oldest, newest, t);
    }
    forall t
      ensures oldest < t <= newest && Stable(r, t) ==> Stable(r, t - MINUTE)
    {
      if oldest < t <= newest && Stable(r, t) {
        StableBelow(rows, before, times, now, oldest, newest, t);
      }
    }
    UpsertedRow(rows, before, times, now, oldest, newest, oldest);
    UpsertedRow(rows, before, times, now, oldest, newest, newest);
  }

  // ----- Batches with holes, and flags cleared alone

  /** Nothing ends unmarked at `y`: the minute before is stable, or no stable row lies before it at all. */
  ghost predicate Reaches(rows: Rows, since: int, y: int) {
    Stable(rows, y - MINUTE) || forall x <- rows :: since <= x < y ==> !rows[x].stable
  }

  ghost predicate EveryUnflaggedReaches(rows: Rows, since: int) {
    forall y <- rows :: rows[y].stable && !rows[y].gap ==> Reaches(rows, since, y)
  }

  lemma MarkedReaches(rows: Rows, since: int, y: int)
    requires OnMinutes(rows) && Marked(rows, since)
    requires y in rows && rows[y].stable && !rows[y].gap
    ensures Reaches(rows, since, y)
  {
    var before := StableBefore(rows, y);
    forall x <- rows | since <= x < y && rows[x].stable
      ensures Stable(rows, y - MINUTE)
    {
      assert x in before;
      var nearest := Newest(before);
      forall t <- rows | nearest < t < y
        ensures !rows[t].stable
      {
        assert rows[t].stable ==> t in before;
      }
      assert Consecutive(rows, nearest, y);
      assert nearest >= y - MINUTE;
      MinuteBefore(nearest, y);
    }
  }

  lemma MinuteBefore(x: int, y: int)
    requires x % MINUTE == 0 && y % MINUTE == 0 && y - MINUTE <= x < y
    ensures x == y - MINUTE
  {
  }

  /** Holes are marked exactly when nothing ends unmarked at an unflagged row. */
  lemma MarkedIff(rows: Rows, since: int)
    requires OnMinutes(rows)
    ensures Marked(rows, since) <==> EveryUnflaggedReaches(rows, since)
  {
    hide OnMinutes, Reaches;
    if Marked(rows, since) {
      forall y <- rows | rows[y].stable && !rows[y].gap
        ensures Reaches(rows, since, y)
      {
        MarkedReaches(rows, since, y);
      }
    }
    if EveryUnflaggedReaches(rows, since) {
      forall x, y | since <= x < y - MINUTE && Consecutive(rows, x, y)
        ensures rows[y].gap
      {
        HoleDoesNotReach(rows, since, x, y);
      }
    }
  }

  lemma HoleDoesNotReach(rows: Rows, since: int, x: int, y: int)
    requires since <= x < y - MINUTE && Consecutive(rows, x, y)
    ensures !Reaches(rows, since, y)
  {
  }

  /** Clearing the flag of a row after an empty page keeps holes marked exactly when no hole ends there. */
  lemma ClearingKeepsMarkedIff(rows: Rows, time: int, since: int)
    requires OnMinutes(rows) && Marked(rows, since)
    ensures Marked(ClearGap(rows, time), since) <==> (Stable(rows, time) ==> Reaches(rows, since, time))
  {
    hide Reaches, Marked, OnMinutes;
    var r := ClearGap(rows, time);
    MarkedIff(rows, since);
    ClearedReaches(rows, time, since);
    MarkedIff(r, since);
  }

  lemma ClearedReaches(rows: Rows, time: int, since: int)
    ensures OnMinutes(rows) ==> OnMinutes(ClearGap(rows, time))
    ensures forall y :: Reaches(ClearGap(rows, time), since, y) <==> Reaches(rows, since, y)
  {
    var r := ClearGap(rows, time);
    assert forall t :: t in r <==> t in rows;
    assert forall t <- rows :: r[t].stable == rows[t].stable;
  }

  /** Whether a minute is stable once a batch is stored. */
  predicate StableAfter(rows: Rows, times: seq<int>, now: int, t: int) {
    if t in times then t <= now - STABLE_AGE else Stable(rows, t)
  }

  /** A row other than the oldest of the batch which has no gap flag after it, and whose past the batch may change. */
  predicate LeftUnflagged(rows: Rows, before: Option<int>, times: seq<int>, y: int)
    requires times != []
  {
    var oldest := times[|times| - 1];
    && y != oldest
    && (y in times || (y in rows && (before == Some(y) || (oldest < y && !rows[y].gap))))
  }

  ghost predicate ReachesAfter(rows: Rows, times: seq<int>, now: int, since: int, y: int) {
    StableAfter(rows, times, now, y - MINUTE)
    || forall x | x in rows || x in times :: since <= x < y ==> !StableAfter(rows, times, now, x)
  }

  /** At every row the batch leaves unflagged, either the minute before is stable then or nothing before it is. */
  ghost predicate SeamsClosed(rows: Rows, before: Option<int>, times: seq<int>, now: int, since: int)
    requires times != []
  {
    forall y | y in rows || y in times ::
      LeftUnflagged(rows, before, times, y) && StableAfter(rows, times, now, y)
      ==> ReachesAfter(rows, times, now, since, y)
  }

  lemma {:induction false} BatchShape(times: seq<int>)
    requires times != [] && BatchFault(times).None?
    ensures forall t <- times :: t % MINUTE == 0 && times[|times| - 1] <= t
    decreases |times|
  {
    if |times| > 1 {
      BatchShape(times[1..]);
      assert times == [times[0]] + times[1..];
      assert times[1] in times[1..];
    } else {
      assert times == [times[0]];
    }
  }

  /** What a batch leaves of every row. */
  lemma StoredRow(rows: Rows, before: Option<int>, times: seq<int>, now: int, t: int)
    requires times != []
    ensures var r, oldest := WithCandles(rows, before, times, now), times[|times| - 1];
      && (t in r <==> t in rows || t in times)
      && (Stable(r, t) <==> StableAfter(rows, times, now, t))
      && (t in times ==> (r[t].gap <==> t == oldest && !Stable(rows, oldest - MINUTE)))
      && (t in rows && t !in times ==> (r[t].gap <==> rows[t].gap && before != Some(t)))
  {
    assert Stable(rows, times[|times| - 1] - MINUTE)
      <==> Stable(if before.Some? then ClearGap(rows, before.value) else rows, times[|times| - 1] - MINUTE);
  }

  lemma StoredReaches(rows: Rows, before: Option<int>, times: seq<int>, now: int, since: int, y: int)
    requires times != []
    ensures Reaches(WithCandles(rows, before, times, now), since, y) <==> ReachesAfter(rows, times, now, since, y)
  {
    hide WithCandles, StableAfter;
    var r := WithCandles(rows, before, times, now);
    forall x
      ensures x in r <==> x in rows || x in times
      ensures Stable(r, x) <==> StableAfter(rows, times, now, x)
    {
      StoredRow(rows, before, times, now, x);
    }
  }

  lemma StoredOnMinutes(rows: Rows, before: Option<int>, times: seq<int>, now: int)
    requires OnMinutes(rows) && times != [] && BatchFault(times).None?
    ensures OnMinutes(WithCandles(rows, before, times, now))
  {
    hide WithCandles, BatchFault;
    BatchShape(times);
    forall t <- WithCandles(rows, before, times, now)
      ensures t % MINUTE == 0
    {
      StoredRow(rows, before, times, now, t);
    }
  }

  /** Below the batch, and at its oldest row, nothing that was marked is lost. */
  lemma OtherRowsReach(rows: Rows, before: Option<int>, times: seq<int>, now: int, since: int, y: int)
    requires OnMinutes(rows) && Marked(rows, since)
    requires times != [] && BatchFault(times).None?
    requires y in rows || y in times
    requires !LeftUnflagged(rows, before, times, y) && StableAfter(rows, times, now, y)
    requires !WithCandles(rows, before, times, now)[y].gap
    ensures ReachesAfter(rows, times, now, since, y)
  {
    hide WithCandles, BatchFault, Marked, OnMinutes;
    var oldest := times[|times| - 1];
    BatchShape(times);
    StoredRow(rows, before, times, now, y);
    if y == oldest {
      assert Stable(rows, oldest - MINUTE);
    } else {
      assert y < oldest && y !in times && !rows[y].gap;
      MarkedReaches(rows, since, y);
    }
  }

  /**
   Storing any batch that is accepted, with or without holes in it, keeps every hole marked exactly
   when the seams above its oldest row are closed.
   */
  lemma AddingKeepsMarkedIff(rows: Rows, before: Option<int>, times: seq<int>, now: int, since: int)
    requires OnMinutes(rows) && Marked(rows, since)
    requires times != [] && BatchFault(times).None?
    ensures Marked(WithCandles(rows, before, times, now), since) <==> SeamsClosed(rows, before, times, now, since)
  {
    hide WithCandles, BatchFault, Marked, OnMinutes, Reaches, ReachesAfter, LeftUnflagged, StableAfter;
    var r := WithCandles(rows, before, times, now);
    StoredOnMinutes(rows, before, times, now);
    MarkedIff(r, since);
    forall y | y in rows || y in times
      ensures y in r && (r[y].stable <==> StableAfter(rows, times, now, y))
      ensures Reaches(r, since, y) <==> ReachesAfter(rows, times, now, since, y)
      ensures LeftUnflagged(rows, before, times, y) && StableAfter(rows, times, now, y) ==> !r[y].gap
      ensures !LeftUnflagged(rows, before, times, y) && StableAfter(rows, times, now, y) && !r[y].gap
           ==> ReachesAfter(rows, times, now, since, y)
    {
      StoredRow(rows, before, times, now, y);
      StoredReaches(rows, before, times, now, since, y);
      if LeftUnflagged(rows, before, times, y) {
        UnflaggedHasNoGap(rows, before, times, now, y);
      }
      if !LeftUnflagged(rows, before, times, y) && StableAfter(rows, times, now, y) && !r[y].gap {
        OtherRowsReach(rows, before, times, now, since, y);
      }
    }
    forall y <- r
      ensures y in rows || y in times
    {
      StoredRow(rows, before, times, now, y);
    }
  }

  lemma UnflaggedHasNoGap(rows: Rows, before: Option<int>, times: seq<int>, now: int, y: int)
    requires times != [] && LeftUnflagged(rows, before, times, y)
    ensures y in WithCandles(rows, before, times, now) && !WithCandles(rows, before, times, now)[y].gap
  {
    hide WithCandles;
    StoredRow(rows, before, times, now, y);
  }

  lemma NoFault()
    ensures BatchFault([]).None?
  {
  }

  lemma BatchFaultAt(times: seq<int>, i: nat)
    requires i < |times| && BatchFault(times) == BatchFault(times[i..])
    ensures times[i..] == [times[i]] + times[i + 1..]
    ensures times[i] % MINUTE == 0 && (i + 1 < |times| ==> times[i + 1] < times[i])
         ==> BatchFault(times) == BatchFault(times[i + 1..])
    ensures times[i] % MINUTE != 0 ==> BatchFault(times) == Some(NotRoundedToMinute)
    ensures times[i] % MINUTE == 0 && i + 1 < |times| && times[i + 1] >= times[i]
         ==> BatchFault(times) == Some(NotOrderedByTimeDesc)
  {
    assert times[i..][1..] == times[i + 1..];
  }

  /** What a page of candles was asked for. */
  datatype DownloadRange = Latest | UpperBound(from: int) | Gap(from: int, until: int) | LowerBound(until: int) {
    function End(): Option<int> {
      if Gap? || LowerBound? then Some(until) else None
    }
  }

  /** When a downloaded page leaves every hole marked: an empty one only clears the flag of the gap it was asked for. */
  ghost predicate KeepsMarked(rows: Rows, range: DownloadRange, page: seq<int>, now: int, since: int) {
    if page != [] then SeamsClosed(rows, range.End(), page, now, since)
    else range.Gap? && Stable(rows, range.until) ==> Reaches(rows, since, range.until)
  }

  /** The table, changed in place by whole-table updates. */
  class OhlcCandlesRepo {
    var rows: Rows

    constructor ()
      ensures rows == map[]
    {
      rows := map[];
    }

    /** Rejects a faulty batch and changes nothing, or stores it. */
    method AddCandles(before: Option<int>, newCandles: seq<int>, now: int) returns (r: Result<()>)
      modifies this
      ensures r == match BatchFault(newCandles) case None => Ok(()) case Some(error) => Err(error)
      ensures rows == if r.Ok? then WithCandles(old(rows), before, newCandles, now) else old(rows)
    {
      if newCandles == [] {
        return Ok(());
      }
      var last := |newCandles| - 1;
      for i := 0 to last
        invariant unchanged(this)
        invariant BatchFault(newCandles) == BatchFault(newCandles[i..])
      {
        BatchFaultAt(newCandles, i);
        if newCandles[i] % MINUTE != 0 {
          return Err(NotRoundedToMinute);
        }
        if newCandles[i + 1] >= newCandles[i] {
          return Err(NotOrderedByTimeDesc);
        }
      }
      BatchFaultAt(newCandles, last);
      if newCandles[last] % MINUTE != 0 {
        return Err(NotRoundedToMinute);
      }
      if before.Some? {
        rows := ClearGap(rows, before.value);
      }
      rows := Upserted(rows, newCandles, now);
      r := Ok(());
    }

    method RemoveGapFlag(time: int)
      modifies this
      ensures rows == ClearGap(old(rows), time)
    {
      rows := ClearGap(rows, time);
    }

    /**
     Stores a page. An empty one is an error below the history and otherwise clears the flag of the gap.
     Either way the table keeps its holes marked exactly under the condition named.
     */
    method PartialDownload(range: DownloadRange, page: seq<int>, now: int, ghost since: int) returns (r: Result<()>)
      modifies this
      ensures r == if BatchFault(page).Some? then Err(BatchFault(page).value)
                   else if page == [] && range.LowerBound? then Err(NothingBeforeHistoryStart) else Ok(())
      ensures r.Err? ==> rows == old(rows)
      ensures r.Ok? && page != [] ==> rows == WithCandles(old(rows), range.End(), page, now)
      ensures r.Ok? && page == [] ==> rows == if range.Gap? then ClearGap(old(rows), range.until) else old(rows)
      ensures r.Ok? && OnMinutes(old(rows)) && Marked(old(rows), since) ==>
        (Marked(rows, since) <==> KeepsMarked(old(rows), range, page, now, since))
    {
      hide OnMinutes, Marked, SeamsClosed, Reaches, ClearGap, Upserted, BatchFault;
      NoFault();
      r := AddCandles(range.End(), page, now);
      if r.Err? {
        return r;
      }
      if page == [] {
        if range.LowerBound? {
          return Err(NothingBeforeHistoryStart);
        }
        if range.Gap? {
          RemoveGapFlag(range.until);
        }
      }
      if OnMinutes(old(rows)) && Marked(old(rows), since) {
        if page != [] {
          AddingKeepsMarkedIff(old(rows), range.End(), page, now, since);
        } else if range.Gap? {
          ClearingKeepsMarkedIff(old(rows), range.until, since);
        }
      }
    }

    method FlagMissingCandles(cutoff: int)
      modifies this
      ensures rows == Flagged(old(rows), cutoff)
      ensures Marked(rows, cutoff) && Flagged(rows, cutoff) == rows
    {
      var gapAfterTimes := OpenGaps(rows, cutoff);
      if gapAfterTimes == {} {
        NothingOpen(rows, cutoff);
      } else {
        rows := Unsettle(rows, cutoff, gapAfterTimes);
        rows := MarkSixth(rows, cutoff, gapAfterTimes);
      }
      rows := MarkAfterUnstable(rows, cutoff);
      FlaggedIsMarked(old(rows), cutoff);
      FlaggingIsIdempotent(old(rows), cutoff);
    }
  }

  lemma NothingOpen(rows: Rows, cutoff: int)
    ensures Unsettle(rows, cutoff, {}) == rows && MarkSixth(rows, cutoff, {}) == rows
  {
  }
}
