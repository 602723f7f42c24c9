/**
 Lookback configuration, the slices evaluators see, and why the shared buffer gives every evaluator
 exactly its own window of fully covered buckets.
 */
module Lookbacks {
  import opened Basics
  import opened Market
  import opened Consolidator

  datatype Lookback = Lookback(seconds: int, period: nat) {
    predicate Valid() {
      seconds > 0 && seconds % MINUTE == 0 && period >= 1
    }

    function Duration(): int {
      period * seconds
    }
  }

  // ----- Merging the lookbacks of several evaluators or operators

  ghost predicate AllValid(lookbacks: seq<Option<Lookback>>) {
    forall l <- lookbacks :: l.Some? ==> l.value.Valid()
  }

  /** `periods` maps each resolution in use to the largest period asked of it. */
  ghost predicate IsMaxPeriods(periods: map<int, nat>, lookbacks: seq<Option<Lookback>>) {
    && (forall l <- lookbacks :: l.Some? ==> l.value.seconds in periods && l.value.period <= periods[l.value.seconds])
    && (forall s <- periods :: Some(Lookback(s, periods[s])) in lookbacks)
  }

  /** `longest` is the first of the lookbacks than which none lasts longer. */
  ghost predicate IsLongest(longest: Option<Lookback>, lookbacks: seq<Option<Lookback>>) {
    && (forall l <- lookbacks :: l.Some? ==> longest.Some? && l.value.Duration() <= longest.value.Duration())
    && (longest.Some? ==> exists i :: 0 <= i < |lookbacks| && IsFirstLongest(i, longest.value, lookbacks))
  }

  ghost predicate IsFirstLongest(i: nat, longest: Lookback, lookbacks: seq<Option<Lookback>>)
    requires i < |lookbacks|
  {
    && lookbacks[i] == Some(longest)
    && forall j :: 0 <= j < i && lookbacks[j].Some? ==> lookbacks[j].value.Duration() < longest.Duration()
  }

  lemma MaxPeriodsNext(periods: map<int, nat>, lookbacks: seq<Option<Lookback>>, next: Option<Lookback>)
    requires IsMaxPeriods(periods, lookbacks)
    ensures var raised := next.Some?
         && (next.value.seconds !in periods || next.value.period > periods[next.value.seconds]);
      IsMaxPeriods(if raised then periods[next.value.seconds := next.value.period] else periods, lookbacks + [next])
  {
    var whole := lookbacks + [next];
    assert whole[|lookbacks|] == next;
    assert forall l <- lookbacks :: l in whole;
    assert forall l <- whole :: l in lookbacks || l == next;
  }

  lemma LongestNext(longest: Option<Lookback>, lookbacks: seq<Option<Lookback>>, next: Option<Lookback>)
    requires IsLongest(longest, lookbacks)
    ensures var longer := next.Some? && (longest.None? || longest.value.Duration() < next.value.Duration());
      IsLongest(if longer then next else longest, lookbacks + [next])
  {
    hide Lookback.Duration;
    var whole := lookbacks + [next];
    assert forall l <- whole :: l in lookbacks || l == next;
    if next.Some? && (longest.None? || longest.value.Duration() < next.value.Duration()) {
      forall j | 0 <= j < |lookbacks| && whole[j].Some?
        ensures whole[j].value.Duration() < next.value.Duration()
      {
        assert whole[j] == lookbacks[j] && lookbacks[j] in lookbacks;
      }
      assert IsFirstLongest(|lookbacks|, next.value, whole);
    } else if longest.Some? {
      var k :| 0 <= k < |lookbacks| && IsFirstLongest(k, longest.value, lookbacks);
      assert IsFirstLongest(k, longest.value, whole);
    }
  }

  lemma NothingToMerge()
    ensures IsMaxPeriods(map[], []) && IsLongest(None, [])
  {
  }

  method MergeLookbacks(lookbacks: seq<Option<Lookback>>) returns (periods: map<int, nat>, longest: Option<Lookback>)
    ensures IsMaxPeriods(periods, lookbacks)
    ensures IsLongest(longest, lookbacks)
  {
    hide IsMaxPeriods, IsLongest, Lookback.Duration;
    periods, longest := map[], None;
    NothingToMerge();
    var i := 0;
    assert lookbacks[..0] == [];
    while i < |lookbacks|
      invariant 0 <= i <= |lookbacks|
      invariant IsMaxPeriods(periods, lookbacks[..i])
      invariant IsLongest(longest, lookbacks[..i])
    {
      assert lookbacks[..i + 1] == lookbacks[..i] + [lookbacks[i]];
      MaxPeriodsNext(periods, lookbacks[..i], lookbacks[i]);
      LongestNext(longest, lookbacks[..i], lookbacks[i]);
      if lookbacks[i].Some? {
        var l := lookbacks[i].value;
        if l.seconds !in periods || l.period > periods[l.seconds] {
          periods := periods[l.seconds := l.period];
        }
        if longest.None? || longest.value.Duration() < l.Duration() {
          longest := Some(l);
        }
      }
      i := i + 1;
    }
    assert lookbacks[..i] == lookbacks;
  }

  // ----- How flooring moves from minute to minute

  /** The minute after `t` stays in the bucket of `t` or starts the next one. */
  ghost predicate StepsAt(floor: int -> int, seconds: int, t: int) {
    && 0 <= floor(t) <= t <= floor(t) + seconds - MINUTE
    && floor(t + MINUTE) == (if t + MINUTE == floor(t) + seconds then floor(t) + seconds else floor(t))
  }

  /** Buckets are `seconds` long. */
  ghost predicate StepsBy(floor: int -> int, seconds: int) {
    forall t: nat {:trigger StepsAt(floor, seconds, t)} :: t % MINUTE == 0 ==> StepsAt(floor, seconds, t)
  }

  lemma BucketIsMinute(q: int, seconds: int)
    requires seconds % MINUTE == 0
    ensures (q * seconds) % MINUTE == 0
  {
    var m := seconds / MINUTE;
    assert seconds == m * MINUTE;
    ScaledMinutes(q, m);
  }

  lemma ScaledMinutes(q: int, m: int)
    ensures (q * (m * MINUTE)) % MINUTE == 0
  {
    assert q * (m * MINUTE) == (q * m) * MINUTE;
    WholeMinutes(q * m);
  }

  lemma WholeMinutes(n: int)
    ensures (n * MINUTE) % MINUTE == 0
  {
  }

  lemma MinuteBelow(time: int, limit: int)
    requires time % MINUTE == 0 && limit % MINUTE == 0 && time < limit
    ensures time <= limit - MINUTE
  {
  }

  lemma BucketOf(time: nat, seconds: int, q: int)
    requires seconds > 0 && q >= 0 && q * seconds <= time < q * seconds + seconds
    ensures FloorToResolution(time, seconds) == q * seconds
  {
    QuotientIs(time, seconds, q);
  }

  lemma NextMinute(time: nat, seconds: int)
    requires seconds > 0 && seconds % MINUTE == 0 && time % MINUTE == 0
    ensures var bucket := FloorToResolution(time, seconds);
      && 0 <= bucket <= time <= bucket + seconds - MINUTE
      && FloorToResolution(time + MINUTE, seconds)
         == (if time + MINUTE == bucket + seconds then bucket + seconds else bucket)
  {
    hide FloorToResolution;
    var q := time / seconds;
    DivSplit(time, seconds);
    MulMonotone(0, q, seconds);
    BucketOf(time, seconds, q);
    BucketIsMinute(q, seconds);
    BucketIsMinute(q + 1, seconds);
    Distribute(q, seconds);
    MinuteBelow(time, (q + 1) * seconds);
    if time + MINUTE == (q + 1) * seconds {
      BucketOf(time + MINUTE, seconds, q + 1);
    } else {
      BucketOf(time + MINUTE, seconds, q);
    }
  }

  lemma Distribute(q: int, seconds: int)
    ensures (q + 1) * seconds == q * seconds + seconds
  {
  }

  lemma FloorStepsBy(seconds: int)
    requires seconds > 0 && seconds % MINUTE == 0
    ensures StepsBy(Floor(seconds), seconds)
  {
    var floor := Floor(seconds);
    forall t: nat | t % MINUTE == 0
      ensures StepsAt(floor, seconds, t)
    {
      NextMinute(t, seconds);
    }
  }

  // ----- Consolidating gap-free minutes

  /** Consecutive minutes from a start. */
  ghost predicate Minutes(cs: seq<Candle>, from: int) {
    forall i :: 0 <= i < |cs| ==> cs[i].time == from + MINUTE * i
  }

  /** Every minute from `from` to `to`, both included. */
  ghost predicate Span(group: seq<Candle>, from: int, to: int) {
    && group != []
    && Minutes(group, from)
    && group[|group| - 1].time == to
  }

  /** The start of group `i` when the first minute is `from` and its bucket `first`. */
  function GroupStart(i: nat, from: int, first: int, seconds: int): int {
    if i == 0 then from else first + i * seconds
  }

  function GroupEnd(i: nat, first: int, seconds: int): int {
    first + i * seconds + seconds - MINUTE
  }

  /** Group `i` spans the `i`-th bucket after the first, the last one up to the newest minute. */
  ghost predicate MinuteGroups(gs: seq<seq<Candle>>, from: int, floor: int -> int, seconds: int, newest: int) {
    var first, n := floor(from), |gs|;
    && n > 0
    && (forall i :: 0 <= i < n - 1 ==> Span(gs[i], GroupStart(i, from, first, seconds), GroupEnd(i, first, seconds)))
    && Span(gs[n - 1], GroupStart(n - 1, from, first, seconds), newest)
    && floor(gs[n - 1][0].time) == floor(newest) == first + (n - 1) * seconds
  }

  lemma {:induction false} AddMinute(gs: seq<seq<Candle>>, from: int, floor: int -> int, seconds: int, newest: nat,
                                     c: Candle)
    requires StepsBy(floor, seconds)
    requires newest % MINUTE == 0 && c.time == newest + MINUTE
    requires MinuteGroups(gs, from, floor, seconds, newest)
    ensures MinuteGroups(AddToGroups(gs, c, floor), from, floor, seconds, c.time)
  {
    var first, n := floor(from), |gs|;
    var last := gs[n - 1];
    assert StepsAt(floor, seconds, newest);
    if floor(c.time) == floor(newest) {
      assert Span(last + [c], GroupStart(n - 1, from, first, seconds), c.time);
    } else {
      assert n * seconds == (n - 1) * seconds + seconds;
      assert Span([c], GroupStart(n, from, first, seconds), c.time);
      assert newest == GroupEnd(n - 1, first, seconds);
    }
  }

  lemma OneMinute(c: Candle, floor: int -> int, seconds: int)
    ensures Groups([c], floor) == [[c]]
    ensures MinuteGroups([[c]], c.time, floor, seconds, c.time)
  {
    assert [c][..0] == [];
    assert 0 * seconds == 0;
    assert Span([c], c.time, c.time);
  }

  /** Consolidating consecutive minutes yields consecutive, fully covered buckets. */
  lemma {:induction false} GroupsOfMinutes(cs: seq<Candle>, from: nat, floor: int -> int, seconds: int)
    requires StepsBy(floor, seconds) && from % MINUTE == 0
    requires cs != [] && Minutes(cs, from)
    ensures MinuteGroups(Groups(cs, floor), from, floor, seconds, cs[|cs| - 1].time)
    decreases |cs|
  {
    var front, c := cs[..|cs| - 1], cs[|cs| - 1];
    if front == [] {
      assert cs == [c];
      OneMinute(c, floor, seconds);
    } else {
      GroupsOfMinutes(front, from, floor, seconds);
      AddMinute(Groups(front, floor), from, floor, seconds, front[|front| - 1].time, c);
    }
  }

  // ----- What an evaluator sees

  /** The last `period` candles, as the operator slices them. */
  function Slice(candles: seq<Candle>, period: nat): seq<Candle> {
    candles[Max(0, |candles| - period)..]
  }

  /** Start of the `k`-th of the `period` buckets that end with `last`. */
  function WindowStart(last: int, seconds: int, period: nat, k: nat): int {
    last - (period - 1 - k) * seconds
  }

  lemma {:induction false} RowsOfGroups(gs: seq<seq<Candle>>, floor: int -> int, i: nat)
    ensures |Rows(gs, floor)| == |gs|
    ensures i < |gs| ==> Rows(gs, floor)[i] == GroupBucket(gs[i], floor).ToRow(true)
    decreases |gs|
  {
    if gs != [] {
      RowsOfGroups(gs[..|gs| - 1], floor, i);
    }
  }

  /** A slice of a shared buffer is what a consolidator of the slice's own period would hold. */
  lemma SharedSliceIsDedicated(shared: seq<Candle>, own: seq<Candle>, current: Option<Bucket>,
                               gs: seq<seq<Candle>>, floor: int -> int, maxPeriod: nat, period: nat)
    requires period <= maxPeriod
    requires Mirrors(shared, current, gs, floor, maxPeriod)
    requires Mirrors(own, current, gs, floor, period)
    ensures Slice(shared, period) == own
  {
    hide Rows, OpenRows, Slice, Suffix;
    SliceOfSuffix(if current.None? then Rows(gs, floor) else OpenRows(gs, floor), maxPeriod, period);
  }

  lemma SliceOfSuffix(rows: seq<Candle>, maxPeriod: nat, period: nat)
    requires period <= maxPeriod
    ensures Slice(Suffix(rows, maxPeriod), period) == Suffix(rows, period)
  {
  }

  lemma MirrorsLength(candles: seq<Candle>, current: Option<Bucket>, gs: seq<seq<Candle>>, floor: int -> int,
                      period: nat)
    requires Mirrors(candles, current, gs, floor, period)
    ensures |candles| == Min(|gs|, period)
  {
    RowsOfGroups(gs, floor, 0);
    if gs != [] {
      RowsOfGroups(gs[..|gs| - 1], floor, 0);
    }
  }

  /**
   A raw operator is handed the shared buffer unsliced. That is its own window exactly when no other
   operator asked for a longer period or fewer buckets than its own period have been seen.
   */
  lemma RawOperatorSeesItsWindowIff(candles: seq<Candle>, current: Option<Bucket>, gs: seq<seq<Candle>>,
                                    floor: int -> int, maxPeriod: nat, period: nat)
    requires Mirrors(candles, current, gs, floor, maxPeriod)
    ensures candles == Slice(candles, period) <==> maxPeriod <= period || |gs| <= period
    ensures |candles| <= period <==> maxPeriod <= period || |gs| <= period
  {
    hide Mirrors;
    MirrorsLength(candles, current, gs, floor, maxPeriod);
    if |candles| <= period {
      assert Slice(candles, period) == candles;
    } else {
      assert |Slice(candles, period)| == period;
    }
  }

  lemma TwoGroups(c0: Candle, c1: Candle, floor: int -> int)
    requires floor(c0.time) != floor(c1.time)
    ensures Groups([c0, c1], floor) == [[c0], [c1]]
  {
    hide Groups;
    OneMinute(c0, floor, MINUTE);
    GroupsSnoc([c0], c1, floor);
    assert [c0] + [c1] == [c0, c1];
  }

  /** Two candles of different buckets in a buffer of two rows: an operator that asked for one row sees both. */
  lemma RawOperatorSeesMore(candles: seq<Candle>, current: Option<Bucket>, c0: Candle, c1: Candle,
                            floor: int -> int)
    requires floor(c0.time) != floor(c1.time)
    requires Mirrors(candles, current, Groups([c0, c1], floor), floor, 2)
    ensures |candles| == 2 && candles != Slice(candles, 1)
  {
    hide Mirrors, Groups;
    TwoGroups(c0, c1, floor);
    RawOperatorSeesItsWindowIff(candles, current, [[c0], [c1]], floor, 2, 1);
    MirrorsLength(candles, current, [[c0], [c1]], floor, 2);
  }

  /** The row of group `i`; the newest is complete only when no bucket is in progress. */
  function RowAt(gs: seq<seq<Candle>>, floor: int -> int, i: nat, closed: bool): Candle
    requires i < |gs|
  {
    GroupBucket(gs[i], floor).ToRow(i < |gs| - 1 || closed)
  }

  lemma OpenRowAt(gs: seq<seq<Candle>>, floor: int -> int, i: nat)
    requires i < |gs|
    ensures |OpenRows(gs, floor)| == |gs|
    ensures OpenRows(gs, floor)[i] == RowAt(gs, floor, i, false)
  {
    RowsOfGroups(gs[..|gs| - 1], floor, i);
  }

  /** The rows that `Mirrors` compares the buffer with. */
  function AllRows(gs: seq<seq<Candle>>, floor: int -> int, closed: bool): seq<Candle>
    requires closed || gs != []
  {
    if closed then Rows(gs, floor) else OpenRows(gs, floor)
  }

  lemma AllRowsAt(gs: seq<seq<Candle>>, floor: int -> int, closed: bool, i: nat)
    requires i < |gs|
    ensures |AllRows(gs, floor, closed)| == |gs|
    ensures AllRows(gs, floor, closed)[i] == RowAt(gs, floor, i, closed)
  {
    if closed {
      RowsOfGroups(gs, floor, i);
    } else {
      OpenRowAt(gs, floor, i);
    }
  }

  /** What a row says about its group. It is stable once it is complete and all its candles are. */
  ghost predicate IsRowOf(row: Candle, group: seq<Candle>, bucket: int, complete: bool) {
    && row.time == bucket
    && (exists i: nat :: IsOpening(group, i) && row.open == group[i].open)
    && (exists i: nat :: IsClosing(group, i) && row.close == group[i].close)
    && (forall c <- group :: row.low <= c.low && c.high <= row.high)
    && (exists c <- group :: c.high == row.high)
    && (exists c <- group :: c.low == row.low)
    && row.volume == Volume(group)
    && (forall c <- group :: row.createdAt <= c.createdAt && c.updatedAt <= row.updatedAt)
    && (exists c <- group :: c.createdAt == row.createdAt)
    && (exists c <- group :: c.updatedAt == row.updatedAt)
    && (row.stable <==> complete && forall c <- group :: c.stable)
  }

  /** Every row of the buffer says so about its group; only the newest can be incomplete. */
  lemma RowsDescribeGroups(gs: seq<seq<Candle>>, floor: int -> int, closed: bool, i: nat)
    requires i < |gs| && gs[i] != [] && forall c <- gs[i] :: Representable(c)
    ensures |AllRows(gs, floor, closed)| == |gs|
    ensures IsRowOf(AllRows(gs, floor, closed)[i], gs[i], floor(gs[i][0].time), i < |gs| - 1 || closed)
  {
    hide AllRows, Representable, Summarises;
    AllRowsAt(gs, floor, closed, i);
    AccumulateSummarises(floor(gs[i][0].time), gs[i]);
    SummaryIsRow(Accumulate(floor(gs[i][0].time), gs[i]), gs[i], i < |gs| - 1 || closed);
    AccumulatesBucket(floor(gs[i][0].time), gs[i]);
  }

  lemma SummaryIsRow(b: Bucket, group: seq<Candle>, complete: bool)
    requires Summarises(b, group)
    ensures IsRowOf(b.ToRow(complete), group, b.bucketTime, complete)
  {
    var i: nat :| IsOpening(group, i) && b.firstTime == group[i].time && b.open == group[i].open;
    var k: nat :| IsClosing(group, k) && b.lastTime == group[k].time && b.close == group[k].close;
  }

  lemma AccumulatesBucket(bucket: int, group: seq<Candle>)
    ensures Accumulate(bucket, group).bucketTime == bucket
    decreases |group|
  {
  }

  lemma MirrorsRows(candles: seq<Candle>, current: Option<Bucket>, gs: seq<seq<Candle>>, floor: int -> int, period: nat)
    requires Mirrors(candles, current, gs, floor, period) && gs != []
    ensures candles == Suffix(AllRows(gs, floor, current.None?), period)
  {
  }

  /** Row `k` of a slice is the row of the group that far from the end. */
  lemma SliceRow(rows: seq<Candle>, gs: seq<seq<Candle>>, floor: int -> int, closed: bool,
                 maxPeriod: nat, period: nat, k: nat)
    requires k < period <= maxPeriod && period <= |gs|
    requires rows == AllRows(gs, floor, closed)
    ensures |Slice(Suffix(rows, maxPeriod), period)| == period
    ensures Slice(Suffix(rows, maxPeriod), period)[k] == RowAt(gs, floor, |gs| - period + k, closed)
  {
    AllRowsAt(gs, floor, closed, |gs| - period + k);
    SliceIndex(rows, maxPeriod, period, k);
  }

  lemma SliceIndex(rows: seq<Candle>, maxPeriod: nat, period: nat, k: nat)
    requires k < period <= maxPeriod && period <= |rows|
    ensures |Slice(Suffix(rows, maxPeriod), period)| == period
    ensures Slice(Suffix(rows, maxPeriod), period)[k] == rows[|rows| - period + k]
  {
  }

  lemma EnoughGroups(gs: seq<seq<Candle>>, from: nat, floor: int -> int, seconds: int, newest: nat, period: nat)
    requires StepsBy(floor, seconds) && seconds > 0 && period >= 1 && from % MINUTE == 0
    requires MinuteGroups(gs, from, floor, seconds, newest)
    requires from <= WindowStart(floor(newest), seconds, period, 0)
    ensures |gs| >= period
  {
    var n := |gs|;
    assert StepsAt(floor, seconds, from);
    assert n * seconds == (n - 1) * seconds + seconds;
    LessFromProducts(period - 1, n, seconds);
  }

  /** The group of row `k` of a window is every minute of the `k`-th of its buckets, up to the newest minute. */
  ghost predicate IsWindowGroup(gs: seq<seq<Candle>>, floor: int -> int, seconds: int, period: nat, k: nat,
                                newest: int) {
    && k < period <= |gs|
    && var bucket := WindowStart(floor(newest), seconds, period, k);
       Span(gs[|gs| - period + k], bucket, if k == period - 1 then newest else bucket + seconds - MINUTE)
  }

  lemma WindowGroup(gs: seq<seq<Candle>>, from: nat, floor: int -> int, seconds: int, newest: nat, period: nat, k: nat)
    requires StepsBy(floor, seconds) && seconds > 0 && from % MINUTE == 0 && k < period <= |gs|
    requires MinuteGroups(gs, from, floor, seconds, newest)
    requires from <= WindowStart(floor(newest), seconds, period, 0)
    ensures IsWindowGroup(gs, floor, seconds, period, k, newest)
  {
    var first, n := floor(from), |gs|;
    var i := n - period + k;
    assert (n - 1) * seconds - (period - 1 - k) * seconds == i * seconds;
    assert StepsAt(floor, seconds, from);
    if i == 0 {
      assert (period - 1 - 0) * seconds == (n - 1) * seconds;
      assert 0 * seconds == 0;
    }
  }

  lemma WindowOfMinutes(pushed: seq<Candle>, from: nat, floor: int -> int, seconds: int, period: nat, k: nat)
    requires StepsBy(floor, seconds) && seconds > 0 && from % MINUTE == 0 && k < period
    requires pushed != [] && Minutes(pushed, from)
    requires from <= WindowStart(floor(pushed[|pushed| - 1].time), seconds, period, 0)
    ensures IsWindowGroup(Groups(pushed, floor), floor, seconds, period, k, pushed[|pushed| - 1].time)
  {
    var newest, gs := pushed[|pushed| - 1].time, Groups(pushed, floor);
    assert newest == from + MINUTE * (|pushed| - 1);
    GroupsOfMinutes(pushed, from, floor, seconds);
    assert |gs| >= period by {
      EnoughGroups(gs, from, floor, seconds, newest, period);
    }
    WindowGroup(gs, from, floor, seconds, newest, period, k);
  }

  /** The newest group holds the bucket of the newest candle. */
  lemma NewestGroup(cs: seq<Candle>, floor: int -> int)
    requires cs != []
    ensures var gs := Groups(cs, floor);
      && gs != [] && gs[|gs| - 1] != []
      && floor(gs[|gs| - 1][0].time) == floor(cs[|cs| - 1].time)
  {
  }

  /** Where the bucket changes, grouping splits. */
  lemma {:induction false} GroupsSplit(a: seq<Candle>, b: seq<Candle>, floor: int -> int)
    requires a != [] && b != [] ==> floor(a[|a| - 1].time) != floor(b[0].time)
    ensures Groups(a + b, floor) == Groups(a, floor) + Groups(b, floor)
    decreases |b|
  {
    hide Groups;
    NoGroups(floor);
    if b == [] {
      assert a + b == a;
    } else {
      var front, c := b[..|b| - 1], b[|b| - 1];
      assert a + b == (a + front) + [c] && b == front + [c];
      GroupsSplit(a, front, floor);
      GroupsSnoc(a + front, c, floor);
      GroupsSnoc(front, c, floor);
      AddAfter(a, front, c, floor);
    }
  }

  lemma AddAfter(a: seq<Candle>, b: seq<Candle>, c: Candle, floor: int -> int)
    requires a != [] && b == [] ==> floor(a[|a| - 1].time) != floor(c.time)
    ensures AddToGroups(Groups(a, floor) + Groups(b, floor), c, floor)
         == Groups(a, floor) + AddToGroups(Groups(b, floor), c, floor)
  {
    hide Groups, AddToGroups;
    var ga, gb := Groups(a, floor), Groups(b, floor);
    NoGroups(floor);
    if b != [] {
      NewestGroup(b, floor);
      AddToLater(ga, gb, c, floor);
    } else {
      if a != [] {
        NewestGroup(a, floor);
      }
      AddToEarlier(ga, c, floor);
    }
  }

  lemma AddToLater(ga: seq<seq<Candle>>, gb: seq<seq<Candle>>, c: Candle, floor: int -> int)
    requires gb != []
    ensures AddToGroups(ga + gb, c, floor) == ga + AddToGroups(gb, c, floor)
  {
    assert (ga + gb)[..|ga + gb| - 1] == ga + gb[..|gb| - 1];
  }

  lemma AddToEarlier(ga: seq<seq<Candle>>, c: Candle, floor: int -> int)
    requires ga != [] ==> ga[|ga| - 1] != [] && floor(ga[|ga| - 1][0].time) != floor(c.time)
    ensures AddToGroups(ga + [], c, floor) == ga + AddToGroups([], c, floor)
  {
    assert ga + [] == ga;
  }

  /** A window needs its own minutes only: whatever was pushed before lies in earlier buckets. */
  lemma WindowOfTail(early: seq<Candle>, tail: seq<Candle>, from: nat, floor: int -> int, seconds: int, period: nat,
                     k: nat)
    requires StepsBy(floor, seconds) && seconds > 0 && from % MINUTE == 0 && k < period
    requires tail != [] && Minutes(tail, from)
    requires from == WindowStart(floor(tail[|tail| - 1].time), seconds, period, 0)
    requires early != [] ==> floor(early[|early| - 1].time) != floor(from)
    ensures IsWindowGroup(Groups(early + tail, floor), floor, seconds, period, k, tail[|tail| - 1].time)
  {
    hide Groups, StepsBy, IsWindowGroup, WindowStart;
    assert tail[0].time == from;
    GroupsSplit(early, tail, floor);
    WindowOfMinutes(tail, from, floor, seconds, period, k);
    WindowGroupAfter(Groups(early, floor), Groups(tail, floor), floor, seconds, period, k, tail[|tail| - 1].time);
  }

  lemma WindowGroupAfter(early: seq<seq<Candle>>, gs: seq<seq<Candle>>, floor: int -> int, seconds: int, period: nat,
                         k: nat, newest: int)
    requires IsWindowGroup(gs, floor, seconds, period, k, newest)
    ensures IsWindowGroup(early + gs, floor, seconds, period, k, newest)
  {
    hide Span, WindowStart;
    assert (early + gs)[|early + gs| - period + k] == gs[|gs| - period + k];
  }

  /**
   The last candles of `pushed`, from `i` on, are the minutes of an evaluator's window and nothing else of
   its buckets.
   */
  ghost predicate EndsWithWindow(pushed: seq<Candle>, i: nat, floor: int -> int, seconds: int, period: nat) {
    && i < |pushed|
    && var from := WindowStart(floor(pushed[|pushed| - 1].time), seconds, period, 0);
       && from >= 0 && from % MINUTE == 0 && Minutes(pushed[i..], from)
       && (i > 0 ==> floor(pushed[i - 1].time) != floor(from))
  }

  lemma WindowOfEnd(pushed: seq<Candle>, i: nat, floor: int -> int, seconds: int, period: nat, k: nat)
    requires StepsBy(floor, seconds) && seconds > 0 && k < period
    requires EndsWithWindow(pushed, i, floor, seconds, period)
    ensures pushed != [] && IsWindowGroup(Groups(pushed, floor), floor, seconds, period, k, pushed[|pushed| - 1].time)
  {
    hide Minutes, StepsBy, IsWindowGroup, WindowStart, Groups;
    var from := WindowStart(floor(pushed[|pushed| - 1].time), seconds, period, 0);
    var early, tail := pushed[..i], pushed[i..];
    assert pushed == early + tail;
    WindowOfTail(early, tail, from, floor, seconds, period, k);
  }

  /**
   When the candles pushed end with the minutes of its window, a slice of a shared buffer has exactly
   the evaluator's own number of rows, one per consecutive bucket, each made of every minute of it.
   */
  lemma SliceIsFullWindow(candles: seq<Candle>, current: Option<Bucket>, pushed: seq<Candle>, i: nat,
                          seconds: int, maxPeriod: nat, period: nat, k: nat)
    requires seconds > 0 && seconds % MINUTE == 0 && k < period <= maxPeriod
    requires EndsWithWindow(pushed, i, Floor(seconds), seconds, period)
    requires Mirrors(candles, current, Groups(pushed, Floor(seconds)), Floor(seconds), maxPeriod)
    ensures var gs := Groups(pushed, Floor(seconds));
      && |Slice(candles, period)| == period && pushed != []
      && IsWindowGroup(gs, Floor(seconds), seconds, period, k, pushed[|pushed| - 1].time)
      && Slice(candles, period)[k] == RowAt(gs, Floor(seconds), |gs| - period + k, current.None?)
  {
    hide Minutes, StepsBy, IsWindowGroup, WindowStart, RowAt, Mirrors, Groups, AllRows, Floor, EndsWithWindow;
    FloorStepsBy(seconds);
    var floor, gs := Floor(seconds), Groups(pushed, Floor(seconds));
    WindowOfEnd(pushed, i, floor, seconds, period, k);
    WindowGroupFits(gs, floor, seconds, period, k, pushed[|pushed| - 1].time);
    MirrorsRows(candles, current, gs, floor, maxPeriod);
    SliceRow(AllRows(gs, floor, current.None?), gs, floor, current.None?, maxPeriod, period, k);
  }

  lemma WindowGroupFits(gs: seq<seq<Candle>>, floor: int -> int, seconds: int, period: nat, k: nat, newest: int)
    requires IsWindowGroup(gs, floor, seconds, period, k, newest)
    ensures k < period <= |gs|
  {
  }

  // ----- The loaded history reaches back far enough

  /** The buffer that starts the longest lookback before the start serves every evaluator, at any time. */
  lemma BufferReachesWindow(lookbacks: seq<Option<Lookback>>, longest: Option<Lookback>, l: Lookback,
                            start: nat, newest: int)
    requires IsLongest(longest, lookbacks)
    requires Some(l) in lookbacks && l.Valid()
    requires start % MINUTE == 0 && newest >= start
    ensures start - longest.value.Duration()
         <  WindowStart(FloorToResolution(newest, l.seconds), l.seconds, l.period, 0)
  {
    NextMinute(start, l.seconds);
    FloorToResolutionMonotone(start, newest, l.seconds);
    assert l.period * l.seconds == (l.period - 1 - 0) * l.seconds + l.seconds;
  }

  // ----- The operator

  datatype Evaluator = Evaluator(lookback: Option<Lookback>, interval: int)

  datatype Call = Call(evaluator: nat, candles: seq<Candle>)

  predicate Due(evaluator: Evaluator, lastEval: int, cursor: int) {
    cursor >= lastEval + evaluator.interval
  }

  /** The calls for the first `n` evaluators, in order. */
  function Calls(evaluators: seq<Evaluator>, lastEval: seq<int>, cursor: int, buffers: map<int, seq<Candle>>,
                 n: nat): seq<Call>
    requires n <= |evaluators| == |lastEval|
    requires forall e <- evaluators :: e.lookback.Some? ==> e.lookback.value.seconds in buffers
  {
    if n == 0 then [] else
      var e := evaluators[n - 1];
      Calls(evaluators, lastEval, cursor, buffers, n - 1) +
      (if !Due(e, lastEval[n - 1], cursor) then []
       else [Call(n - 1, if e.lookback.None? then [] else Slice(buffers[e.lookback.value.seconds],
                e.lookback.value.period))])
  }

  class SignalOperator {
    const evaluators: seq<Evaluator>
    var lastEval: seq<int>

    constructor (evaluators: seq<Evaluator>, start: int)
      ensures this.evaluators == evaluators
      ensures lastEval == seq(|evaluators|, _ => start)
    {
      this.evaluators := evaluators;
      lastEval := seq(|evaluators|, _ => start);
    }

    /** Evaluates what is due; an evaluator runs no sooner than its interval after its last run. */
    method Iterate(cursor: int, buffers: map<int, seq<Candle>>) returns (calls: seq<Call>)
      requires |lastEval| == |evaluators|
      requires forall e <- evaluators :: e.lookback.Some? ==> e.lookback.value.seconds in buffers
      modifies this
      ensures |lastEval| == |evaluators|
      ensures calls == Calls(evaluators, old(lastEval), cursor, buffers, |evaluators|)
      ensures forall i :: 0 <= i < |evaluators| ==>
        lastEval[i] == (if Due(evaluators[i], old(lastEval)[i], cursor) then cursor else old(lastEval)[i])
    {
      calls := [];
      var i := 0;
      while i < |evaluators|
        invariant 0 <= i <= |evaluators| == |lastEval|
        invariant calls == Calls(evaluators, old(lastEval), cursor, buffers, i)
        invariant forall j :: 0 <= j < |evaluators| ==>
          lastEval[j] == (if j < i && Due(evaluators[j], old(lastEval)[j], cursor) then cursor else old(lastEval)[j])
      {
        var evaluator := evaluators[i];
        if !(cursor < lastEval[i] + evaluator.interval) {
          lastEval := lastEval[i := cursor];
          var slice: seq<Candle> := [];
          if evaluator.lookback.Some? {
            assert evaluator in evaluators;
            var buffer := buffers[evaluator.lookback.value.seconds];
            slice := buffer[Max(0, |buffer| - evaluator.lookback.value.period)..];
          }
          calls := calls + [Call(i, slice)];
        }
        i := i + 1;
      }
    }
  }
}
