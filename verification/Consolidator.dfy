/**
 Incremental consolidation of one-minute candles into the last `period` candles of a resolution,
 and what it equals: grouping everything that was pushed by bucket, all at once.
 */
module Consolidator {
  import opened Basics
  import opened Market

  const MAX_UTC: int := 8_210_266_876_799
  const MIN_UTC: int := -8_334_601_228_800
  const F64_MAX: real := Pow2(1024) - Pow2(970)

  function Pow2(n: nat): real {
    if n == 0 then 1.0 else 2.0 * Pow2(n - 1)
  }

  /** Values that fit the types the accumulator starts its extremes from. */
  predicate Representable(c: Candle) {
    && MIN_UTC < c.time < MAX_UTC
    && -F64_MAX <= c.low <= F64_MAX && -F64_MAX <= c.high <= F64_MAX
    && c.createdAt <= MAX_UTC && MIN_UTC <= c.updatedAt
  }

  // ----- The accumulator of one bucket

  datatype Bucket = Bucket(
    bucketTime: int, firstTime: int, lastTime: int, open: real, high: real, low: real, close: real,
    volume: int, minCreatedAt: int, maxUpdatedAt: int, allStable: bool)
  {
    function Add(c: Candle): Bucket {
      Bucket(bucketTime,
             if c.time < firstTime then c.time else firstTime,
             if c.time > lastTime then c.time else lastTime,
             if c.time < firstTime then c.open else open,
             MaxReal(high, c.high), MinReal(low, c.low),
             if c.time > lastTime then c.close else close,
             volume + c.volume,
             Min(minCreatedAt, c.createdAt), Max(maxUpdatedAt, c.updatedAt),
             allStable && c.stable)
    }

    function ToRow(complete: bool): Candle {
      Candle(bucketTime, open, high, low, close, volume, minCreatedAt, maxUpdatedAt, allStable && complete)
    }
  }

  function NewBucket(bucketTime: int): Bucket {
    Bucket(bucketTime, MAX_UTC, MIN_UTC, 0.0, -F64_MAX, F64_MAX, 0.0, 0, MAX_UTC, MIN_UTC, true)
  }

  // ----- Batch consolidation, for any way to floor a time to its bucket

  /** Splits the candles into maximal runs of one bucket. */
  function Groups(cs: seq<Candle>, floor: int -> int): seq<seq<Candle>> {
    if cs == [] then [] else AddToGroups(Groups(cs[..|cs| - 1], floor), cs[|cs| - 1], floor)
  }

  function AddToGroups(gs: seq<seq<Candle>>, c: Candle, floor: int -> int): seq<seq<Candle>> {
    if gs != [] && gs[|gs| - 1] != [] && floor(gs[|gs| - 1][0].time) == floor(c.time)
    then gs[..|gs| - 1] + [gs[|gs| - 1] + [c]]
    else gs + [[c]]
  }

  function Accumulate(bucket: int, group: seq<Candle>): Bucket {
    if group == [] then NewBucket(bucket)
    else Accumulate(bucket, group[..|group| - 1]).Add(group[|group| - 1])
  }

  function GroupBucket(group: seq<Candle>, floor: int -> int): Bucket {
    Accumulate(if group == [] then 0 else floor(group[0].time), group)
  }

  /** One complete row per group. */
  function Rows(gs: seq<seq<Candle>>, floor: int -> int): seq<Candle> {
    if gs == [] then [] else
      Rows(gs[..|gs| - 1], floor) + [GroupBucket(gs[|gs| - 1], floor).ToRow(true)]
  }

  /** One row per group; the newest is marked incomplete. */
  function OpenRows(gs: seq<seq<Candle>>, floor: int -> int): seq<Candle>
    requires gs != []
  {
    Rows(gs[..|gs| - 1], floor) + [GroupBucket(gs[|gs| - 1], floor).ToRow(false)]
  }

  function Suffix<T>(s: seq<T>, n: nat): seq<T> {
    if |s| <= n then s else s[|s| - n..]
  }

  function Flatten(gs: seq<seq<Candle>>): seq<Candle> {
    if gs == [] then [] else Flatten(gs[..|gs| - 1]) + gs[|gs| - 1]
  }

  /** No candle belongs to an earlier bucket than one before it. */
  ghost predicate InOrder(cs: seq<Candle>, floor: int -> int) {
    forall i, j :: 0 <= i < j < |cs| ==> floor(cs[i].time) <= floor(cs[j].time)
  }

  ghost predicate OneBucket(group: seq<Candle>, floor: int -> int) {
    group != [] && forall c <- group :: floor(c.time) == floor(group[0].time)
  }

  /** Each group is one bucket, and no two groups are the same bucket: grouping by bucket. */
  ghost predicate GroupedByBucket(gs: seq<seq<Candle>>, floor: int -> int) {
    && (forall i :: 0 <= i < |gs| ==> OneBucket(gs[i], floor))
    && (forall i, j :: 0 <= i < j < |gs| ==> floor(gs[i][0].time) < floor(gs[j][0].time))
  }

  function Volume(cs: seq<Candle>): int {
    if cs == [] then 0 else Volume(cs[..|cs| - 1]) + cs[|cs| - 1].volume
  }

  /** The candle whose open a bucket has: of those with the earliest time, the first. */
  ghost predicate IsOpening(group: seq<Candle>, i: nat) {
    && i < |group|
    && (forall j: nat :: j < |group| ==> group[i].time <= group[j].time)
    && (forall j: nat :: j < i ==> group[i].time < group[j].time)
  }

  /** The candle whose close it has: of those with the latest time, the first. */
  ghost predicate IsClosing(group: seq<Candle>, i: nat) {
    && i < |group|
    && (forall j: nat :: j < |group| ==> group[j].time <= group[i].time)
    && (forall j: nat :: j < i ==> group[j].time < group[i].time)
  }

  /** The times, the open and the close of a bucket, for candles in any order. */
  ghost predicate HasEnds(b: Bucket, group: seq<Candle>) {
    && (exists i: nat :: IsOpening(group, i) && b.firstTime == group[i].time && b.open == group[i].open)
    && (exists i: nat :: IsClosing(group, i) && b.lastTime == group[i].time && b.close == group[i].close)
  }

  /** What an accumulated bucket says about the candles that went into it. */
  ghost predicate Summarises(b: Bucket, group: seq<Candle>) {
    && HasEnds(b, group)
    && (forall c <- group :: b.low <= c.low && c.high <= b.high)
    && (exists c <- group :: c.high == b.high)
    && (exists c <- group :: c.low == b.low)
    && b.volume == Volume(group)
    && (forall c <- group :: b.minCreatedAt <= c.createdAt && c.updatedAt <= b.maxUpdatedAt)
    && (exists c <- group :: c.createdAt == b.minCreatedAt)
    && (exists c <- group :: c.updatedAt == b.maxUpdatedAt)
    && (b.allStable <==> forall c <- group :: c.stable)
  }

  /** Candles in order open with the first one and close with the first one of the last time. */
  lemma OrderedEnds(b: Bucket, group: seq<Candle>)
    requires group != [] && HasEnds(b, group)
    requires forall i, j :: 0 <= i <= j < |group| ==> group[i].time <= group[j].time
    ensures b.firstTime == group[0].time && b.open == group[0].open
    ensures b.lastTime == group[|group| - 1].time
    ensures Ascending(group) ==> b.close == group[|group| - 1].close
  {
    var i: nat :| IsOpening(group, i) && b.firstTime == group[i].time && b.open == group[i].open;
    assert group[0].time <= group[i].time;
    var k: nat :| IsClosing(group, k) && b.lastTime == group[k].time && b.close == group[k].close;
    assert group[|group| - 1].time <= group[k].time;
  }

  lemma {:induction false} AccumulateSummarises(bucket: int, group: seq<Candle>)
    requires group != []
    requires forall c <- group :: Representable(c)
    ensures Summarises(Accumulate(bucket, group), group)
    decreases |group|
  {
    hide Representable, Summarises;
    var front, last := group[..|group| - 1], group[|group| - 1];
    assert group == front + [last];
    if |group| > 1 {
      AccumulateSummarises(bucket, front);
      AccumulateSnoc(bucket, front, last);
      SummariesExtend(Accumulate(bucket, front), front, last);
    } else {
      assert group == [last];
      SummarisesOne(bucket, last);
    }
  }

  lemma SummarisesOne(bucket: int, c: Candle)
    requires Representable(c)
    ensures Summarises(Accumulate(bucket, [c]), [c])
  {
    assert Accumulate(bucket, [c]) == NewBucket(bucket).Add(c);
    assert c in [c];
    assert [c][..0] == [];
    assert IsOpening([c], 0) && IsClosing([c], 0);
  }

  lemma EndsExtend(b: Bucket, front: seq<Candle>, last: Candle)
    requires HasEnds(b, front)
    ensures HasEnds(b.Add(last), front + [last])
  {
    var group := front + [last];
    var i: nat :| IsOpening(front, i) && b.firstTime == front[i].time && b.open == front[i].open;
    var k: nat :| IsClosing(front, k) && b.lastTime == front[k].time && b.close == front[k].close;
    assert group[i] == front[i] && group[k] == front[k] && group[|front|] == last;
    if last.time < b.firstTime {
      assert IsOpening(group, |front|);
    } else {
      assert IsOpening(group, i);
    }
    if last.time > b.lastTime {
      assert IsClosing(group, |front|);
    } else {
      assert IsClosing(group, k);
    }
  }

  lemma SummariesExtend(b: Bucket, front: seq<Candle>, last: Candle)
    requires Summarises(b, front)
    ensures Summarises(b.Add(last), front + [last])
  {
    hide HasEnds;
    EndsExtend(b, front, last);
    var group := front + [last];
    assert group[..|front|] == front;
    assert forall c <- group :: c in front || c == last;
    assert forall c <- front :: c in group;
    assert last in group by {
      assert group[|front|] == last;
    }
  }

  lemma AccumulateSnoc(bucket: int, group: seq<Candle>, c: Candle)
    ensures Accumulate(bucket, group + [c]) == Accumulate(bucket, group).Add(c)
    ensures Accumulate(bucket, group).bucketTime == bucket
  {
    assert (group + [c])[..|group|] == group;
  }

  /** A partition of the candles, in order, with exactly one group per bucket. */
  ghost predicate IsGrouping(gs: seq<seq<Candle>>, cs: seq<Candle>, floor: int -> int) {
    && Flatten(gs) == cs
    && GroupedByBucket(gs, floor)
    && (gs == [] <==> cs == [])
    && (cs != [] ==> floor(gs[|gs| - 1][0].time) == floor(cs[|cs| - 1].time))
  }

  lemma {:induction false} AddToGrouping(gs: seq<seq<Candle>>, cs: seq<Candle>, c: Candle, floor: int -> int)
    requires IsGrouping(gs, cs, floor)
    requires cs != [] ==> floor(cs[|cs| - 1].time) <= floor(c.time)
    ensures IsGrouping(AddToGroups(gs, c, floor), cs + [c], floor)
  {
    var gs' := AddToGroups(gs, c, floor);
    if gs != [] && floor(gs[|gs| - 1][0].time) == floor(c.time) {
      var front, last := gs[..|gs| - 1], gs[|gs| - 1];
      assert gs'[..|gs'| - 1] == front && gs'[|gs'| - 1] == last + [c];
      assert OneBucket(last + [c], floor);
    } else {
      assert gs'[..|gs|] == gs && gs'[|gs|] == [c];
      assert OneBucket([c], floor);
    }
  }

  lemma GroupsSnoc(cs: seq<Candle>, c: Candle, floor: int -> int)
    ensures Groups(cs + [c], floor) == AddToGroups(Groups(cs, floor), c, floor)
  {
    assert (cs + [c])[..|cs|] == cs;
  }

  /** The groups of the batch are the grouping by bucket. */
  lemma {:induction false} GroupsAreGrouping(cs: seq<Candle>, floor: int -> int)
    requires InOrder(cs, floor)
    ensures IsGrouping(Groups(cs, floor), cs, floor)
    decreases |cs|
  {
    if cs != [] {
      var front, c := cs[..|cs| - 1], cs[|cs| - 1];
      assert cs == front + [c];
      GroupsAreGrouping(front, floor);
      AddToGrouping(Groups(front, floor), front, c, floor);
    }
  }

  // ----- The buffer against the batch

  /** The buffer is the tail of the batch; the current bucket, if any, is the one its last row shows. */
  ghost predicate Mirrors(candles: seq<Candle>, current: Option<Bucket>, gs: seq<seq<Candle>>,
                          floor: int -> int, period: nat)
  {
    if current.None? then candles == Suffix(Rows(gs, floor), period)
    else gs != [] && candles == Suffix(OpenRows(gs, floor), period)
         && current.value == GroupBucket(gs[|gs| - 1], floor)
  }

  lemma SuffixSnoc<T>(s: seq<T>, x: T, n: nat)
    requires n > 0
    ensures Suffix(Suffix(s, n) + [x], n) == Suffix(s + [x], n)
  {
  }

  lemma SuffixUpdateLast<T>(s: seq<T>, x: T, y: T, n: nat)
    requires n > 0
    ensures var t := Suffix(s + [x], n);
      && t != [] && |t| <= n && t[|t| - 1] == x
      && t[|t| - 1 := y] == Suffix(s + [y], n)
  {
  }

  lemma MirrorsFinalized(candles: seq<Candle>, current: Bucket, gs: seq<seq<Candle>>, floor: int -> int, period: nat)
    requires period > 0 && Mirrors(candles, Some(current), gs, floor, period)
    ensures 0 < |candles| <= period && candles[|candles| - 1] == current.ToRow(false)
    ensures Mirrors(candles[|candles| - 1 := current.ToRow(true)], None, gs, floor, period)
  {
    SuffixUpdateLast(Rows(gs[..|gs| - 1], floor), current.ToRow(false), current.ToRow(true), period);
  }

  lemma MirrorsAdded(candles: seq<Candle>, current: Bucket, gs: seq<seq<Candle>>, c: Candle,
                     floor: int -> int, period: nat)
    requires period > 0 && Mirrors(candles, Some(current), gs, floor, period)
    requires gs[|gs| - 1] != [] && floor(gs[|gs| - 1][0].time) == floor(c.time)
    ensures candles != []
    ensures Mirrors(candles[|candles| - 1 := current.Add(c).ToRow(false)], Some(current.Add(c)),
                    AddToGroups(gs, c, floor), floor, period)
  {
    var front, last := gs[..|gs| - 1], gs[|gs| - 1];
    AccumulateSnoc(floor(c.time), last, c);
    assert (last + [c])[0] == last[0];
    assert AddToGroups(gs, c, floor)[..|front|] == front;
    SuffixUpdateLast(Rows(front, floor), current.ToRow(false), current.Add(c).ToRow(false), period);
  }

  lemma MirrorsStarted(candles: seq<Candle>, gs: seq<seq<Candle>>, c: Candle, floor: int -> int, period: nat)
    requires period > 0 && Mirrors(candles, None, gs, floor, period)
    ensures var current := NewBucket(floor(c.time)).Add(c);
      Mirrors(Suffix(candles + [current.ToRow(false)], period), Some(current), gs + [[c]], floor, period)
  {
    var current := NewBucket(floor(c.time)).Add(c);
    AccumulateSnoc(floor(c.time), [], c);
    assert [] + [c] == [c];
    assert (gs + [[c]])[..|gs|] == gs;
    SuffixSnoc(Rows(gs, floor), current.ToRow(false), period);
  }

  // ----- The runtime consolidator

  /** The stored candles up to and including a time. */
  function Kept(cs: seq<Candle>, cursor: int): seq<Candle> {
    if cs == [] then [] else
      var last := cs[|cs| - 1];
      Kept(cs[..|cs| - 1], cursor) + if last.time <= cursor then [last] else []
  }

  lemma KeptSnoc(cs: seq<Candle>, i: nat, cursor: int)
    requires i < |cs|
    ensures Kept(cs[..i + 1], cursor) == Kept(cs[..i], cursor) + if cs[i].time <= cursor then [cs[i]] else []
  {
    assert cs[..i + 1][..i] == cs[..i];
  }

  lemma {:induction false} KeptPrefix(cs: seq<Candle>, i: nat, cursor: int)
    requires i <= |cs|
    ensures Kept(cs[..i], cursor) <= Kept(cs, cursor)
    decreases |cs|
  {
    if i < |cs| {
      KeptPrefix(cs[..|cs| - 1], i, cursor);
      assert cs[..|cs| - 1][..i] == cs[..i];
    } else {
      assert cs[..i] == cs;
    }
  }

  lemma {:induction false} KeptAll(cs: seq<Candle>, cursor: int)
    requires forall c <- cs :: c.time <= cursor
    ensures Kept(cs, cursor) == cs
    decreases |cs|
  {
    if cs != [] {
      assert cs == cs[..|cs| - 1] + [cs[|cs| - 1]];
      KeptAll(cs[..|cs| - 1], cursor);
    }
  }

  lemma {:induction false} KeptInTime(cs: seq<Candle>, cursor: int)
    ensures forall c <- Kept(cs, cursor) :: c.time <= cursor
    decreases |cs|
  {
    if cs != [] {
      KeptInTime(cs[..|cs| - 1], cursor);
    }
  }

  /** Whether `b` may not be loaded after `a`: minutes are compared by time, other resolutions by bucket. */
  predicate Backwards(seconds: int, a: Candle, b: Candle)
    requires seconds > 0
  {
    if seconds == MINUTE then b.time < a.time
    else FloorToResolution(b.time, seconds) < FloorToResolution(a.time, seconds)
  }

  ghost predicate InLoadOrder(seconds: int, cs: seq<Candle>)
    requires seconds > 0
  {
    forall i :: 0 < i < |cs| ==> !Backwards(seconds, cs[i - 1], cs[i])
  }

  lemma LoadOrderSnoc(seconds: int, cs: seq<Candle>, c: Candle)
    requires seconds > 0 && InLoadOrder(seconds, cs)
    ensures InLoadOrder(seconds, cs + [c]) <==> (cs != [] ==> !Backwards(seconds, cs[|cs| - 1], c))
  {
    hide Backwards;
    var whole := cs + [c];
    assert whole[..|cs|] == cs;
    if cs != [] {
      assert whole[|cs| - 1] == cs[|cs| - 1] && whole[|cs|] == c;
    }
  }

  lemma LoadOrderPrefix(seconds: int, front: seq<Candle>, cs: seq<Candle>)
    requires seconds > 0 && front <= cs && InLoadOrder(seconds, cs)
    ensures InLoadOrder(seconds, front)
  {
    hide Backwards;
    forall i | 0 < i < |front|
      ensures !Backwards(seconds, front[i - 1], front[i])
    {
      assert front[i - 1] == cs[i - 1] && front[i] == cs[i];
    }
  }

  /** Candles in ascending order load in any resolution. */
  lemma AscendingLoads(seconds: int, cs: seq<Candle>)
    requires seconds > 0 && Ascending(cs)
    ensures InLoadOrder(seconds, cs)
  {
    hide FloorToResolution;
    forall i | 0 < i < |cs|
      ensures !Backwards(seconds, cs[i - 1], cs[i])
    {
      FloorToResolutionMonotone(cs[i - 1].time, cs[i].time, seconds);
    }
  }

  // ----- One-minute candles are taken as they are

  /** A minute is complete when it is older than the cursor. */
  function MinuteRow(c: Candle, cursor: int): Candle {
    if c.time < cursor then c else NewBucket(c.time).Add(c).ToRow(false)
  }

  function MinuteRows(cs: seq<Candle>, cursor: int): seq<Candle> {
    if cs == [] then [] else MinuteRows(cs[..|cs| - 1], cursor) + [MinuteRow(cs[|cs| - 1], cursor)]
  }

  /** The minute in progress, if the newest candle is the one of the cursor. */
  function MinuteInProgress(cs: seq<Candle>, cursor: int): Option<Bucket> {
    if cs == [] || cs[|cs| - 1].time < cursor then None
    else Some(NewBucket(cs[|cs| - 1].time).Add(cs[|cs| - 1]))
  }

  ghost predicate StoredMinutes(cs: seq<Candle>) {
    Ascending(cs) && forall c <- cs :: Representable(c) && c.time % MINUTE == 0
  }

  lemma FloorOfMinute(time: int)
    requires time % MINUTE == 0
    ensures FloorToResolution(time, MINUTE) == time
  {
  }

  lemma RowOfOne(c: Candle, floor: int -> int)
    requires Representable(c) && floor(c.time) == c.time
    ensures GroupBucket([c], floor) == NewBucket(c.time).Add(c)
    ensures NewBucket(c.time).Add(c).ToRow(true) == c
  {
    AccumulateSnoc(c.time, [], c);
    assert [] + [c] == [c];
  }

  /** Each minute is a group of its own, and complete minutes are their own rows. */
  lemma {:induction false} GroupsOfSingles(cs: seq<Candle>, cursor: int)
    requires StoredMinutes(cs)
    ensures var gs := Groups(cs, Floor(MINUTE));
      && IsGrouping(gs, cs, Floor(MINUTE))
      && |gs| == |cs|
      && (cs != [] ==> gs == Groups(cs[..|cs| - 1], Floor(MINUTE)) + [[cs[|cs| - 1]]])
      && ((forall c <- cs :: c.time < cursor) ==> Rows(gs, Floor(MINUTE)) == MinuteRows(cs, cursor))
    decreases |cs|
  {
    hide IsGrouping, FloorToResolution, Representable, Bucket.Add, Bucket.ToRow, GroupBucket;
    var floor := Floor(MINUTE);
    if cs == [] {
      NoGroups(floor);
    } else {
      var front, c := cs[..|cs| - 1], cs[|cs| - 1];
      assert cs == front + [c];
      assert c in cs;
      assert forall d <- front :: d in cs;
      GroupsOfSingles(front, cursor);
      FloorOfMinute(c.time);
      SingleAdded(front, c);
      RowOfOne(c, floor);
    }
  }

  lemma NoGroups(floor: int -> int)
    ensures IsGrouping(Groups([], floor), [], floor)
  {
  }

  lemma SingleAdded(front: seq<Candle>, c: Candle)
    requires StoredMinutes(front + [c])
    requires IsGrouping(Groups(front, Floor(MINUTE)), front, Floor(MINUTE))
    ensures AddToGroups(Groups(front, Floor(MINUTE)), c, Floor(MINUTE)) == Groups(front, Floor(MINUTE)) + [[c]]
    ensures IsGrouping(Groups(front + [c], Floor(MINUTE)), front + [c], Floor(MINUTE))
  {
    hide FloorToResolution, Groups;
    var floor, gs := Floor(MINUTE), Groups(front, Floor(MINUTE));
    GroupsSnoc(front, c, floor);
    assert (front + [c])[|front|] == c;
    FloorOfMinute(c.time);
    if front != [] {
      var last := front[|front| - 1];
      assert (front + [c])[|front| - 1] == last;
      FloorOfMinute(last.time);
    }
    AddToGrouping(gs, front, c, floor);
  }

  /** Loading minutes one for one gives the rows of their groups. */
  lemma MinutesMirror(cs: seq<Candle>, cursor: int, period: nat)
    requires StoredMinutes(cs) && forall c <- cs :: c.time <= cursor
    ensures var gs := Groups(cs, Floor(MINUTE));
      && IsGrouping(gs, cs, Floor(MINUTE))
      && Mirrors(Suffix(MinuteRows(cs, cursor), period), MinuteInProgress(cs, cursor), gs, Floor(MINUTE), period)
  {
    hide IsGrouping, FloorToResolution, StoredMinutes, MinuteRows, Rows, Suffix, Groups, Bucket.Add, Bucket.ToRow,
         GroupBucket, Floor, OpenRows;
    GroupsOfSingles(cs, cursor);
    if cs == [] {
      NoRows(cursor);
    } else if cs[|cs| - 1].time < cursor {
      AllComplete(cs, cursor);
    } else {
      assert cs[|cs| - 1] in cs;
      LastInProgress(cs, cursor);
    }
  }

  lemma AllComplete(cs: seq<Candle>, cursor: int)
    requires StoredMinutes(cs) && cs != [] && cs[|cs| - 1].time < cursor
    ensures Rows(Groups(cs, Floor(MINUTE)), Floor(MINUTE)) == MinuteRows(cs, cursor)
  {
    hide Rows, Groups, MinuteRows, Floor, Representable;
    forall i | 0 <= i < |cs|
      ensures cs[i].time < cursor
    {
      assert i == |cs| - 1 || cs[i].time < cs[|cs| - 1].time;
    }
    GroupsOfSingles(cs, cursor);
  }

  lemma LastInProgress(cs: seq<Candle>, cursor: int)
    requires StoredMinutes(cs) && cs != [] && cs[|cs| - 1].time == cursor
    ensures var gs, c := Groups(cs, Floor(MINUTE)), cs[|cs| - 1];
      && gs != [] && OpenRows(gs, Floor(MINUTE)) == MinuteRows(cs, cursor)
      && GroupBucket(gs[|gs| - 1], Floor(MINUTE)) == NewBucket(c.time).Add(c)
  {
    hide IsGrouping, FloorToResolution, Representable, Bucket.Add, Bucket.ToRow, GroupBucket, Groups, Rows;
    var front, c, floor := cs[..|cs| - 1], cs[|cs| - 1], Floor(MINUTE);
    assert c in cs;
    forall i | 0 <= i < |front|
      ensures front[i].time < c.time && front[i] in cs
    {
      assert cs[i] == front[i];
    }
    assert StoredMinutes(front);
    GroupsOfSingles(cs, cursor);
    GroupsOfSingles(front, cursor);
    FloorOfMinute(c.time);
    RowOfOne(c, floor);
    assert (Groups(front, floor) + [[c]])[..|front|] == Groups(front, floor);
  }

  lemma NoRows(cursor: int)
    ensures MinuteRows([], cursor) == [] && MinuteInProgress([], cursor) == None
    ensures Rows([], Floor(MINUTE)) == [] && Groups([], Floor(MINUTE)) == []
  {
  }

  function Floor(seconds: int): int -> int
    requires seconds > 0
  {
    (time: int) => FloorToResolution(time, seconds)
  }

  lemma LastGroup(candles: seq<Candle>, current: Bucket, gs: seq<seq<Candle>>, cs: seq<Candle>, floor: int -> int,
                  period: nat)
    requires IsGrouping(gs, cs, floor) && Mirrors(candles, Some(current), gs, floor, period)
    ensures cs != []
    ensures gs != [] && gs[|gs| - 1] != []
    ensures floor(gs[|gs| - 1][0].time) == floor(cs[|cs| - 1].time)
  {
  }

  lemma NothingKept(initial: seq<Candle>, cursor: int, period: nat)
    ensures Kept(initial[..0], cursor) == []
    ensures InLoadOrder(MINUTE, []) && forall seconds :: seconds > 0 ==> InLoadOrder(seconds, [])
    ensures Suffix(MinuteRows([], cursor), period) == [] && MinuteInProgress([], cursor) == None
  {
  }

  lemma MinuteRowsSnoc(cs: seq<Candle>, c: Candle, cursor: int, period: nat)
    requires period > 0
    ensures MinuteRows(cs + [c], cursor) == MinuteRows(cs, cursor) + [MinuteRow(c, cursor)]
    ensures Suffix(Suffix(MinuteRows(cs, cursor), period) + [MinuteRow(c, cursor)], period)
         == Suffix(MinuteRows(cs + [c], cursor), period)
  {
    assert (cs + [c])[..|cs|] == cs;
    SuffixSnoc(MinuteRows(cs, cursor), MinuteRow(c, cursor), period);
  }

  class RuntimeConsolidator {
    const seconds: int
    const floor: int -> int
    const period: nat
    var candles: seq<Candle>
    var currentBucket: Option<Bucket>
    ghost var pushed: seq<Candle>
    ghost var groups: seq<seq<Candle>>

    ghost predicate Valid()
      reads this
    {
      && period > 0
      && groups == Groups(pushed, floor)
      && IsGrouping(groups, pushed, floor)
      && Mirrors(candles, currentBucket, groups, floor, period)
    }

    ghost function LastBucket(): int
      requires pushed != []
      reads this
    {
      floor(pushed[|pushed| - 1].time)
    }

    constructor (seconds: int, period: nat)
      requires seconds > 0 && period > 0
      ensures Valid() && pushed == [] && currentBucket == None
      ensures this.seconds == seconds && this.floor == Floor(seconds) && this.period == period
    {
      this.seconds, this.floor, this.period := seconds, Floor(seconds), period;
      candles, currentBucket, pushed, groups := [], None, [], [];
    }

    /**
     Replays the stored candles up to the cursor. Fails exactly when one of them comes after a later
     minute or, for a longer resolution, after a later bucket.
     */
    static method FromStored(seconds: int, period: nat, initial: seq<Candle>, cursor: int)
      returns (r: Result<RuntimeConsolidator>)
      requires seconds > 0 && period > 0
      ensures r.Err? <==> !InLoadOrder(seconds, Kept(initial, cursor))
      ensures r.Err? ==> r.error == OutOfOrderCandle
      ensures r.Ok? ==> fresh(r.value) && r.value.seconds == seconds && r.value.floor == Floor(seconds)
                        && r.value.period == period && r.value.pushed == Kept(initial, cursor)
      ensures r.Ok? && (seconds == MINUTE ==> StoredMinutes(Kept(initial, cursor))) ==> r.value.Valid()
      ensures r.Ok? && seconds != MINUTE && Kept(initial, cursor) != [] ==> r.value.currentBucket.Some?
      ensures r.Ok? && seconds == MINUTE ==>
        && r.value.candles == Suffix(MinuteRows(Kept(initial, cursor), cursor), period)
        && r.value.currentBucket == MinuteInProgress(Kept(initial, cursor), cursor)
    {
      var consolidator := new RuntimeConsolidator(seconds, period);
      var loaded;
      if seconds == MINUTE {
        loaded := consolidator.LoadMinutes(initial, cursor);
      } else {
        loaded := consolidator.LoadBuckets(initial, cursor);
      }
      if loaded.Err? {
        return Err(loaded.error);
      }
      r := Ok(consolidator);
    }

    /** One-minute candles are stored as they are; a repeated minute is stored twice. */
    method LoadMinutes(initial: seq<Candle>, cursor: int) returns (r: Result<()>)
      requires seconds == MINUTE && floor == Floor(MINUTE) && period > 0
      requires candles == [] && currentBucket == None
      modifies this`candles, this`currentBucket, this`pushed, this`groups
      ensures r.Err? <==> !InLoadOrder(MINUTE, Kept(initial, cursor))
      ensures r.Err? ==> r.error == OutOfOrderCandle
      ensures r.Ok? ==>
        && pushed == Kept(initial, cursor)
        && candles == Suffix(MinuteRows(pushed, cursor), period)
        && currentBucket == MinuteInProgress(pushed, cursor)
        && (StoredMinutes(pushed) ==> Valid())
    {
      hide Kept, MinuteRows, InLoadOrder, Suffix, StoredMinutes, IsGrouping, Mirrors, Bucket.Add, Bucket.ToRow;
      var lastTime: Option<int> := None;
      ghost var kept: seq<Candle> := [];
      NothingKept(initial, cursor, period);
      var i := 0;
      while i < |initial|
        invariant 0 <= i <= |initial|
        invariant kept == Kept(initial[..i], cursor) && InLoadOrder(MINUTE, kept)
        invariant lastTime == if kept == [] then None else Some(kept[|kept| - 1].time)
        invariant candles == Suffix(MinuteRows(kept, cursor), period)
        invariant currentBucket == MinuteInProgress(kept, cursor)
      {
        var candle := initial[i];
        KeptSnoc(initial, i, cursor);
        if candle.time <= cursor {
          LoadOrderSnoc(MINUTE, kept, candle);
          if lastTime.Some? && candle.time < lastTime.value {
            KeptPrefix(initial, i + 1, cursor);
            if InLoadOrder(MINUTE, Kept(initial, cursor)) {
              LoadOrderPrefix(MINUTE, kept + [candle], Kept(initial, cursor));
            }
            return Err(OutOfOrderCandle);
          }
          lastTime := Some(candle.time);
          MinuteRowsSnoc(kept, candle, cursor, period);
          if candle.time < cursor {
            candles := candles + [candle];
          } else {
            var bucket := NewBucket(candle.time).Add(candle);
            candles := candles + [bucket.ToRow(false)];
            currentBucket := Some(bucket);
          }
          TrimOldCandles();
          kept := kept + [candle];
        }
        i := i + 1;
      }
      assert initial[..i] == initial;
      pushed, groups := kept, Groups(kept, floor);
      if StoredMinutes(kept) {
        KeptInTime(initial, cursor);
        MinutesMirror(kept, cursor, period);
      }
      r := Ok(());
    }

    /** Longer resolutions push candle by candle. */
    method LoadBuckets(initial: seq<Candle>, cursor: int) returns (r: Result<()>)
      requires seconds > 0 && seconds != MINUTE && floor == Floor(seconds)
      requires Valid() && pushed == [] && currentBucket == None
      modifies this`candles, this`currentBucket, this`pushed, this`groups
      ensures r.Err? <==> !InLoadOrder(seconds, Kept(initial, cursor))
      ensures r.Err? ==> r.error == OutOfOrderCandle
      ensures r.Ok? ==> Valid() && pushed == Kept(initial, cursor) && (pushed != [] ==> currentBucket.Some?)
    {
      hide Kept, InLoadOrder, FloorToResolution, Valid;
      NothingKept(initial, cursor, period);
      var i := 0;
      while i < |initial|
        invariant 0 <= i <= |initial|
        invariant pushed == Kept(initial[..i], cursor) && InLoadOrder(seconds, pushed)
        invariant Valid() && (pushed != [] ==> currentBucket.Some?)
      {
        KeptSnoc(initial, i, cursor);
        if initial[i].time <= cursor {
          LoadOrderSnoc(seconds, pushed, initial[i]);
          ghost var kept := pushed;
          var stored := Push(initial[i]);
          if stored.Err? {
            KeptPrefix(initial, i + 1, cursor);
            if InLoadOrder(seconds, Kept(initial, cursor)) {
              LoadOrderPrefix(seconds, kept + [initial[i]], Kept(initial, cursor));
            }
            return stored;
          }
        }
        i := i + 1;
      }
      assert initial[..i] == initial;
      r := Ok(());
    }

    /** Bookkeeping for the proof: one more candle went in. */
    ghost method Record(c: Candle)
      requires groups == Groups(pushed, floor) && IsGrouping(groups, pushed, floor)
      modifies this`pushed, this`groups
      ensures pushed == old(pushed) + [c] && groups == AddToGroups(old(groups), c, floor) == Groups(pushed, floor)
      ensures old(pushed == [] || LastBucket() <= floor(c.time)) ==> IsGrouping(groups, pushed, floor)
      ensures old(pushed == [] || LastBucket() != floor(c.time)) ==> groups == old(groups) + [[c]]
    {
      GroupsSnoc(pushed, c, floor);
      if pushed == [] || LastBucket() <= floor(c.time) {
        AddToGrouping(groups, pushed, c, floor);
      }
      pushed, groups := pushed + [c], AddToGroups(groups, c, floor);
    }

    method TrimOldCandles()
      modifies this`candles
      ensures candles == Suffix(old(candles), period)
    {
      while |candles| > period
        invariant Suffix(candles, period) == Suffix(old(candles), period)
      {
        candles := candles[1..];
      }
    }

    /** Marks the current bucket complete. */
    method FinalizeCurrentBucket()
      requires Valid()
      modifies this`candles, this`currentBucket
      ensures Valid() && currentBucket == None
    {
      hide Mirrors, IsGrouping, Groups, Bucket.ToRow;
      if currentBucket.Some? {
        var current := currentBucket.value;
        MirrorsFinalized(candles, current, groups, floor, period);
        currentBucket := None;
        candles := candles[|candles| - 1 := current.ToRow(true)];
        TrimOldCandles();
      }
    }

    /** Whether a candle is not older than the last one pushed, in buckets. */
    ghost predicate Follows(c: Candle)
      reads this
    {
      pushed != [] ==>
        if currentBucket.Some? then LastBucket() <= floor(c.time) else LastBucket() < floor(c.time)
    }

    /** Fails exactly on a candle older than the current bucket, and then changes nothing. */
    method Push(c: Candle) returns (r: Result<()>)
      requires Valid()
      modifies this`candles, this`currentBucket, this`pushed, this`groups
      ensures r.Err? <==> old(currentBucket.Some? && pushed != [] && floor(c.time) < LastBucket())
      ensures r.Err? ==> r.error == OutOfOrderCandle && unchanged(this)
      ensures r.Ok? ==> pushed == old(pushed) + [c] && currentBucket.Some?
      ensures old(Follows(c)) ==> Valid()
    {
      var bucket := floor(c.time);
      if currentBucket.Some? {
        var current := currentBucket.value;
        AccumulateSnoc(floor(groups[|groups| - 1][0].time), groups[|groups| - 1], c);
        assert current.bucketTime == LastBucket();
        if current.bucketTime == bucket {
          AddToCurrent(c, current.Add(c));
          return Ok(());
        }
        if bucket < current.bucketTime {
          return Err(OutOfOrderCandle);
        }
      }
      FinalizeCurrentBucket();
      StartBucket(c, NewBucket(bucket).Add(c));
      r := Ok(());
    }

    method AddToCurrent(c: Candle, current: Bucket)
      requires Valid() && currentBucket.Some? && LastBucket() == floor(c.time)
      requires current == currentBucket.value.Add(c)
      modifies this`candles, this`currentBucket, this`pushed, this`groups
      ensures Valid() && pushed == old(pushed) + [c] && currentBucket == Some(current)
    {
      hide Mirrors, IsGrouping, Groups, AddToGroups, GroupBucket, Bucket.Add, Bucket.ToRow;
      LastGroup(candles, currentBucket.value, groups, pushed, floor, period);
      MirrorsAdded(candles, currentBucket.value, groups, c, floor, period);
      Record(c);
      candles := candles[|candles| - 1 := current.ToRow(false)];
      currentBucket := Some(current);
    }

    method StartBucket(c: Candle, current: Bucket)
      requires Valid() && currentBucket.None?
      requires current == NewBucket(floor(c.time)).Add(c)
      modifies this`candles, this`currentBucket, this`pushed, this`groups
      ensures pushed == old(pushed) + [c] && currentBucket == Some(current)
      ensures old(Follows(c)) ==> Valid()
    {
      hide Mirrors, IsGrouping, Groups, AddToGroups, GroupBucket, Bucket.Add, Bucket.ToRow, Suffix, NewBucket;
      MirrorsStarted(candles, groups, c, floor, period);
      ghost var follows, before := Follows(c), groups;
      Record(c);
      candles := candles + [current.ToRow(false)];
      currentBucket := Some(current);
      TrimOldCandles();
      if follows {
        assert groups == before + [[c]];
        assert Mirrors(candles, currentBucket, groups, floor, period);
      }
    }
  }
}
