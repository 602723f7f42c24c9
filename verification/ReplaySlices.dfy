/** What a signal evaluator sees at each round of a replay of gap-free minutes. */
module ReplaySlices {
  import opened Basics
  import opened Market
  import opened Consolidator
  import opened Lookbacks
  import opened HistoryCheck
  import Replay
  import ReplayLaws

  // ----- What the engine checks before a run

  /** A run with every minute stored from where the engine's history check asks on. */
  ghost predicate IsBacktest(store: seq<Candle>, lookbacks: seq<Option<Lookback>>, longest: Lookback,
                             start: nat, end: int)
  {
    && Ascending(store) && Replay.OnMinutes(store) && (forall c <- store :: Representable(c))
    && IsLongest(Some(longest), lookbacks) && AllValid(lookbacks)
    && longest.Valid() && longest.Duration() <= start
    && start % MINUTE == 0 && start + DAY <= end
    && Replay.GapFree(store, CheckedFrom(start, Some(longest)), end)
  }

  /** Where the check starts lies between the start of the first buffer and the start of the run. */
  lemma CheckedWithinLookback(start: nat, longest: Lookback)
    requires longest.Valid() && longest.Duration() <= start && start % MINUTE == 0
    ensures 0 <= start - longest.Duration() < CheckedFrom(start, Some(longest)) <= start
    ensures CheckedFrom(start, Some(longest)) % MINUTE == 0
  {
    hide FloorToResolution;
    var bucket, seconds := FloorToResolution(start, longest.seconds), longest.seconds;
    NextMinute(start, seconds);
    var k := FloorMultiple(start, seconds);
    MulMonotone(1, longest.period, seconds);
    assert (k - (longest.period - 1)) * seconds == bucket - seconds * (longest.period - 1);
    BucketIsMinute(k - (longest.period - 1), seconds);
    assert seconds * (longest.period - 1) == longest.Duration() - seconds;
  }

  lemma RunIsGapFree(store: seq<Candle>, lookbacks: seq<Option<Lookback>>, longest: Lookback, start: nat, end: int)
    requires IsBacktest(store, lookbacks, longest, start, end)
    ensures Replay.GapFree(store, start, end)
  {
    hide CheckedFrom, IsLongest, AllValid, Representable, Ascending, Replay.OnMinutes;
    CheckedWithinLookback(start, longest);
  }

  lemma PositiveLookback(store: seq<Candle>, lookbacks: seq<Option<Lookback>>, longest: Lookback, start: nat, end: int)
    requires IsBacktest(store, lookbacks, longest, start, end)
    ensures longest.Valid() && 0 < longest.Duration() <= start
  {
    MulMonotone(1, longest.period, longest.seconds);
  }

  // ----- Where an evaluator's window starts

  /** The window of a later minute starts no earlier, at the start of a bucket. */
  lemma WindowMovesOn(start: nat, now: nat, l: Lookback)
    requires l.Valid() && start % MINUTE == 0 && now % MINUTE == 0 && start <= now
    requires 0 <= NeededFrom(start, l)
    ensures var from := WindowStart(Floor(l.seconds)(now), l.seconds, l.period, 0);
      NeededFrom(start, l) <= from <= now && from % MINUTE == 0 && FloorToResolution(from, l.seconds) == from
  {
    hide FloorToResolution;
    var seconds := l.seconds;
    FloorToResolutionMonotone(start, now, seconds);
    NextMinute(now, seconds);
    var k := FloorMultiple(now, seconds);
    var q := k - (l.period - 1);
    MulMonotone(0, l.period - 1, seconds);
    assert q * seconds == k * seconds - (l.period - 1) * seconds;
    BucketIsMinute(q, seconds);
    NonNegativeFactor(q, seconds);
    BucketOf(q * seconds, seconds, q);
  }

  lemma NonNegativeFactor(q: int, n: int)
    requires n > 0 && q * n >= 0
    ensures q >= 0
  {
    if q < 0 {
      MulMonotone(q, -1, n);
    }
  }

  lemma FloorIsEarlier(time: nat, seconds: int)
    requires seconds > 0
    ensures FloorToResolution(time, seconds) <= time
  {
    DivSplit(time, seconds);
  }

  /** The stored candle of a checked minute. */
  lemma CheckedMinute(store: seq<Candle>, lookbacks: seq<Option<Lookback>>, longest: Lookback, start: nat, end: int,
                      t: int)
    returns (i: nat)
    requires IsBacktest(store, lookbacks, longest, start, end)
    requires CheckedFrom(start, Some(longest)) <= t < end && t % MINUTE == 0
    ensures i < |store| && store[i].time == t
    ensures forall x: nat :: t + MINUTE * x < end ==> i + x < |store| && store[i + x].time == t + MINUTE * x
  {
    hide CheckedFrom, IsLongest, AllValid, Representable, Ascending, Replay.OnMinutes, Replay.GapFree,
         Replay.IsIndexFrom;
    CheckedWithinLookback(start, longest);
    var checked := CheckedFrom(start, Some(longest));
    var n := (t - checked) / MINUTE;
    MinutesBetween(checked, t);
    i := Replay.IndexFrom(store, checked) + n;
    ReplayLaws.MinuteAt(store, checked, end, n);
    forall x: nat | t + MINUTE * x < end
      ensures i + x < |store| && store[i + x].time == t + MINUTE * x
    {
      ReplayLaws.MinuteAt(store, checked, end, n + x);
    }
  }

  lemma MinutesBetween(a: int, b: int)
    requires a % MINUTE == 0 && b % MINUTE == 0 && a <= b
    ensures a + MINUTE * ((b - a) / MINUTE) == b && (b - a) / MINUTE >= 0
  {
  }

  /** The stored candles from `w` to `q` are consecutive minutes. */
  ghost predicate MinutesAt(store: seq<Candle>, w: nat, q: nat, from: int)
    requires q < |store|
  {
    forall x: nat :: w + x <= q ==> store[w + x].time == from + MINUTE * x
  }

  /** The candles fed up to a minute are those of the store from the first buffer on, at known positions. */
  lemma FedFrom(store: seq<Candle>, lookbacks: seq<Option<Lookback>>, longest: Lookback, start: nat, end: int,
                from: int, now: int)
    returns (w: nat, q: nat)
    requires IsBacktest(store, lookbacks, longest, start, end)
    requires CheckedFrom(start, Some(longest)) <= from <= now < end && from % MINUTE == 0 && now % MINUTE == 0
    ensures Replay.IndexFrom(store, start - longest.Duration()) <= w <= q < |store|
    ensures Replay.Query(store, start - longest.Duration(), now)
         == store[Replay.IndexFrom(store, start - longest.Duration())..q + 1]
    ensures store[w].time == from && store[q].time == now && MinutesAt(store, w, q, from)
  {
    hide CheckedFrom, IsLongest, AllValid, Representable, Ascending, Replay.OnMinutes, Replay.GapFree, Replay.Query,
         Replay.IsIndexFrom;
    var loaded := start - longest.Duration();
    CheckedWithinLookback(start, longest);
    w := CheckedMinute(store, lookbacks, longest, start, end, from);
    MinutesBetween(from, now);
    q := w + (now - from) / MINUTE;
    assert store[q].time == now;
    assert store[w].time == from;
    ReplayLaws.QueryThrough(store, loaded, q);
    Replay.IndexSplits(store, loaded, w);
  }

  /**
   Whatever was stored before, the candles fed up to a minute end with those of an evaluator's window
   when the history check covers the one it needs at the start.
   */
  lemma FedEndsWithWindow(store: seq<Candle>, lookbacks: seq<Option<Lookback>>, longest: Lookback, l: Lookback,
                          start: nat, end: int, minute: nat)
    returns (i: nat)
    requires IsBacktest(store, lookbacks, longest, start, end)
    requires l.Valid() && CheckedFrom(start, Some(longest)) <= NeededFrom(start, l)
    requires start + MINUTE * minute < end
    ensures var now := start + MINUTE * minute;
      var fed := Replay.Query(store, start - longest.Duration(), now);
      fed != [] && fed[|fed| - 1].time == now && EndsWithWindow(fed, i, Floor(l.seconds), l.seconds, l.period)
  {
    hide CheckedFrom, NeededFrom, IsLongest, AllValid, Representable, Ascending, Replay.OnMinutes, Replay.GapFree,
         Replay.Query, Replay.IsIndexFrom, FloorToResolution, WindowStart, Minutes, Floor, Lookback.Duration,
         EndsWithWindow, MinutesAt;
    var loaded, now := start - longest.Duration(), start + MINUTE * minute;
    CheckedWithinLookback(start, longest);
    WindowMovesOn(start, now, l);
    var from := WindowStart(Floor(l.seconds)(now), l.seconds, l.period, 0);
    var w, q := FedFrom(store, lookbacks, longest, start, end, from, now);
    i := w - Replay.IndexFrom(store, loaded);
    FedIsWindow(store, loaded, w, q, l, from, now);
  }

  lemma FedIsWindow(store: seq<Candle>, loaded: nat, w: nat, q: nat, l: Lookback, from: nat, now: int)
    requires l.Valid() && Ascending(store) && Replay.IndexFrom(store, loaded) <= w <= q < |store|
    requires store[w].time == from && store[q].time == now && MinutesAt(store, w, q, from)
    requires from % MINUTE == 0 && FloorToResolution(from, l.seconds) == from
    requires from == WindowStart(Floor(l.seconds)(now), l.seconds, l.period, 0)
    ensures var a := Replay.IndexFrom(store, loaded);
      && store[a..q + 1] != [] && store[a..q + 1][|store[a..q + 1]| - 1].time == now
      && EndsWithWindow(store[a..q + 1], w - a, Floor(l.seconds), l.seconds, l.period)
  {
    hide Ascending, Replay.IsIndexFrom, FloorToResolution, WindowStart, Minutes, Floor, EndsWithWindow, MinutesAt;
    var a := Replay.IndexFrom(store, loaded);
    WindowOfStore(store, a, w, q, from);
    if w > a {
      EarlierBucket(store, w, loaded, from, l.seconds);
    }
    EndsIs(store[a..q + 1], w - a, l, from);
  }

  lemma EndsIs(fed: seq<Candle>, i: nat, l: Lookback, from: nat)
    requires l.Valid() && i < |fed| && Minutes(fed[i..], from) && from % MINUTE == 0
    requires from == WindowStart(Floor(l.seconds)(fed[|fed| - 1].time), l.seconds, l.period, 0)
    requires i > 0 ==> Floor(l.seconds)(fed[i - 1].time) != Floor(l.seconds)(from)
    ensures EndsWithWindow(fed, i, Floor(l.seconds), l.seconds, l.period)
  {
    hide Minutes, WindowStart, Floor;
  }

  lemma WindowOfStore(store: seq<Candle>, a: nat, w: nat, q: nat, from: int)
    requires a <= w <= q < |store|
    requires MinutesAt(store, w, q, from)
    ensures var fed, i := store[a..q + 1], w - a;
      && i < |fed| && Minutes(fed[i..], from) && fed[|fed| - 1] == store[q]
      && (i > 0 ==> fed[i - 1] == store[w - 1])
  {
    var fed, i := store[a..q + 1], w - a;
    forall x | 0 <= x < |fed[i..]|
      ensures fed[i..][x].time == from + MINUTE * x
    {
      assert fed[i..][x] == store[w + x];
    }
  }

  lemma EarlierBucket(store: seq<Candle>, w: nat, loaded: nat, from: int, seconds: int)
    requires Ascending(store) && 0 < w < |store| && seconds > 0
    requires store[w].time == from && FloorToResolution(from, seconds) == from
    requires Replay.IndexFrom(store, loaded) < w
    ensures Floor(seconds)(store[w - 1].time) != Floor(seconds)(from)
  {
    hide FloorToResolution, Replay.IsIndexFrom, Ascending;
    Replay.IndexSplits(store, loaded, w - 1);
    Replay.AscendsAt(store, w - 1);
    FloorIsEarlier(store[w - 1].time, seconds);
  }

  /** What a consolidator that was fed the candles up to now shows an evaluator. */
  lemma MirroredWindow(store: seq<Candle>, lookbacks: seq<Option<Lookback>>, longest: Lookback, l: Lookback,
                       start: nat, end: int, minute: nat, candles: seq<Candle>, current: Option<Bucket>,
                       maxPeriod: nat, k: nat)
    requires IsBacktest(store, lookbacks, longest, start, end)
    requires l.Valid() && CheckedFrom(start, Some(longest)) <= NeededFrom(start, l)
    requires start + MINUTE * minute < end && k < l.period <= maxPeriod
    requires var fed := Replay.Query(store, start - longest.Duration(), start + MINUTE * minute);
      Mirrors(candles, current, Groups(fed, Floor(l.seconds)), Floor(l.seconds), maxPeriod)
    ensures var fed := Replay.Query(store, start - longest.Duration(), start + MINUTE * minute);
      var gs := Groups(fed, Floor(l.seconds));
      && |Slice(candles, l.period)| == l.period
      && IsWindowGroup(gs, Floor(l.seconds), l.seconds, l.period, k, start + MINUTE * minute)
      && Slice(candles, l.period)[k] == RowAt(gs, Floor(l.seconds), |gs| - l.period + k, current.None?)
  {
    hide IsBacktest, Replay.Query, Mirrors, Groups, IsWindowGroup, RowAt, Slice, CheckedFrom, NeededFrom,
         EndsWithWindow,
         Floor, Lookback.Duration;
    var i := FedEndsWithWindow(store, lookbacks, longest, l, start, end, minute);
    SliceIsFullWindow(candles, current, Replay.Query(store, start - longest.Duration(), start + MINUTE * minute), i,
                      l.seconds, maxPeriod, l.period, k);
  }

  // ----- The consolidator of a run

  /** The last rows of a consolidator that was fed what the log feeds before event `k`. */
  ghost predicate SliceAt(slice: seq<Candle>, log: seq<Replay.Event>, k: nat, l: Lookback, maxPeriod: nat)
    requires k < |log| && log[0].Load? && l.seconds > 0
  {
    var fed := ReplayLaws.Fed(log[..k]);
    exists rows, current ::
      && Mirrors(rows, current, Groups(fed, Floor(l.seconds)), Floor(l.seconds), maxPeriod)
      && (current.None? <==> l.seconds == MINUTE && |fed| == |log[0].candles|)
      && slice == Slice(rows, l.period)
  }

  /** A log that loads once, first, and feeds stored minutes in order. */
  ghost predicate IsRunLog(log: seq<Replay.Event>) {
    && log != [] && log[0].Load? && log[0].candles != []
    && (forall i :: 0 < i < |log| ==> !log[i].Load?)
    && StoredMinutes(ReplayLaws.Fed(log))
  }

  lemma FedSnoc(log: seq<Replay.Event>, k: nat)
    requires k < |log|
    ensures ReplayLaws.Fed(log[..k + 1]) == ReplayLaws.Fed(log[..k]) + ReplayLaws.CandlesOf(log[k])
    ensures ReplayLaws.Fed(log[..k + 1]) <= ReplayLaws.Fed(log)
  {
    hide ReplayLaws.Project, ReplayLaws.CandlesOf;
    assert log[..k + 1] == log[..k] + [log[k]];
    assert log == log[..k + 1] + log[k + 1..];
    ReplayLaws.ProjectConcat(log[..k], [log[k]], ReplayLaws.CandlesOf);
    ReplayLaws.ProjectConcat(log[..k + 1], log[k + 1..], ReplayLaws.CandlesOf);
    ReplayLaws.ProjectOne(log[k], ReplayLaws.CandlesOf);
  }

  lemma CursorsSnoc(log: seq<Replay.Event>, k: nat)
    requires k < |log|
    ensures ReplayLaws.Project(log[..k + 1], ReplayLaws.CursorsOf)
         == ReplayLaws.Project(log[..k], ReplayLaws.CursorsOf) + ReplayLaws.CursorsOf(log[k])
  {
    hide ReplayLaws.Project, ReplayLaws.CursorsOf;
    assert log[..k + 1] == log[..k] + [log[k]];
    ReplayLaws.ProjectConcat(log[..k], [log[k]], ReplayLaws.CursorsOf);
    ReplayLaws.ProjectOne(log[k], ReplayLaws.CursorsOf);
  }

  lemma NoEvents<T>(f: Replay.Event -> seq<T>)
    ensures ReplayLaws.Project([], f) == []
  {
  }

  lemma StoredPrefix(front: seq<Candle>, cs: seq<Candle>)
    requires StoredMinutes(cs) && front <= cs
    ensures StoredMinutes(front)
  {
    hide Representable;
    forall i | 0 <= i < |front|
      ensures front[i] == cs[i] && front[i] in cs
    {
    }
  }

  lemma LoadedIsKept(candles: seq<Candle>)
    requires StoredMinutes(candles) && candles != []
    ensures Kept(candles, candles[|candles| - 1].time + 59) == candles
    ensures MinuteInProgress(candles, candles[|candles| - 1].time + 59).None?
  {
    hide Representable, Kept;
    KeptAll(candles, candles[|candles| - 1].time + 59);
  }

  lemma NextFollows(cs: seq<Candle>, c: Candle, seconds: int)
    requires StoredMinutes(cs + [c]) && cs != [] && seconds > 0
    ensures FloorToResolution(cs[|cs| - 1].time, seconds) <= FloorToResolution(c.time, seconds)
    ensures seconds == MINUTE ==> FloorToResolution(cs[|cs| - 1].time, seconds) < FloorToResolution(c.time, seconds)
  {
    hide Representable, FloorToResolution;
    var whole, last := cs + [c], cs[|cs| - 1];
    assert whole[|cs| - 1] == last && whole[|cs|] == c;
    assert last in whole && c in whole;
    FloorToResolutionMonotone(last.time, c.time, seconds);
    FloorOfMinute(last.time);
    FloorOfMinute(c.time);
  }

  /** The consolidator made from the loaded candles, at the end of the last of them. */
  method LoadConsolidator(log: seq<Replay.Event>, seconds: int, maxPeriod: nat)
    returns (consolidator: RuntimeConsolidator)
    requires seconds > 0 && maxPeriod > 0 && IsRunLog(log)
    ensures fresh(consolidator) && consolidator.Valid()
    ensures consolidator.seconds == seconds && consolidator.floor == Floor(seconds)
    ensures consolidator.period == maxPeriod
    ensures consolidator.pushed == ReplayLaws.Fed(log[..1]) == log[0].candles
    ensures consolidator.currentBucket.None? <==> seconds == MINUTE
  {
    hide ReplayLaws.Project, StoredMinutes, Kept, InLoadOrder, Mirrors, Groups, MinuteRows, MinuteInProgress;
    var candles := log[0].candles;
    FedSnoc(log, 0);
    NoEvents(ReplayLaws.CandlesOf);
    StoredPrefix(candles, ReplayLaws.Fed(log));
    LoadedIsKept(candles);
    StoredLoads(seconds, candles);
    var loaded := RuntimeConsolidator.FromStored(seconds, maxPeriod, candles, candles[|candles| - 1].time + 59);
    consolidator := loaded.value;
  }

  lemma StoredLoads(seconds: int, cs: seq<Candle>)
    requires seconds > 0 && StoredMinutes(cs)
    ensures InLoadOrder(seconds, cs)
  {
    AscendingLoads(seconds, cs);
  }

  /** One candle of the run goes into the consolidator. */
  method FeedConsolidator(consolidator: RuntimeConsolidator, c: Candle)
    requires consolidator.Valid() && consolidator.seconds > 0 && consolidator.floor == Floor(consolidator.seconds)
    requires consolidator.pushed != [] && StoredMinutes(consolidator.pushed + [c])
    requires consolidator.currentBucket.None? ==> consolidator.seconds == MINUTE
    modifies consolidator`candles, consolidator`currentBucket, consolidator`pushed, consolidator`groups
    ensures consolidator.Valid() && consolidator.currentBucket.Some?
    ensures consolidator.pushed == old(consolidator.pushed) + [c]
  {
    hide StoredMinutes, FloorToResolution, Mirrors, Groups;
    NextFollows(consolidator.pushed, c, consolidator.seconds);
    var pushed := consolidator.Push(c);
    assert pushed.Ok?;
  }

  /** Runs a consolidator along a log and takes the evaluator's slice at each evaluation. */
  method Consolidate(log: seq<Replay.Event>, l: Lookback, maxPeriod: nat)
    returns (cursors: seq<int>, slices: seq<seq<Candle>>, ghost at: seq<nat>)
    requires l.Valid() && l.period <= maxPeriod && IsRunLog(log)
    ensures cursors == ReplayLaws.Project(log, ReplayLaws.CursorsOf)
    ensures |slices| == |cursors| == |at|
    ensures forall m :: 0 <= m < |at| ==>
      at[m] < |log| && log[at[m]] == Replay.Iterate(cursors[m]) && SliceAt(slices[m], log, at[m], l, maxPeriod)
  {
    hide ReplayLaws.Project, StoredMinutes, SliceAt, Slice, Mirrors, Groups, Floor, IsGrouping;
    var consolidator := LoadConsolidator(log, l.seconds, maxPeriod);
    cursors, slices, at := [], [], [];
    CursorsSnoc(log, 0);
    NoEvents(ReplayLaws.CursorsOf);
    var k := 1;
    while k < |log|
      invariant 1 <= k <= |log|
      invariant fresh(consolidator) && consolidator.Valid() && consolidator.seconds == l.seconds
      invariant consolidator.floor == Floor(l.seconds) && consolidator.period == maxPeriod
      invariant consolidator.pushed == ReplayLaws.Fed(log[..k]) && |consolidator.pushed| >= |log[0].candles|
      invariant consolidator.currentBucket.None?
        <==> l.seconds == MINUTE && |consolidator.pushed| == |log[0].candles|
      invariant cursors == ReplayLaws.Project(log[..k], ReplayLaws.CursorsOf)
      invariant |slices| == |cursors| == |at|
      invariant forall m :: 0 <= m < |at| ==>
        at[m] < |log| && log[at[m]] == Replay.Iterate(cursors[m]) && SliceAt(slices[m], log, at[m], l, maxPeriod)
    {
      FedSnoc(log, k);
      CursorsSnoc(log, k);
      match log[k] {
        case Feed(candle) =>
          StoredPrefix(consolidator.pushed + [candle], ReplayLaws.Fed(log));
          FeedConsolidator(consolidator, candle);
        case Iterate(cursor) =>
          SliceIsAt(log, k, l, maxPeriod, consolidator.candles, consolidator.currentBucket);
          cursors, slices, at := cursors + [cursor], slices + [Slice(consolidator.candles, l.period)], at + [k];
        case _ =>
      }
      k := k + 1;
    }
    assert log[..k] == log;
  }

  lemma SliceIsAt(log: seq<Replay.Event>, k: nat, l: Lookback, maxPeriod: nat, rows: seq<Candle>,
                  current: Option<Bucket>)
    requires k < |log| && log[0].Load? && l.seconds > 0
    requires Mirrors(rows, current, Groups(ReplayLaws.Fed(log[..k]), Floor(l.seconds)), Floor(l.seconds), maxPeriod)
    requires current.None? <==> l.seconds == MINUTE && |ReplayLaws.Fed(log[..k])| == |log[0].candles|
    ensures SliceAt(Slice(rows, l.period), log, k, l, maxPeriod)
  {
    hide Mirrors, Groups, Floor, Slice, ReplayLaws.Project;
  }

  // ----- What the evaluators of a run see

  /**
   An evaluator's own window at `now`, from the candles fed: exactly its number of rows, one per
   consecutive bucket, each made of every minute of its bucket up to now.
   */
  ghost predicate IsView(slice: seq<Candle>, fed: seq<Candle>, l: Lookback, now: int, closed: bool)
    requires l.seconds > 0
  {
    var gs := Groups(fed, Floor(l.seconds));
    && |slice| == l.period
    && (forall k: nat :: k < l.period ==>
          && IsWindowGroup(gs, Floor(l.seconds), l.seconds, l.period, k, now)
          && slice[k] == RowAt(gs, Floor(l.seconds), |gs| - l.period + k, closed))
  }

  /** The log of a replay of gap-free minutes loads the candles up to the first one and then feeds the others. */
  lemma ReplayIsRunLog(store: seq<Candle>, settlements: seq<Settlement>, lookbacks: seq<Option<Lookback>>,
                       longest: Lookback, start: nat, end: int)
    requires IsBacktest(store, lookbacks, longest, start, end)
    ensures var log := Replay.Replayed(store, settlements, start, end, longest.Duration());
      && IsRunLog(log) && log != [] && log[0].Load?
      && log[0].candles == Replay.Query(store, start - longest.Duration(), start)
  {
    hide Ascending, Replay.OnMinutes, Replay.GapFree, Replay.Query, Replay.IsIndexFrom, Replay.Rounds,
         Representable, ReplayLaws.Project, IsLongest, AllValid, StoredMinutes, Replay.Replayed;
    var from, p, lookback := start - longest.Duration(), Replay.IndexFrom(store, start), longest.Duration();
    var log := Replay.Replayed(store, settlements, start, end, lookback);
    RunIsGapFree(store, lookbacks, longest, start, end);
    ReplayLaws.GapFreeFrame(store, start, end);
    Replay.ReplayedFrom(store, settlements, start, end, lookback);
    ReplayLaws.LoadsAndFeedsAll(store, settlements, start, end, lookback);
    QueriedAreStored(store, from, end - MINUTE);
    ReplayLaws.QueryThrough(store, from, p);
    forall i | 0 < i < |log|
      ensures !log[i].Load?
    {
      if i >= 2 {
        ReplayLaws.EvaluatesFrom(store, p, settlements, start + DAY - 1, end, i - 2);
      }
    }
  }

  lemma QueriedAreStored(store: seq<Candle>, from: int, until: int)
    requires Ascending(store) && Replay.OnMinutes(store) && (forall c <- store :: Representable(c))
    ensures StoredMinutes(Replay.Query(store, from, until))
  {
    hide Replay.Query, Representable, Replay.IsIndexFrom;
    Replay.QueryIsSlice(store, from, until);
  }

  /** At the evaluation of a minute, the candles fed are the stored ones up to that minute. */
  lemma FedAtMinute(store: seq<Candle>, settlements: seq<Settlement>, lookbacks: seq<Option<Lookback>>,
                    longest: Lookback, start: nat, end: int, minute: nat, k: nat)
    requires IsBacktest(store, lookbacks, longest, start, end) && start + MINUTE * minute < end
    requires var log := Replay.Replayed(store, settlements, start, end, longest.Duration());
      k < |log| && log[k] == Replay.Iterate(start + MINUTE * minute + 59)
    ensures var log := Replay.Replayed(store, settlements, start, end, longest.Duration());
      ReplayLaws.Fed(log[..k]) == Replay.Query(store, start - longest.Duration(), start + MINUTE * minute)
  {
    hide Ascending, Replay.OnMinutes, Replay.GapFree, Replay.Query, Replay.IsIndexFrom, Replay.Rounds,
         Representable, ReplayLaws.Project, IsLongest, AllValid, Replay.Replayed, Lookback.Duration, CheckedFrom;
    PositiveLookback(store, lookbacks, longest, start, end);
    var from, p, lookback := start - longest.Duration(), Replay.IndexFrom(store, start), longest.Duration();
    RunIsGapFree(store, lookbacks, longest, start, end);
    ReplayLaws.GapFreeFrame(store, start, end);
    Replay.ReplayedFrom(store, settlements, start, end, lookback);
    ReplayLaws.MinuteAt(store, start, end, minute);
    var rounds := Replay.Rounds(store, p, settlements, start + DAY - 1, end);
    var load := Replay.Load(Replay.Query(store, from, start));
    var opening := [load, Replay.Report(start)];
    ReplayLaws.FedBefore(store, p, settlements, start + DAY - 1, end, k - 2, p + minute);
    assert (opening + rounds)[..k] == opening + rounds[..k - 2];
    LoadedFirst(load, start, rounds[..k - 2]);
    ReplayLaws.QueryThrough(store, from, p);
    ReplayLaws.QueryThrough(store, from, p + minute);
    ReplayLaws.SlicesJoin(store, Replay.IndexFrom(store, from), p + 1, p + minute + 1);
  }

  lemma LoadedFirst(load: Replay.Event, time: int, rounds: seq<Replay.Event>)
    requires load.Load?
    ensures ReplayLaws.Fed([load, Replay.Report(time)] + rounds) == load.candles + ReplayLaws.Fed(rounds)
  {
    hide ReplayLaws.Project;
    ReplayLaws.ProjectOpening(load, time, rounds, ReplayLaws.CandlesOf);
  }

  /** The evaluators are called at the end of every minute of the run, in order. */
  lemma EvaluatesEveryMinute(store: seq<Candle>, settlements: seq<Settlement>, lookbacks: seq<Option<Lookback>>,
                             longest: Lookback, start: nat, end: int, minute: nat)
    requires IsBacktest(store, lookbacks, longest, start, end)
    ensures var cursors := ReplayLaws.Project(Replay.Replayed(store, settlements, start, end, longest.Duration()),
                                              ReplayLaws.CursorsOf);
      && MINUTE * |cursors| == end - start
      && (minute < |cursors| ==> cursors[minute] == start + MINUTE * minute + 59)
  {
    hide Ascending, Replay.OnMinutes, Replay.GapFree, Replay.Query, Replay.IsIndexFrom, Replay.Rounds,
         Representable, ReplayLaws.Project, IsLongest, AllValid, Replay.Replayed, ReplayLaws.Cursors, ReplayLaws.Last;
    var p, lookback := Replay.IndexFrom(store, start), longest.Duration();
    RunIsGapFree(store, lookbacks, longest, start, end);
    ReplayLaws.GapFreeFrame(store, start, end);
    Replay.ReplayedFrom(store, settlements, start, end, lookback);
    ReplayLaws.ProjectOpening(Replay.Load(Replay.Query(store, start - lookback, start)), start,
                              Replay.Rounds(store, p, settlements, start + DAY - 1, end), ReplayLaws.CursorsOf);
    ReplayLaws.IteratesEachCandle(store, p, settlements, start + DAY - 1, end);
    var last := ReplayLaws.Last(store, p, end);
    ReplayLaws.LastMinute(store, start, end, 0);
    WholeRun(store, start, end);
    ReplayLaws.CursorsAt(store, p, last, if minute <= last - p then minute else 0);
    if minute <= last - p {
      ReplayLaws.MinuteAt(store, start, end, minute);
    }
  }

  lemma WholeRun(store: seq<Candle>, start: int, end: int)
    requires Replay.GapFree(store, start, end)
    ensures MINUTE * ((end - start) / MINUTE) == end - start
  {
    ReplayLaws.WholeMinutes(start, end, 0);
  }

  /**
   Whatever the buffer size, a backtest over these minutes calls its evaluators at the end of every
   minute from the start to the end. When the history check covers the window an evaluator needs at the
   start, the slice it gets from the shared consolidator is its own full window at each of these calls;
   when it does not, and nothing is stored before the checked minutes, its first slice is not.
   */
  method EvaluatorSeesItsWindow(store: seq<Candle>, settlements: seq<Settlement>,
                                ghost lookbacks: seq<Option<Lookback>>, longest: Lookback, l: Lookback,
                                start: nat, end: int, bufferSize: nat, maxPeriod: nat)
    returns (cursors: seq<int>, slices: seq<seq<Candle>>)
    requires IsBacktest(store, lookbacks, longest, start, end)
    requires l.Valid() && l.period <= maxPeriod
    requires bufferSize >= 1 && longest.Duration() <= MINUTE * bufferSize
    ensures MINUTE * |cursors| == end - start && |slices| == |cursors| > 0
    ensures forall m :: 0 <= m < |cursors| ==> cursors[m] == start + MINUTE * m + 59
    ensures CheckedFrom(start, Some(longest)) <= NeededFrom(start, l) ==>
      forall m :: 0 <= m < |slices| ==> ViewAt(slices[m], store, longest, l, start, m)
    ensures CheckedFrom(start, Some(longest)) > NeededFrom(start, l)
         && StoredFrom(store, CheckedFrom(start, Some(longest)))
      ==> !ViewAt(slices[0], store, longest, l, start, 0)
  {
    hide Ascending, Replay.OnMinutes, Replay.GapFree, Replay.Query, Replay.IsIndexFrom, IsLongest, CheckedFrom,
         NeededFrom,
         Representable, ReplayLaws.Project, Replay.Replayed, IsRunLog, SliceAt, ViewAt, StoredFrom, AllValid;
    RunIsGapFree(store, lookbacks, longest, start, end);
    var r, log := Replay.Run(store, settlements, start, end, bufferSize, longest.Duration());
    ReplayIsRunLog(store, settlements, lookbacks, longest, start, end);
    ghost var at;
    cursors, slices, at := Consolidate(log, l, maxPeriod);
    EvaluatesEveryMinute(store, settlements, lookbacks, longest, start, end, 0);
    forall m: nat | m < |cursors|
      ensures cursors[m] == start + MINUTE * m + 59
      ensures CheckedFrom(start, Some(longest)) <= NeededFrom(start, l) ==>
        ViewAt(slices[m], store, longest, l, start, m)
    {
      EvaluatesEveryMinute(store, settlements, lookbacks, longest, start, end, m);
      if CheckedFrom(start, Some(longest)) <= NeededFrom(start, l) {
        ViewAtMinute(store, settlements, lookbacks, longest, l, start, end, maxPeriod, m, at[m], slices[m]);
      }
    }
    if CheckedFrom(start, Some(longest)) > NeededFrom(start, l)
         && StoredFrom(store, CheckedFrom(start, Some(longest))) {
      UncheckedWindowIsMissing(store, longest, l, start, slices[0]);
    }
  }

  /** The slice taken at a minute is the evaluator's own window of the candles fed up to it. */
  ghost predicate ViewAt(slice: seq<Candle>, store: seq<Candle>, longest: Lookback, l: Lookback, start: int,
           minute: nat)
    requires l.seconds > 0
  {
    var now := start + MINUTE * minute;
    IsView(slice, Replay.Query(store, start - longest.Duration(), now), l, now, l.seconds == MINUTE && minute == 0)
  }

  ghost predicate StoredFrom(store: seq<Candle>, from: int) {
    forall c <- store :: from <= c.time
  }

  lemma {:induction false} GroupMembers(cs: seq<Candle>, floor: int -> int)
    ensures forall g, c :: g in Groups(cs, floor) && c in g ==> c in cs
    decreases |cs|
  {
    if cs != [] {
      var front, last := cs[..|cs| - 1], cs[|cs| - 1];
      assert cs == front + [last];
      GroupMembers(front, floor);
      var gs := Groups(front, floor);
      forall g, c | g in AddToGroups(gs, last, floor) && c in g
        ensures c in cs
      {
        if gs != [] && gs[|gs| - 1] != [] && floor(gs[|gs| - 1][0].time) == floor(last.time) {
          assert g in gs[..|gs| - 1] || g == gs[|gs| - 1] + [last];
          assert gs[|gs| - 1] in gs;
        } else {
          assert g in gs || g == [last];
        }
      }
    }
  }

  /** Without the first minute of its window among the candles fed, no slice is an evaluator's window. */
  lemma NoViewWithout(slice: seq<Candle>, fed: seq<Candle>, l: Lookback, now: int, closed: bool)
    requires l.Valid()
    requires forall c <- fed :: c.time != WindowStart(Floor(l.seconds)(now), l.seconds, l.period, 0)
    ensures !IsView(slice, fed, l, now, closed)
  {
    hide Groups, Floor, RowAt, WindowStart, IsWindowGroup;
    var gs: seq<seq<Candle>> := Groups(fed, Floor(l.seconds));
    GroupMembers(fed, Floor(l.seconds));
    forall i: nat | i < |gs| && gs[i] != []
      ensures gs[i][0].time != WindowStart(Floor(l.seconds)(now), l.seconds, l.period, 0)
    {
      assert gs[i] in gs && gs[i][0] in gs[i];
    }
    NoWindowGroup(gs, Floor(l.seconds), l, now);
  }

  lemma NoWindowGroup(gs: seq<seq<Candle>>, floor: int -> int, l: Lookback, now: int)
    requires l.Valid()
    requires forall i :: 0 <= i < |gs| && gs[i] != [] ==> gs[i][0].time != WindowStart(floor(now), l.seconds, l.period, 0)
    ensures !IsWindowGroup(gs, floor, l.seconds, l.period, 0, now)
  {
    hide WindowStart;
  }

  lemma UncheckedWindowIsMissing(store: seq<Candle>, longest: Lookback, l: Lookback, start: nat, slice: seq<Candle>)
    requires longest.Valid() && l.Valid() && Ascending(store)
    requires NeededFrom(start, l) < CheckedFrom(start, Some(longest))
         && StoredFrom(store, CheckedFrom(start, Some(longest)))
    ensures !ViewAt(slice, store, longest, l, start, 0)
  {
    hide CheckedFrom, Replay.Query, IsView, Ascending, Replay.IsIndexFrom, FloorToResolution, WindowStart;
    var from := start - longest.Duration();
    var fed := Replay.Query(store, from, start);
    Replay.QueryIsSlice(store, from, start);
    forall c <- fed
      ensures c.time != NeededFrom(start, l)
    {
      assert c in store;
    }
    NoViewWithout(slice, fed, l, start, l.seconds == MINUTE);
  }

  lemma ViewAtMinute(store: seq<Candle>, settlements: seq<Settlement>, lookbacks: seq<Option<Lookback>>,
                     longest: Lookback, l: Lookback, start: nat, end: int, maxPeriod: nat, minute: nat, k: nat,
                     slice: seq<Candle>)
    requires IsBacktest(store, lookbacks, longest, start, end)
    requires l.Valid() && CheckedFrom(start, Some(longest)) <= NeededFrom(start, l)
    requires l.period <= maxPeriod && start + MINUTE * minute < end
    requires var log := Replay.Replayed(store, settlements, start, end, longest.Duration());
      && k < |log| && log[0].Load? && log[k] == Replay.Iterate(start + MINUTE * minute + 59)
      && SliceAt(slice, log, k, l, maxPeriod)
    ensures ViewAt(slice, store, longest, l, start, minute)
  {
    hide IsBacktest, Replay.Query, ReplayLaws.Project, Replay.Replayed, RowAt, Mirrors, Groups, Floor, Slice, IsRunLog,
         WindowStart, Span, CheckedFrom, NeededFrom, Lookback.Duration;
    PositiveLookback(store, lookbacks, longest, start, end);
    var from, now := start - longest.Duration(), start + MINUTE * minute;
    var log := Replay.Replayed(store, settlements, start, end, longest.Duration());
    FedAtMinute(store, settlements, lookbacks, longest, start, end, minute, k);
    ReplayIsRunLog(store, settlements, lookbacks, longest, start, end);
    var fed := Replay.Query(store, from, now);
    var rows, current :|
      && Mirrors(rows, current, Groups(fed, Floor(l.seconds)), Floor(l.seconds), maxPeriod)
      && (current.None? <==> l.seconds == MINUTE && |fed| == |log[0].candles|)
      && slice == Slice(rows, l.period);
    FedGrows(store, lookbacks, longest, start, end, minute);
    MirroredWindow(store, lookbacks, longest, l, start, end, minute, rows, current, maxPeriod, 0);
    forall i: nat | i < l.period
      ensures IsWindowGroup(Groups(fed, Floor(l.seconds)), Floor(l.seconds), l.seconds, l.period, i, now)
      ensures slice[i] == RowAt(Groups(fed, Floor(l.seconds)), Floor(l.seconds),
                                |Groups(fed, Floor(l.seconds))| - l.period + i, current.None?)
    {
      MirroredWindow(store, lookbacks, longest, l, start, end, minute, rows, current, maxPeriod, i);
    }
  }

  /** Each minute one more candle has been fed. */
  lemma FedGrows(store: seq<Candle>, lookbacks: seq<Option<Lookback>>, longest: Lookback, start: nat, end: int,
                 minute: nat)
    requires IsBacktest(store, lookbacks, longest, start, end) && start + MINUTE * minute < end
    ensures var from := start - longest.Duration();
      |Replay.Query(store, from, start + MINUTE * minute)| == |Replay.Query(store, from, start)| + minute
  {
    hide Ascending, Replay.OnMinutes, Replay.GapFree, Replay.Query, IsLongest, AllValid, Representable, CheckedFrom,
         Replay.IsIndexFrom;
    var from, p := start - longest.Duration(), Replay.IndexFrom(store, start);
    CheckedWithinLookback(start, longest);
    RunIsGapFree(store, lookbacks, longest, start, end);
    ReplayLaws.MinuteAt(store, start, end, 0);
    ReplayLaws.MinuteAt(store, start, end, minute);
    ReplayLaws.QueryThrough(store, from, p);
    ReplayLaws.QueryThrough(store, from, p + minute);
  }

  // ----- A checked run whose evaluator lacks its window

  lemma {:induction false} Pow2Grows(m: nat, n: nat)
    requires m <= n
    ensures 1.0 <= Pow2(m) <= Pow2(n)
  {
    if n == 0 {
    } else if m < n {
      Pow2Grows(m, n - 1);
    } else {
      Pow2Grows(m - 1, n - 1);
    }
  }

  lemma LargestDouble()
    ensures F64_MAX >= 0.0
  {
    Pow2Grows(970, 1024);
  }

  /** Consecutive stable minutes without any price or volume. */
  function QuietMinutes(from: int, n: nat): seq<Candle> {
    seq(n, i => Candle(from + MINUTE * i, 0.0, 0.0, 0.0, 0.0, 0, 0, 0, true))
  }

  lemma QuietMinutesStored(from: nat, end: int)
    requires from % MINUTE == 0 && end % MINUTE == 0 && from + DAY <= end <= MAX_UTC
    ensures var store := QuietMinutes(from, (end - from) / MINUTE);
      && Ascending(store) && Replay.OnMinutes(store) && (forall c <- store :: Representable(c))
      && Replay.GapFree(store, from, end) && StoredFrom(store, from)
  {
    var n := (end - from) / MINUTE;
    var store := QuietMinutes(from, n);
    MinutesBetween(from, end);
    LargestDouble();
    forall i: nat | i < n
      ensures store[i].time == from + MINUTE * i && store[i].time % MINUTE == 0 && Representable(store[i])
    {
    }
    forall t | from <= t < end && t % MINUTE == 0
      ensures Replay.Stored(store, t)
    {
      MinutesBetween(from, t);
      assert store[(t - from) / MINUTE].time == t;
    }
  }

  /**
   Whenever the history check falls short of an evaluator's window, there is a run with every minute it
   asks for whose first slice is not that window: the one whose history begins there.
   */
  method UncheckedRun(settlements: seq<Settlement>, longest: Lookback, l: Lookback, start: nat, bufferSize: nat,
                      maxPeriod: nat)
    returns (store: seq<Candle>, slices: seq<seq<Candle>>)
    requires longest.Valid() && l.Valid() && l.Duration() <= longest.Duration() <= start
    requires start % MINUTE == 0 && start + DAY <= MAX_UTC
    requires NeededFrom(start, l) < CheckedFrom(start, Some(longest))
    requires l.period <= maxPeriod && bufferSize >= 1 && longest.Duration() <= MINUTE * bufferSize
    ensures IsBacktest(store, [Some(longest), Some(l)], longest, start, start + DAY)
    ensures slices != [] && !ViewAt(slices[0], store, longest, l, start, 0)
  {
    hide ViewAt, Replay.GapFree, Representable, Ascending, Replay.OnMinutes, StoredFrom, CheckedFrom, NeededFrom,
         Lookback.Duration;
    CheckedWithinLookback(start, longest);
    var from := CheckedFrom(start, Some(longest));
    QuietMinutesStored(from, start + DAY);
    store := QuietMinutes(from, (start + DAY - from) / MINUTE);
    FirstIsLongest(longest, l);
    var cursors;
    cursors, slices := EvaluatorSeesItsWindow(store, settlements, [Some(longest), Some(l)], longest, l, start,
             start + DAY,
                                              bufferSize, maxPeriod);
  }

  lemma FirstIsLongest(longest: Lookback, l: Lookback)
    requires longest.Valid() && l.Valid() && l.Duration() <= longest.Duration()
    ensures IsLongest(Some(longest), [Some(longest), Some(l)]) && AllValid([Some(longest), Some(l)])
  {
    hide Lookback.Duration;
    assert IsFirstLongest(0, longest, [Some(longest), Some(l)]);
  }
}
