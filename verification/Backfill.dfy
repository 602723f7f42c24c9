/**
 The funding-settlement backfill: what the stored settlement times say is still to be fetched, and
 the loop that fetches page after page until nothing is missing.
 */
module Backfill {
  import opened Basics
  import opened Grid
  import opened TimeSets

  datatype FundingDownloadRange =
    | Latest
    | UpperBound(from: int)
    | Missing(from: int, to: int)
    | LowerBound(to: int)
  {
    function End(): Option<int> {
      if Missing? || LowerBound? then Some(to) else None
    }
  }

  // ----- The stored times

  ghost predicate AllValid(store: set<int>) {
    forall t <- store :: IsValidSettlementTime(t)
  }

  /** A settlement time inside the scanned window and absent from the store. */
  ghost predicate IsGap(store: set<int>, range: Option<int>, exclude: Option<int>, now: int, t: int) {
    && range.Some? && store != {} && Earliest(store) < Newest(store)
    && OnGrid(t) && A_START <= t && t !in store
    && now - range.value <= t && Earliest(store) <= t
    && (if exclude.Some? then t < exclude.value else t <= Newest(store))
  }

  // ----- State

  datatype FundingSettlementsState = FundingSettlementsState(
    reachTime: Option<int>, bounds: Option<(int, int)>, missing: seq<int>)
  {
    /** The latest run of missing times no more than one interval apart. */
    function LatestMissingGroup(): Option<seq<int>> {
      if missing == [] then None else Some(missing[GroupStart(missing, |missing| - 1)..])
    }

    function NextDownloadRange(backfilling: bool): Result<FundingDownloadRange> {
      if bounds.None? then Ok(Latest)
      else if reachTime.Some? && bounds.value.0 == bounds.value.1 && bounds.value.0 < reachTime.value then
        Err(UnreachableMissing)
      else match LatestMissingGroup()
        case Some(group) =>
          var first, last := group[0], group[|group| - 1];
          if reachTime.Some? && first < reachTime.value then Err(UnreachableMissing) else Ok(Missing(first, last))
        case None =>
          if reachTime.Some? && backfilling && bounds.value.0 > reachTime.value then
            Ok(LowerBound(bounds.value.0))
          else
            Ok(UpperBound(bounds.value.1))
    }

    function HasMissing(): Result<bool> {
      if reachTime.None? then Err(ReachNotSet)
      else Ok(bounds.None? || missing != [] || reachTime.value < bounds.value.0)
    }
  }

  function GroupStart(missing: seq<int>, i: nat): (start: nat)
    requires i < |missing|
    ensures start <= i
  {
    if i == 0 || missing[i] - missing[i - 1] > INTERVAL then i else GroupStart(missing, i - 1)
  }

  /** The state is what a store shows at an instant: its bounds and, in order, exactly the gaps of the window. */
  ghost predicate Describes(state: FundingSettlementsState, store: set<int>, reachTime: Option<int>,
                            range: Option<int>, exclude: Option<int>, now: int) {
    && state.reachTime == reachTime
    && state.bounds == (if store == {} then None else Some((Earliest(store), Newest(store))))
    && StrictlyAscending(state.missing)
    && forall t :: t in state.missing <==> IsGap(store, range, exclude, now, t)
  }

  /** The evaluation fails on a settlement that no download can reach any more. */
  ghost predicate Unreachable(store: set<int>, reachTime: Option<int>, range: Option<int>, exclude: Option<int>,
                              now: int) {
    && reachTime.Some?
    && (|| (store != {} && Earliest(store) == Newest(store) < reachTime.value)
        || exists t :: IsGap(store, range, exclude, now, t) && t < reachTime.value)
  }

  /** The successful outcome of an evaluation. */
  ghost predicate Evaluates(state: FundingSettlementsState, store: set<int>, reachTime: Option<int>,
                            range: Option<int>, exclude: Option<int>, now: int) {
    Describes(state, store, reachTime, range, exclude, now) && !Unreachable(store, reachTime, range, exclude, now)
  }

  method Evaluate(store: set<int>, reachTime: Option<int>, range: Option<int>, exclude: Option<int>, now: int)
    returns (r: Result<FundingSettlementsState>)
    requires AllValid(store)
    ensures r.Ok? <==> !Unreachable(store, reachTime, range, exclude, now)
    ensures r.Err? ==> r.error == UnreachableMissing
    ensures r.Ok? ==> Evaluates(r.value, store, reachTime, range, exclude, now)
  {
    if store == {} {
      return Ok(FundingSettlementsState(reachTime, None, []));
    }
    var earliest, latest := Earliest(store), Newest(store);
    if earliest == latest {
      if reachTime.Some? && earliest < reachTime.value {
        return Err(UnreachableMissing);
      }
      return Ok(FundingSettlementsState(reachTime, Some((earliest, earliest)), []));
    }
    var missing := [];
    if range.Some? {
      var scanFrom := CeilSettlementTime(Max(now - range.value, earliest));
      var scanTo := if exclude.Some? then FloorSettlementTime(exclude.value - 1) else latest;
      WindowIsValid(store, range, exclude, now);
      if scanFrom <= scanTo {
        var found := GetMissingSettlementTimes(store, scanFrom, scanTo);
        missing := found.value;
      }
      forall t
        ensures IsMissing(store, scanFrom, scanTo, t) <==> IsGap(store, range, exclude, now, t)
      {
        WindowIsGaps(store, range, exclude, now, t);
      }
    }
    if missing != [] && reachTime.Some? && missing[0] < reachTime.value {
      assert missing[0] in missing;
      return Err(UnreachableMissing);
    }
    r := Ok(FundingSettlementsState(reachTime, Some((earliest, latest)), missing));
  }

  /** Snapping a bound to the grid changes no comparison with a grid point, even at the stray instant. */
  lemma SnapKeepsSide(x: int, g: int)
    requires OnGrid(g)
    ensures CeilSettlementTime(x) <= g <==> x <= g
    ensures g <= FloorSettlementTime(x) <==> g <= x
  {
    if x == STRAY {
      StrayInstant(x);
    } else {
      FloorCeilAdjunction(x, g);
    }
  }

  /** Searching between the snapped ends of the window finds exactly its gaps. */
  lemma WindowIsGaps(store: set<int>, range: Option<int>, exclude: Option<int>, now: int, t: int)
    requires range.Some? && store != {} && Earliest(store) < Newest(store)
    ensures
      var scanFrom := CeilSettlementTime(Max(now - range.value, Earliest(store)));
      var scanTo := if exclude.Some? then FloorSettlementTime(exclude.value - 1) else Newest(store);
      IsMissing(store, scanFrom, scanTo, t) <==> IsGap(store, range, exclude, now, t)
  {
    if OnGrid(t) {
      SnapKeepsSide(Max(now - range.value, Earliest(store)), t);
      if exclude.Some? {
        SnapKeepsSide(exclude.value - 1, t);
      }
    }
  }

  lemma WindowIsValid(store: set<int>, range: Option<int>, exclude: Option<int>, now: int)
    requires range.Some? && store != {} && AllValid(store)
    ensures IsValidSettlementTime(CeilSettlementTime(Max(now - range.value, Earliest(store))))
    ensures IsValidSettlementTime(if exclude.Some? then FloorSettlementTime(exclude.value - 1) else Newest(store))
  {
    SnapIsValid(Max(now - range.value, Earliest(store)));
    if exclude.Some? {
      SnapIsValid(exclude.value - 1);
    }
  }

  lemma SnapIsValid(x: int)
    ensures IsValidSettlementTime(CeilSettlementTime(x)) && IsValidSettlementTime(FloorSettlementTime(x))
  {
    StrayInstant(x);
    ValidIsOnGrid(CeilSettlementTime(x));
    ValidIsOnGrid(FloorSettlementTime(x));
    ValidIsOnGrid(STRAY);
  }

  // ----- What is requested next

  /** A state evaluated from a store that is not beyond help never fails to name the next request. */
  lemma NextRangeIsDefined(p: Progress, reach: int, range: Option<int>, now: int)
    requires InProgress(p, reach, range, now)
    ensures p.state.NextDownloadRange(true).Ok? && p.state.HasMissing().Ok?
    ensures p.exclude.Some? ==> A_START <= p.exclude.value
    ensures p.state.HasMissing() == Ok(false) ==>
      && p.store != {} && p.state.missing == [] && Earliest(p.store) <= reach
      && p.state.bounds == Some((Earliest(p.store), Newest(p.store)))
  {
    var missing := p.state.missing;
    if missing != [] {
      var start := GroupStart(missing, |missing| - 1);
      assert missing[start] in missing;
    }
  }

  lemma {:induction false} GroupStartIsMaximal(missing: seq<int>, i: nat)
    requires i < |missing|
    ensures
      var start := GroupStart(missing, i);
      && (forall k :: start < k <= i ==> missing[k] - missing[k - 1] <= INTERVAL)
      && (start > 0 ==> missing[start] - missing[start - 1] > INTERVAL)
  {
    if i > 0 && missing[i] - missing[i - 1] <= INTERVAL {
      GroupStartIsMaximal(missing, i - 1);
    }
  }

  lemma GridApart(a: int, b: int)
    requires OnGrid(a) && OnGrid(b) && a < b
    ensures a + INTERVAL <= b
  {
    if b <= A_END {
      DailySpacing(a, b);
    } else if (B_START <= a && b <= B_END) || C_START <= a {
      SlotSpacing(a, b);
    }
  }

  /**
   A request for missing times names a stretch of the grid none of which is stored, ending at the
   last missing time.
   */
  lemma MissingRequestIsAllMissing(p: Progress, reach: int, range: Option<int>, now: int, t: int)
    requires InProgress(p, reach, range, now)
    requires p.state.missing != []
    ensures
      var request := p.state.NextDownloadRange(true);
      && request.Ok? && request.value.Missing?
      && request.value.from in p.state.missing && request.value.to in p.state.missing
      && reach <= request.value.from
      && (t in p.state.missing ==> t <= request.value.to)
      && (OnGrid(t) && request.value.from <= t <= request.value.to ==> t !in p.store)
  {
    NextRangeIsDefined(p, reach, range, now);
    var missing := p.state.missing;
    var last := |missing| - 1;
    var start := GroupStart(missing, last);
    assert missing[start] in missing && missing[last] in missing;
    assert p.state.NextDownloadRange(true) == Ok(Missing(missing[start], missing[last]));
    if OnGrid(t) && missing[start] <= t <= missing[last] {
      InsideLatestGroup(missing, t);
    }
  }

  lemma InsideLatestGroup(missing: seq<int>, t: int)
    requires missing != [] && OnGrid(t) && (forall x <- missing :: OnGrid(x))
    requires missing[GroupStart(missing, |missing| - 1)] <= t <= missing[|missing| - 1]
    ensures t in missing
  {
    GroupStartIsMaximal(missing, |missing| - 1);
    InsideGroup(missing, GroupStart(missing, |missing| - 1), |missing| - 1, t);
  }

  lemma {:induction false} InsideGroup(missing: seq<int>, start: nat, last: nat, t: int)
    requires start <= last < |missing| && OnGrid(t) && missing[start] <= t <= missing[last]
    requires forall x <- missing :: OnGrid(x)
    requires forall k :: start < k <= last ==> missing[k] - missing[k - 1] <= INTERVAL
    ensures t in missing
  {
    if start == last || t == missing[last] {
      assert missing[last] in missing;
    } else if t <= missing[last - 1] {
      InsideGroup(missing, start, last - 1, t);
    } else {
      var a, b := missing[last - 1], missing[last];
      assert a in missing && b in missing;
      GridApart(a, t);
      GridApart(t, b);
    }
  }

  /** The gaps of the latest run: each but the first follows another of the run within one interval. */
  ghost predicate IsLatestRun(store: set<int>, range: Option<int>, exclude: Option<int>, now: int, from: int, to: int) {
    && IsGap(store, range, exclude, now, from) && IsGap(store, range, exclude, now, to)
    && (forall t :: IsGap(store, range, exclude, now, t) ==> t <= to && (t < from ==> t < from - INTERVAL))
    && (forall t :: from < t && IsGap(store, range, exclude, now, t) ==>
          exists u :: from <= u < t <= u + INTERVAL && IsGap(store, range, exclude, now, u))
  }

  /** The next request as the store tells it: nothing stored, a run of gaps, history short of the reach, or the newest entry. */
  ghost predicate IsNextRequest(request: FundingDownloadRange, store: set<int>, reach: int, range: Option<int>,
                                exclude: Option<int>, now: int, backfilling: bool) {
    if store == {} then request == Latest
    else if exists t :: IsGap(store, range, exclude, now, t) then
      request.Missing? && IsLatestRun(store, range, exclude, now, request.from, request.to)
    else if backfilling && reach < Earliest(store) then request == LowerBound(Earliest(store))
    else request == UpperBound(Newest(store))
  }

  lemma LatestRun(missing: seq<int>, start: nat, t: int)
    requires missing != [] && StrictlyAscending(missing) && start == GroupStart(missing, |missing| - 1) && t in missing
    ensures t <= missing[|missing| - 1]
    ensures t < missing[start] ==> t < missing[start] - INTERVAL
    ensures missing[start] < t ==> exists u :: missing[start] <= u < t <= u + INTERVAL && u in missing
  {
    GroupStartIsMaximal(missing, |missing| - 1);
    var i :| 0 <= i < |missing| && missing[i] == t;
    if i < start {
      assert missing[i] <= missing[start - 1];
    }
    if i > start {
      assert missing[i - 1] in missing && missing[start] <= missing[i - 1];
    }
  }

  /** Every state of the loop asks for exactly this. */
  lemma NextRequestIs(p: Progress, reach: int, range: Option<int>, now: int, backfilling: bool)
    requires InProgress(p, reach, range, now)
    ensures var request := p.state.NextDownloadRange(backfilling);
      request.Ok? && IsNextRequest(request.value, p.store, reach, range, p.exclude, now, backfilling)
  {
    hide IsGap, IsLatestRun;
    var missing := p.state.missing;
    if missing != [] {
      var last, start := |missing| - 1, GroupStart(missing, |missing| - 1);
      assert missing[start] in missing && missing[last] in missing;
      NotEmptyWhenMissing(p, reach, range, now, missing[last]);
      MissingIsLatestRun(missing, p.store, range, p.exclude, now);
    } else {
      assert forall t :: !IsGap(p.store, range, p.exclude, now, t);
    }
  }

  lemma MissingIsLatestRun(missing: seq<int>, store: set<int>, range: Option<int>, exclude: Option<int>, now: int)
    requires missing != [] && StrictlyAscending(missing)
    requires forall t :: t in missing <==> IsGap(store, range, exclude, now, t)
    ensures IsLatestRun(store, range, exclude, now, missing[GroupStart(missing, |missing| - 1)],
                        missing[|missing| - 1])
  {
    hide IsGap, StrictlyAscending, GroupStart;
    var last, start := |missing| - 1, GroupStart(missing, |missing| - 1);
    assert missing[start] in missing && missing[last] in missing;
    forall t | IsGap(store, range, exclude, now, t)
      ensures t <= missing[last]
      ensures t < missing[start] ==> t < missing[start] - INTERVAL
      ensures missing[start] < t ==>
        exists u :: missing[start] <= u < t <= u + INTERVAL && IsGap(store, range, exclude, now, u)
    {
      LatestRun(missing, start, t);
      if missing[start] < t {
        var u :| missing[start] <= u < t <= u + INTERVAL && u in missing;
        assert IsGap(store, range, exclude, now, u);
      }
    }
  }

  lemma NotEmptyWhenMissing(p: Progress, reach: int, range: Option<int>, now: int, t: int)
    requires InProgress(p, reach, range, now) && t in p.state.missing
    ensures p.store != {} && Earliest(p.store) < Newest(p.store)
  {
  }

  /** A request that is not bounded from above asks for what follows the newest entry there is. */
  lemma AsksForNewer(p: Progress, request: FundingDownloadRange, reach: int, range: Option<int>, now: int)
    requires InProgress(p, reach, range, now) && p.state.NextDownloadRange(true) == Ok(request)
    ensures request.End().None? ==> request == (if p.store == {} then Latest else UpperBound(Newest(p.store)))
  {
    hide IsGap, IsLatestRun;
    NextRequestIs(p, reach, range, now, true);
  }

  /** A page for what follows the newest entry that holds a later settlement moves the newest entry on. */
  lemma NewestMovesOn(p: Progress, reach: int, range: Option<int>, now: int, request: FundingDownloadRange,
                      page: seq<int>, t: int)
    requires InProgress(p, reach, range, now) && p.state.NextDownloadRange(true) == Ok(request)
    requires request.UpperBound? && t in page && t > request.from
    ensures p.store != {} && Newest(p.store + Times(page)) >= t > Newest(p.store)
  {
    hide IsGap;
    NextRequestIs(p, reach, range, now, true);
    assert t in Times(page);
  }

  // ----- One round of the loop

  /** What the loop carries from round to round. */
  datatype Progress = Progress(store: set<int>, exclude: Option<int>, state: FundingSettlementsState)

  ghost predicate InProgress(p: Progress, reach: int, range: Option<int>, now: int) {
    && Evaluates(p.state, p.store, Some(reach), range, p.exclude, now)
    && (p.exclude.Some? ==> A_START <= p.exclude.value)
  }

  /** Rows are only added, and only rows the service has. */
  ghost predicate Grows(before: set<int>, after: set<int>, horizon: set<int>) {
    before <= after <= before + horizon
  }

  ghost function Left(horizon: set<int>, store: set<int>): nat {
    |horizon - store|
  }

  function Times(page: seq<int>): set<int> {
    set t <- page
  }

  /** The end of a request for missing times is still missing although the page has been stored. */
  ghost predicate Refused(p: Progress, request: FundingDownloadRange, page: seq<int>, range: Option<int>, now: int) {
    request.Missing? && IsGap(p.store + Times(page), range, p.exclude, now, request.to)
  }

  /** A round stores a page and, if the end of the request stays missing, stops the scans short of it. */
  ghost predicate Rounds(a: Progress, request: FundingDownloadRange, page: seq<int>, b: Progress,
                         range: Option<int>, scanned: int) {
    && b.store == a.store + Times(page)
    && b.exclude == (if Refused(a, request, page, range, scanned) then Some(request.to) else a.exclude)
  }

  lemma RoundStores(a: Progress, request: FundingDownloadRange, page: seq<int>, b: Progress, range: Option<int>,
                    scanned: int)
    requires Rounds(a, request, page, b, range, scanned)
    ensures b.store == a.store + Times(page)
  {
  }

  /** Less is left to fetch, or the scans stop earlier, or fewer times are missing. */
  ghost predicate Closer(b: Progress, a: Progress, universe: set<int>) {
    var left, leftBefore := Left(universe, b.store), Left(universe, a.store);
    || left < leftBefore
    || (left == leftBefore
        && (|| StopsEarlier(b.exclude, a.exclude)
            || (b.exclude == a.exclude && |b.state.missing| < |a.state.missing|)))
  }

  predicate StopsEarlier(b: Option<int>, a: Option<int>) {
    b.Some? && (a.None? || b.value < a.value)
  }

  /** The replies that leave everything as it was: an empty first page, or a lower page of known times. */
  predicate Stuck(store: set<int>, request: FundingDownloadRange, page: seq<int>) {
    (request.Latest? || request.LowerBound?) && forall t <- page :: t in store
  }

  lemma FewerLeft(universe: set<int>, store: set<int>, added: set<int>)
    requires added <= universe
    ensures if added <= store then universe - (store + added) == universe - store
            else |universe - (store + added)| < |universe - store|
  {
    if !(added <= store) {
      var gained := added - store;
      assert universe - store == (universe - (store + added)) + gained;
      assert |gained| > 0;
    }
  }

  /** The window only shrinks as time goes on. */
  lemma GapsOnlyClose(store: set<int>, range: Option<int>, exclude: Option<int>, now: int, later: int, t: int)
    requires now <= later && IsGap(store, range, exclude, later, t)
    ensures IsGap(store, range, exclude, now, t)
  {
  }

  /**
   A round after which the loop goes on brings it closer to its end, except in exactly two cases: an
   empty first page, or a lower page with nothing new. Then the next round starts from the very same
   state, with the very same request.
   */
  lemma RoundProgress(a: Progress, page: seq<int>, b: Progress, universe: set<int>,
                      reach: int, range: Option<int>, now: int, scanned: int, later: int, synced: bool)
    requires InProgress(a, reach, range, now) && InProgress(b, reach, range, later) && now <= scanned <= later
    requires Times(page) <= universe
    requires a.state.NextDownloadRange(true).Ok?
    requires Rounds(a, a.state.NextDownloadRange(true).value, page, b, range, scanned)
    requires b.state.HasMissing() == Ok(true) || (!synced && a.state.NextDownloadRange(true).value.End().Some?)
    ensures Closer(b, a, universe) <==> !Stuck(a.store, a.state.NextDownloadRange(true).value, page)
    ensures Stuck(a.store, a.state.NextDownloadRange(true).value, page) ==> b == a
  {
    var request := a.state.NextDownloadRange(true).value;
    FewerLeft(universe, a.store, Times(page));
    if Times(page) <= a.store {
      assert a.store + Times(page) == a.store;
      forall t | t in b.state.missing && b.exclude == a.exclude
        ensures t in a.state.missing
      {
        GapsOnlyClose(a.store, range, a.exclude, now, later, t);
      }
      if a.state.missing != [] {
        QuietMissingRound(a, page, b, reach, range, now, scanned, later);
      } else {
        EmptyOrMember(b.state.missing);
      }
      assert Stuck(a.store, request, page) <==> request.Latest? || request.LowerBound? by {
        assert forall t <- page :: t in Times(page);
      }
    } else {
      assert exists t :: t in Times(page) && t !in a.store;
    }
  }

  /** A missing request that brings nothing new either cuts the scans short or leaves nothing missing. */
  lemma QuietMissingRound(a: Progress, page: seq<int>, b: Progress, reach: int, range: Option<int>,
                          now: int, scanned: int, later: int)
    requires InProgress(a, reach, range, now) && InProgress(b, reach, range, later) && now <= scanned <= later
    requires a.state.missing != [] && Times(page) <= a.store
    requires a.state.NextDownloadRange(true).Ok?
    requires Rounds(a, a.state.NextDownloadRange(true).value, page, b, range, scanned)
    ensures a.state.NextDownloadRange(true).value.Missing?
    ensures StopsEarlier(b.exclude, a.exclude) || (b.exclude == a.exclude && b.state.missing == [])
  {
    var request := a.state.NextDownloadRange(true).value;
    assert a.store + Times(page) == a.store;
    MissingRequestIsAllMissing(a, reach, range, now, A_START);
    if b.state.missing != [] && b.exclude == a.exclude {
      var t := b.state.missing[0];
      assert t in b.state.missing;
      GapsOnlyClose(a.store, range, a.exclude, now, later, t);
      MissingRequestIsAllMissing(a, reach, range, now, t);
      GapsAboveStay(a.store, range, a.exclude, scanned, later, t, request.to);
    }
  }

  lemma GapsAboveStay(store: set<int>, range: Option<int>, exclude: Option<int>, now: int, later: int, t: int,
                      above: int)
    requires now <= later && t <= above
    requires IsGap(store, range, exclude, later, t)
    requires OnGrid(above) && above !in store
         && (if exclude.Some? then above < exclude.value else above <= Newest(store))
    ensures IsGap(store, range, exclude, now, above)
  {
  }

  lemma EmptyOrMember(s: seq<int>)
    ensures s == [] || exists t :: t in s
  {
    if |s| > 0 {
      var first := s[0];
      assert first in s;
    }
  }

  // ----- The loop

  /** Every settlement time from a limit up to another is stored or was refused. */
  ghost predicate CoveredFrom(store: set<int>, refused: set<int>, since: int, first: int, last: int) {
    forall t :: OnGrid(t) && since <= t && first <= t <= last ==> t in store || t in refused
  }

  /** Before the scans are cut short nothing is refused; afterwards the stretch above the cut is accounted for. */
  ghost predicate Accounted(p: Progress, refused: set<int>, scannedTo: int, range: Option<int>, now: int,
                            initial: set<int>) {
    match p.exclude
    case None => refused == {}
    case Some(e) =>
      && refused != {} && range.Some? && p.store != {} && Earliest(p.store) < Newest(p.store)
      && (initial != {} ==> Newest(initial) <= scannedTo)
      && CoveredFrom(p.store, refused, now - range.value, e, scannedTo)
  }

  /** The end of the request is still missing: the scans are cut short below it, and all above it is accounted for. */
  lemma CutRound(a: Progress, request: FundingDownloadRange, page: seq<int>, newState: FundingSettlementsState,
                 b: Progress,
                 reach: int, range: Option<int>, now: int, scanned: int, later: int,
                 refused: set<int>, scannedTo: int, cutTo: int, initial: set<int>)
    requires InProgress(a, reach, range, now) && now <= scanned <= later
    requires Ok(request) == a.state.NextDownloadRange(true)
    requires b.store == a.store + Times(page) && b.exclude == request.End()
    requires Evaluates(newState, b.store, Some(reach), range, a.exclude, scanned)
    requires Evaluates(b.state, b.store, Some(reach), range, b.exclude, later)
    requires request.Missing? && request.to in newState.missing
    requires Accounted(a, refused, scannedTo, range, now, initial) && initial <= a.store
    requires a.store != {} && cutTo == if a.exclude.None? then Newest(a.store) else scannedTo
    ensures Rounds(a, request, page, b, range, scanned)
    ensures InProgress(b, reach, range, later)
    ensures Accounted(b, refused + {request.to}, cutTo, range, later, initial)
    ensures request.to !in page
  {
    MissingIsRequested(a, reach, range, now);
    MissingRequestIsAllMissing(a, reach, range, now, A_START);
    assert Earliest(a.store) in b.store && Newest(a.store) in b.store;
    forall t | OnGrid(t) && later - range.value <= t && request.to < t <= cutTo && (a.exclude.Some?
         ==> t < a.exclude.value)
      ensures t in a.store
    {
      MissingRequestIsAllMissing(a, reach, range, now, t);
    }
  }

  /** Otherwise the scans go as far as before, and stored pages and passing time leave everything accounted for. */
  lemma KeptRound(a: Progress, request: FundingDownloadRange, page: seq<int>, b: Progress,
                  reach: int, range: Option<int>, now: int, scanned: int, refused: set<int>, scannedTo: int,
                           initial: set<int>)
    requires InProgress(a, reach, range, now) && now <= scanned
    requires b.store == a.store + Times(page) && b.exclude == a.exclude
    requires Evaluates(b.state, b.store, Some(reach), range, b.exclude, scanned)
    requires !(request.Missing? && request.to in b.state.missing)
    requires Accounted(a, refused, scannedTo, range, now, initial)
    ensures Rounds(a, request, page, b, range, scanned)
    ensures InProgress(b, reach, range, scanned)
    ensures Accounted(b, refused, scannedTo, range, scanned, initial)
  {
    if a.exclude.Some? {
      assert Earliest(a.store) in b.store && Newest(a.store) in b.store;
    }
  }

  lemma Begins(p: Progress, scannedTo: int, reach: int, range: Option<int>, now: int, initial: set<int>)
    requires Evaluates(p.state, p.store, Some(reach), range, None, now) && p.exclude.None?
    ensures InProgress(p, reach, range, now) && Accounted(p, {}, scannedTo, range, now, initial)
  {
  }

  /**
   The history starts early enough, and every settlement time of the window is stored or was
   refused; without a refusal the window reaches to the newest entry, and never less far than it did.
   */
  ghost predicate Complete(store: set<int>, refused: set<int>, scannedTo: int, reach: int, range: Option<int>, now: int,
                           initial: set<int>) {
    && store != {} && Earliest(store) <= reach
    && (range.Some? ==> CoveredFrom(store, refused, Max(now - range.value, A_START), Earliest(store), scannedTo))
    && (refused == {} ==> scannedTo == Newest(store))
    && (initial != {} ==> Newest(initial) <= scannedTo)
  }

  lemma NothingLeft(p: Progress, refused: set<int>, scannedTo: int, finally: int, reach: int, range: Option<int>,
                    now: int, last: int, initial: set<int>, horizon: set<int>)
    requires InProgress(p, reach, range, now) && now <= last
    requires p.state.HasMissing() == Ok(false) && Grows(initial, p.store, horizon) && p.store != {}
    requires Accounted(p, refused, scannedTo, range, now, initial)
    requires finally == if p.exclude.None? then Newest(p.store) else scannedTo
    ensures Complete(p.store, refused, finally, reach, range, last, initial)
  {
    forall t | range.Some? && OnGrid(t) && Max(last - range.value, A_START) <= t && Earliest(p.store) <= t <= finally
      ensures t in p.store || t in refused
    {
      assert !IsGap(p.store, range, p.exclude, now, t);
    }
  }

  /** A nonempty first page and a page reaching below the lower bound both bring something new. */
  lemma FirstPageOrLower(p: Progress, request: FundingDownloadRange, page: seq<int>, reach: int, range: Option<int>,
                         now: int)
    requires InProgress(p, reach, range, now) && Ok(request) == p.state.NextDownloadRange(true)
    requires request.Latest? ==> page != []
    requires request.LowerBound? ==> exists t :: t in page && t < request.to
    ensures !Stuck(p.store, request, page)
  {
    if request.Latest? {
      EmptyOrMember(page);
    }
  }

  lemma MissingIsRequested(p: Progress, reach: int, range: Option<int>, now: int)
    requires InProgress(p, reach, range, now)
    requires p.state.NextDownloadRange(true).Ok? && p.state.NextDownloadRange(true).value.Missing?
    ensures p.state.missing != [] && p.store != {}
  {
  }

  /** The synchronisation of settlements. The n-th reply of the service is a function of the request; the clock is any that never runs back. */
  class SyncFundingSettlementsTask {
    const reach: int
    const api: (nat, FundingDownloadRange) -> Option<seq<int>>
    var store: set<int>
    var requests: nat
    var lastReading: int
    /** Every request with its reply, the times that ended a request in vain, and how far up the scans looked. */
    ghost var log: seq<(FundingDownloadRange, Option<seq<int>>)>
    ghost var refused: map<int, nat>
    ghost var scannedTo: int

    ghost predicate Valid()
      reads this`store
    {
      AllValid(store)
    }

    /**
     Replies hold only times of a fixed horizon; the first page is not empty, and a lower page is
     empty or reaches below its bound.
     */
    ghost predicate Answers(horizon: set<int>) {
      forall n: nat, request :: api(n, request).Some? ==> Answer(request, api(n, request).value, horizon)
    }

    static ghost predicate Answer(request: FundingDownloadRange, page: seq<int>, horizon: set<int>) {
      && Times(page) <= horizon
      && (request.Latest? ==> page != [])
      && (request.LowerBound? ==> page == [] || exists t :: t in page && t < request.to)
    }

    constructor (reach: int, api: (nat, FundingDownloadRange) -> Option<seq<int>>, store: set<int>, now: int)
      requires AllValid(store)
      ensures Valid()
      ensures this.reach == reach && this.api == api && this.store == store && lastReading == now
    {
      this.reach, this.api, this.store, lastReading := reach, api, store, now;
      requests, log, refused := 0, [], map[];
    }

    method Now() returns (now: int)
      modifies this`lastReading
      ensures old(lastReading) <= now == lastReading
    {
      now :| lastReading <= now;
      lastReading := now;
    }

    /** Stores the whole page or, on an unusable one, nothing. */
    method PartialDownload(request: FundingDownloadRange, ghost horizon: set<int>) returns (r: Result<seq<int>>)
      requires Valid() && Answers(horizon)
      modifies this`store, this`requests, this`log
      ensures Valid()
      ensures exists reply ::
        && log == old(log) + [(request, reply)]
        && (r.Ok? <==> reply.Some? && (forall t <- reply.value :: IsValidSettlementTime(t))
                       && !(request.LowerBound? && reply.value == []))
        && (r.Ok? ==> r.value == reply.value)
      ensures r.Ok? ==> log == old(log) + [(request, Some(r.value))]
      ensures r.Ok? ==> Answer(request, r.value, horizon) && (request.LowerBound? ==> r.value != [])
      ensures store == if r.Ok? then old(store) + Times(r.value) else old(store)
      ensures old(WereRefused()) ==> WereRefused()
    {
      var reply := api(requests, request);
      requests, log := requests + 1, log + [(request, reply)];
      if reply.None? {
        return Err(ApiUnavailable);
      }
      var page := reply.value;
      for i := 0 to |page|
        invariant forall k :: 0 <= k < i ==> IsValidSettlementTime(page[k])
      {
        if !IsValidSettlementTime(page[i]) {
          return Err(InvalidSettlementTime);
        }
      }
      if page == [] && request.LowerBound? {
        return Err(NothingBeforeHistoryStart);
      }
      store := store + Times(page);
      r := Ok(page);
    }

    /** Each refused time ended a logged request, whose page did not hold it. */
    ghost predicate WereRefused()
      reads this`log, this`refused
    {
      forall t <- refused :: refused[t] < |log| && IsRefusal(log[refused[t]], t)
    }

    static ghost predicate IsRefusal(entry: (FundingDownloadRange, Option<seq<int>>), t: int) {
      entry.0.End() == Some(t) && entry.1.Some? && t !in entry.1.value
    }

    ghost method ForgetRefusals()
      modifies this`refused
      ensures refused == map[] && refused.Keys == {} && WereRefused()
    {
      refused := map[];
    }

    ghost method Refuse(t: int, page: seq<int>)
      requires WereRefused() && log != [] && IsRefusal(log[|log| - 1], t)
      modifies this`refused
      ensures WereRefused() && refused.Keys == old(refused.Keys) + {t}
    {
      refused := refused[t := |log| - 1];
    }

    /** What the loop knows between rounds. */
    ghost predicate Ready(p: Progress, range: Option<int>, now: int, initial: set<int>, horizon: set<int>)
      reads this
    {
      && Valid() && now <= lastReading
      && p.store == store && InProgress(p, reach, range, now)
      && Grows(initial, store, horizon) && Accounted(p, refused.Keys, scannedTo, range, now, initial)
      && WereRefused()
    }

    method Begin(range: Option<int>, ghost horizon: set<int>) returns (r: Result<FundingSettlementsState>)
      requires Valid()
      modifies this`lastReading, this`refused
      ensures WereRefused() && Grows(store, store, horizon)
      ensures r.Ok? ==> Ready(Progress(store, None, r.value), range, lastReading, store, horizon)
    {
      ForgetRefusals();
      var now := Now();
      var state :- Evaluate(store, Some(reach), range, None, now);
      Begins(Progress(store, None, state), scannedTo, reach, range, now, store);
      r := Ok(state);
    }

    /** One download, the evaluation after it, and the exclusion of a time the service would not deliver. */
    method Round(range: Option<int>, exclude: Option<int>, state: FundingSettlementsState,
                 request: FundingDownloadRange,
                 ghost now: int, ghost initial: set<int>, ghost horizon: set<int>)
      returns (r: Result<(Option<int>, FundingSettlementsState)>, ghost page: seq<int>, ghost scanned: int,
               ghost later: int)
      requires Answers(horizon)
      requires Ready(Progress(store, exclude, state), range, now, initial, horizon)
      requires Ok(request) == state.NextDownloadRange(true)
      modifies this`store, this`requests, this`log, this`lastReading, this`refused, this`scannedTo
      ensures Valid() && WereRefused()
      ensures Grows(initial, store, horizon)
      ensures r.Ok? ==> log != [] && log[|log| - 1] == (request, Some(page))
      ensures r.Ok? ==> Times(page) <= horizon && !Stuck(old(store), request, page) && now <= scanned <= later
      ensures r.Ok? ==> Ready(Progress(store, r.value.0, r.value.1), range, later, initial, horizon)
      ensures r.Ok? ==>
        Rounds(Progress(old(store), exclude, state), request, page, Progress(store, r.value.0, r.value.1), range,
               scanned)
    {
      hide InProgress, Accounted, CoveredFrom, Rounds, Evaluates, Refused, Stuck, Times, AllValid, Answers, Answer,
           WereRefused,
           IsLeast, IsGreatest, FundingSettlementsState.NextDownloadRange;
      ghost var before := Progress(store, exclude, state);
      page, scanned, later := [], now, now;
      var reply := PartialDownload(request, horizon);
      page :- reply;
      FirstPageOrLower(before, request, page, reach, range, now);
      var first := Now();
      scanned, later := first, first;
      var newState :- Evaluate(store, Some(reach), range, exclude, first);
      if request.Missing? && request.to in newState.missing {
        var second := Now();
        later := second;
        var cutState :- Evaluate(store, Some(reach), range, request.End(), second);
        MissingIsRequested(before, reach, range, now);
        ghost var cutTo := if exclude.None? then Newest(before.store) else scannedTo;
        CutRound(before, request, page, newState, Progress(store, request.End(), cutState), reach, range,
                 now, first, second, refused.Keys, scannedTo, cutTo, initial);
        Refuse(request.to, page);
        scannedTo := cutTo;
        r := Ok((request.End(), cutState));
      } else {
        KeptRound(before, request, page, Progress(store, exclude, newState), reach, range,
                  now, first, refused.Keys, scannedTo, initial);
        r := Ok((exclude, newState));
      }
    }

    /** The last request was for what follows the newest entry there was, or for anything at all. */
    ghost predicate AskedForNewer()
      reads this`log, this`store
    {
      && log != [] && log[|log| - 1].1.Some?
      && exists before: set<int> ::
           && store == before + Times(log[|log| - 1].1.value)
           && log[|log| - 1].0 == (if before == {} then Latest else UpperBound(Newest(before)))
    }

    lemma LastAskedForNewer(before: set<int>, request: FundingDownloadRange, page: seq<int>)
      requires log != [] && log[|log| - 1] == (request, Some(page)) && store == before + Times(page)
      requires request == (if before == {} then Latest else UpperBound(Newest(before)))
      ensures AskedForNewer()
    {
    }

    /**
     Fetches until the history reaches back far enough, no scanned time is missing but those the
     service refused to deliver, and the newest entry is current or nothing newer was to be had.
     */
    method Backfill(range: Option<int>, ghost horizon: set<int>) returns (r: Result<bool>)
      requires Valid() && Answers(horizon)
      modifies this`store, this`requests, this`log, this`lastReading, this`refused, this`scannedTo
      ensures Valid() && WereRefused()
      ensures Grows(old(store), store, horizon)
      ensures r.Ok? ==> Complete(store, refused.Keys, scannedTo, reach, range, lastReading, old(store))
      ensures r.Ok? ==> store != {} && (r.value <==> Newest(store) >= FloorSettlementTime(lastReading))
      ensures r == Ok(false) ==> AskedForNewer()
    {
      hide AskedForNewer, Grows, InProgress, Accounted, CoveredFrom, Rounds, Evaluates, Stuck, Times, AllValid,
           Answers, WereRefused, FloorSettlementTime, IsLeast, IsGreatest, Complete, Left,
           FundingSettlementsState.NextDownloadRange, FundingSettlementsState.HasMissing;
      ghost var initial := store;
      var exclude: Option<int> := None;
      var state :- Begin(range, horizon);
      ghost var now := lastReading;
      while true
        invariant Ready(Progress(store, exclude, state), range, now, initial, horizon)
        decreases Left(horizon, store), if exclude.None? then 1 else 0,
                  if exclude.Some? then exclude.value - A_START else 0, |state.missing|
      {
        ghost var before, was := Progress(store, exclude, state), now;
        var request :- state.NextDownloadRange(true);
        NextRangeIsDefined(before, reach, range, now);
        var result, page, scanned, later := Round(range, exclude, state, request, now, initial, horizon);
        var next :- result;
        exclude, state := next.0, next.1;
        now := later;
        var missing :- state.HasMissing();
        NextRangeIsDefined(Progress(store, exclude, state), reach, range, now);
        var synced := false;
        if !missing {
          var current := Now();
          synced := state.bounds.value.1 >= FloorSettlementTime(current);
          if synced || request.End().None? {
            ghost var finally := if exclude.None? then Newest(store) else scannedTo;
            NothingLeft(Progress(store, exclude, state), refused.Keys, scannedTo, finally, reach, range,
                        now, current, initial, horizon);
            scannedTo := finally;
            AsksForNewer(before, request, reach, range, was);
            if !synced {
              RoundStores(before, request, page, Progress(store, exclude, state), range, scanned);
              LastAskedForNewer(before.store, request, page);
            }
            return Ok(synced);
          }
        }
        RoundProgress(before, page, Progress(store, exclude, state), horizon, reach, range, was, scanned, now, synced);
      }
    }
  }
}
