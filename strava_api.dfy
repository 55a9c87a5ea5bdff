/** The local logic of the Strava client (lib/strava/api.ts): the FIFO rate
    limiter, the club-feed pagination loop, and the merge of per-athlete
    activity lists. HTTP calls are inputs: the pages the club endpoint would
    return, and each athlete's fetch result. */
module StravaApi {
  import opened Wrappers
  import opened Calendar
  import opened ActivityScoring

  /** `stravaConfig.rateLimit.perFifteenMinutes` (lib/strava/config.ts). */
  const PerFifteenMinutes: int := 100
  const RateWindowMs: int := 15 * 60 * 1000
  /** Dispatch pauses once this many requests went out in the window. */
  const RequestLimit: int := PerFifteenMinutes - 5

  // --------------------------------------------------------- rate limiter

  /** The limiter's fields; queued tasks are named by number. */
  datatype LimiterState = LimiterState(queue: seq<int>, processing: bool, requestCount: int, resetTime: int)

  /** One `processQueue` pass up to `await task()`: nothing while a task is in
      flight or the queue is empty; otherwise restart an expired window, wait
      out a full one, and dispatch the head of the queue. After a wait the
      clock reads the old `resetTime`. */
  function ProcessQueueStart(s: LimiterState, nowMs: int): (r: (LimiterState, Option<int>))
  {
    if s.processing || |s.queue| == 0 then (s, None)
    else
      var count1 := if nowMs > s.resetTime then 0 else s.requestCount;
      var reset1 := if nowMs > s.resetTime then nowMs + RateWindowMs else s.resetTime;
      var waits := count1 >= RequestLimit && reset1 - nowMs > 0;
      var count2 := if waits then 0 else count1;
      var reset2 := if waits then reset1 + RateWindowMs else reset1;
      (LimiterState(s.queue[1..], true, count2 + 1, reset2), Some(s.queue[0]))
  }

  /** The end of a pass, after the task settled: clear `processing`, and start
      the next pass when tasks are waiting. */
  function ProcessQueueFinish(s: LimiterState, nowMs: int): (r: (LimiterState, Option<int>))
  {
    var idle := s.(processing := false);
    if |idle.queue| > 0 then ProcessQueueStart(idle, nowMs) else (idle, None)
  }

  /** A pass does nothing while a task is in flight or nothing is queued;
      otherwise it dispatches the oldest queued task and keeps the others in
      order, marking a task in flight. */
  lemma ProcessQueueFifo(s: LimiterState, nowMs: int)
    ensures var (t, started) := ProcessQueueStart(s, nowMs);
      (s.processing || |s.queue| == 0) ==> t == s && started.None?
    ensures var (t, started) := ProcessQueueStart(s, nowMs);
      (!s.processing && |s.queue| > 0) ==>
        && started == Some(s.queue[0]) && t.queue == s.queue[1..] && t.processing
        && (t.requestCount == 1 || t.requestCount == s.requestCount + 1)
  {
  }

  /** Past `resetTime`, the window restarts at the current time and the task
      dispatched is the first of it. */
  lemma ProcessQueueWindowReset(s: LimiterState, nowMs: int)
    requires !s.processing && |s.queue| > 0 && nowMs > s.resetTime
    ensures ProcessQueueStart(s, nowMs).0.requestCount == 1
    ensures ProcessQueueStart(s, nowMs).0.resetTime == nowMs + RateWindowMs
  {
  }

  /** With 95 requests sent and the window still open, dispatch waits until
      the window ends and the task is the first of a new window. */
  lemma ProcessQueueWaitsAtLimit(s: LimiterState, nowMs: int)
    requires !s.processing && |s.queue| > 0 && nowMs < s.resetTime && s.requestCount >= RequestLimit
    ensures ProcessQueueStart(s, nowMs).0.requestCount == 1
    ensures ProcessQueueStart(s, nowMs).0.resetTime == s.resetTime + RateWindowMs
  {
  }

  /** At most 95 requests per window, as long as no pass runs at the very
      millisecond of `resetTime`. */
  lemma ProcessQueueCountBound(s: LimiterState, nowMs: int)
    requires s.requestCount <= RequestLimit && nowMs != s.resetTime
    ensures ProcessQueueStart(s, nowMs).0.requestCount <= RequestLimit
    ensures ProcessQueueFinish(s, nowMs).0.requestCount <= RequestLimit
  {
  }

  /** At the reset instant neither branch resets (`>` and `waitTime > 0`), so
      a 96th request goes out in the window. */
  lemma ProcessQueueAtResetInstant(q: seq<int>, resetTime: int)
    requires |q| > 0
    ensures ProcessQueueStart(LimiterState(q, false, RequestLimit, resetTime), resetTime).0.requestCount == RequestLimit + 1
  {
  }

  /** The module-level `rateLimiter`. `submitted` and `dispatched` record the
      tasks in the order of `execute` calls and of dispatch. */
  class RateLimiter {
    var queue: seq<int>
    var processing: bool
    var requestCount: int
    var resetTime: int
    ghost var submitted: seq<int>
    ghost var dispatched: seq<int>

    function State(): LimiterState
      reads this
    {
      LimiterState(queue, processing, requestCount, resetTime)
    }

    /** Tasks run in `execute` order: the dispatched ones, then the queue, are
        exactly the submitted ones. */
    ghost predicate Valid()
      reads this
    {
      submitted == dispatched + queue
    }

    constructor (nowMs: int)
      ensures State() == LimiterState([], false, 0, nowMs + RateWindowMs)
      ensures Valid() && submitted == [] && dispatched == []
    {
      queue := [];
      processing := false;
      requestCount := 0;
      resetTime := nowMs + RateWindowMs;
      submitted := [];
      dispatched := [];
    }

    /** `execute`: enqueue at the back, then start a pass. */
    method Execute(task: int, nowMs: int) returns (started: Option<int>)
      requires Valid()
      modifies this
      ensures Valid() && submitted == old(submitted) + [task]
      ensures (State(), started) == ProcessQueueStart(old(State()).(queue := old(queue) + [task]), nowMs)
    {
      queue := queue + [task];
      submitted := submitted + [task];
      started := ProcessQueue(nowMs);
    }

    /** The synchronous part of `processQueue`, up to `await task()`. */
    method ProcessQueue(nowMs: int) returns (started: Option<int>)
      requires Valid()
      modifies this
      ensures Valid() && submitted == old(submitted)
      ensures (State(), started) == ProcessQueueStart(old(State()), nowMs)
      ensures dispatched == old(dispatched) + (if started.Some? then [started.value] else [])
    {
      if processing || |queue| == 0 {
        return None;
      }
      processing := true;
      var now := nowMs;
      if now > resetTime {
        requestCount := 0;
        resetTime := now + RateWindowMs;
      }
      if requestCount >= RequestLimit {
        var waitTime := resetTime - now;
        if waitTime > 0 {
          now := resetTime;  // await setTimeout(resolve, waitTime)
          requestCount := 0;
          resetTime := now + RateWindowMs;
        }
      }
      var task := queue[0];
      queue := queue[1..];
      dispatched := dispatched + [task];
      requestCount := requestCount + 1;
      started := Some(task);
    }

    /** The rest of `processQueue`, once the task settled. */
    method TaskSettled(nowMs: int) returns (started: Option<int>)
      requires Valid()
      modifies this
      ensures Valid() && submitted == old(submitted)
      ensures (State(), started) == ProcessQueueFinish(old(State()), nowMs)
    {
      processing := false;
      started := None;
      if |queue| > 0 {
        started := ProcessQueue(nowMs);
      }
    }
  }

  // ------------------------------------------------------ club activities

  const ClubPageSize: int := 200
  const MaxClubPages: int := 5

  /** The page `fetchClubActivities(clubId, page, 200)` returns; pages past
      the end are empty. */
  function PageAt(pages: seq<seq<Activity>>, page: int): seq<Activity> {
    if 1 <= page <= |pages| then pages[page - 1] else []
  }

  /** The activities starting at or after the cut-off, in page order. */
  function RecentOnly(activities: seq<Activity>, sinceMs: int): (r: seq<Activity>)
    ensures forall a :: a in r <==> a in activities && a.startDate >= sinceMs
    ensures |r| <= |activities|
    decreases |activities|
  {
    if |activities| == 0 then []
    else
      var rest := RecentOnly(activities[1..], sinceMs);
      assert forall a :: a in activities <==> a == activities[0] || a in activities[1..];
      if activities[0].startDate >= sinceMs then [activities[0]] + rest else rest
  }

  /** The filter distributes over concatenation and keeps a single activity
      iff it is recent, so it keeps order and multiplicity. */
  lemma {:induction false} RecentOnlyAppend(a: seq<Activity>, b: seq<Activity>, sinceMs: int)
    ensures RecentOnly(a + b, sinceMs) == RecentOnly(a, sinceMs) + RecentOnly(b, sinceMs)
    ensures forall x :: RecentOnly([x], sinceMs) == if x.startDate >= sinceMs then [x] else []
    decreases |a|
  {
    if |a| == 0 {
      assert a + b == b;
    } else {
      assert (a + b)[1..] == a[1..] + b;
      RecentOnlyAppend(a[1..], b, sinceMs);
    }
  }

  /** A page with an activity older than the cut-off loses it in the filter. */
  lemma {:induction false} RecentOnlyDropsOld(activities: seq<Activity>, sinceMs: int)
    ensures |RecentOnly(activities, sinceMs)| == |activities| <==> forall a :: a in activities ==> a.startDate >= sinceMs
    decreases |activities|
  {
    if |activities| > 0 {
      RecentOnlyDropsOld(activities[1..], sinceMs);
      assert forall a :: a in activities <==> a == activities[0] || a in activities[1..];
    }
  }

  /** What the loop collects from page `page` on. */
  function ClubCollect(pages: seq<seq<Activity>>, page: int, sinceMs: int): seq<Activity>
    requires page >= 1
    decreases MaxClubPages + 1 - page
  {
    if page > MaxClubPages then []
    else
      var activities := PageAt(pages, page);
      if |activities| == 0 then []
      else
        var recentActivities := RecentOnly(activities, sinceMs);
        if |activities| < ClubPageSize || |recentActivities| < |activities| then recentActivities
        else recentActivities + ClubCollect(pages, page + 1, sinceMs)
  }

  /** One round of the loop below, stated on what was collected before it. */
  lemma ClubCollectStep(pages: seq<seq<Activity>>, page: int, sinceMs: int, collected: seq<Activity>)
    requires 1 <= page <= MaxClubPages
    ensures var activities := PageAt(pages, page);
      var recent := RecentOnly(activities, sinceMs);
      && (|activities| == 0 ==> collected + ClubCollect(pages, page, sinceMs) == collected)
      && (|activities| > 0 && (|activities| < ClubPageSize || |recent| < |activities|) ==>
            collected + ClubCollect(pages, page, sinceMs) == collected + recent)
      && (|activities| > 0 && !(|activities| < ClubPageSize || |recent| < |activities|) ==>
            collected + ClubCollect(pages, page, sinceMs) == (collected + recent) + ClubCollect(pages, page + 1, sinceMs))
  {
    var activities := PageAt(pages, page);
    var recent := RecentOnly(activities, sinceMs);
    if |activities| == 0 {
      assert collected + [] == collected;
    } else if !(|activities| < ClubPageSize || |recent| < |activities|) {
      assert collected + (recent + ClubCollect(pages, page + 1, sinceMs))
        == (collected + recent) + ClubCollect(pages, page + 1, sinceMs);
    }
  }

  /** Whether the loop, from page `page` on, requests a page in `failing`
      (a page whose `fetchClubActivities` call rejects) before it stops. */
  predicate ClubReachesFailure(pages: seq<seq<Activity>>, page: int, sinceMs: int, failing: set<int>)
    requires page >= 1
    decreases MaxClubPages + 1 - page
  {
    if page > MaxClubPages then false
    else if page in failing then true
    else
      var activities := PageAt(pages, page);
      if |activities| == 0 then false
      else
        var recentActivities := RecentOnly(activities, sinceMs);
        if |activities| < ClubPageSize || |recentActivities| < |activities| then false
        else ClubReachesFailure(pages, page + 1, sinceMs, failing)
  }

  /** Failures on pages the loop never requests do not matter: with every
      failing page after the fifth, the loop never fails. */
  lemma {:induction false} FailuresPastFifthPageHarmless(pages: seq<seq<Activity>>, page: int, sinceMs: int, failing: set<int>)
    requires page >= 1
    requires forall p :: p in failing ==> p > MaxClubPages
    ensures !ClubReachesFailure(pages, page, sinceMs, failing)
    decreases MaxClubPages + 1 - page
  {
    if page <= MaxClubPages {
      assert page !in failing;
      FailuresPastFifthPageHarmless(pages, page + 1, sinceMs, failing);
    }
  }

  /** `fetchAllRecentClubActivities`: `pages` are the activity pages of the
      club asked for (club 1853738 unless another id is given); up to five
      pages of 200 are read, stopping at an
      empty page, a short page, or a page reaching past the last 7 days. A
      rejected page request rejects the whole call (`Rejected`), losing the pages
      already collected. */
  method FetchAllRecentClubActivities(pages: seq<seq<Activity>>, failing: set<int>, nowMs: int)
    returns (result: Settled<seq<Activity>>)
    ensures result.Rejected? <==> ClubReachesFailure(pages, 1, nowMs - 7 * DayMs, failing)
    ensures result.Resolved? ==> result.value == ClubCollect(pages, 1, nowMs - 7 * DayMs)
  {
    var sevenDaysAgo := nowMs - 7 * DayMs;
    var allActivities := [];
    var page := 1;
    var hasMore := true;
    while hasMore && page <= MaxClubPages
      invariant 1 <= page <= MaxClubPages + 1
      invariant hasMore ==> allActivities + ClubCollect(pages, page, sevenDaysAgo) == ClubCollect(pages, 1, sevenDaysAgo)
      invariant hasMore ==> (ClubReachesFailure(pages, page, sevenDaysAgo, failing) <==> ClubReachesFailure(pages, 1, sevenDaysAgo, failing))
      invariant !hasMore ==> allActivities == ClubCollect(pages, 1, sevenDaysAgo)
      invariant !hasMore ==> !ClubReachesFailure(pages, 1, sevenDaysAgo, failing)
      decreases MaxClubPages + 1 - page, hasMore
    {
      if page in failing {
        return Rejected;
      }
      var activities := PageAt(pages, page);
      ClubCollectStep(pages, page, sevenDaysAgo, allActivities);
      if |activities| == 0 {
        hasMore := false;
        break;
      }
      var recentActivities := RecentOnly(activities, sevenDaysAgo);
      allActivities := allActivities + recentActivities;
      if |activities| < ClubPageSize || |recentActivities| < |activities| {
        hasMore := false;
      }
      page := page + 1;
    }
    result := Resolved(allActivities);
  }

  /** The filtered pages `page` .. `last - 1`, concatenated. */
  function RecentPages(pages: seq<seq<Activity>>, page: int, last: int, sinceMs: int): seq<Activity>
    decreases last - page
  {
    if page >= last then [] else RecentOnly(PageAt(pages, page), sinceMs) + RecentPages(pages, page + 1, last, sinceMs)
  }

  /** The result is the recent activities of the first k pages, for some k of
      at most 5, in page and in-page order. */
  lemma {:induction false} ClubCollectIsPrefixOfPages(pages: seq<seq<Activity>>, page: int, sinceMs: int)
    requires 1 <= page <= MaxClubPages + 1
    ensures exists last :: (page <= last <= MaxClubPages + 1
      && ClubCollect(pages, page, sinceMs) == RecentPages(pages, page, last, sinceMs))
    decreases MaxClubPages + 1 - page
  {
    if page > MaxClubPages {
      assert ClubCollect(pages, page, sinceMs) == RecentPages(pages, page, page, sinceMs);
    } else {
      var activities := PageAt(pages, page);
      var recent := RecentOnly(activities, sinceMs);
      if |activities| == 0 {
        assert ClubCollect(pages, page, sinceMs) == RecentPages(pages, page, page, sinceMs);
      } else if |activities| < ClubPageSize || |recent| < |activities| {
        assert RecentPages(pages, page + 1, page + 1, sinceMs) == [];
        assert ClubCollect(pages, page, sinceMs) == RecentPages(pages, page, page + 1, sinceMs);
      } else {
        ClubCollectIsPrefixOfPages(pages, page + 1, sinceMs);
        var last :| page + 1 <= last <= MaxClubPages + 1
          && ClubCollect(pages, page + 1, sinceMs) == RecentPages(pages, page + 1, last, sinceMs);
        assert ClubCollect(pages, page, sinceMs) == RecentPages(pages, page, last, sinceMs);
      }
    }
  }

  /** Every collected activity started within the cut-off. */
  lemma {:induction false} ClubCollectAllRecent(pages: seq<seq<Activity>>, page: int, sinceMs: int)
    requires page >= 1
    ensures forall a :: a in ClubCollect(pages, page, sinceMs) ==> a.startDate >= sinceMs
    decreases MaxClubPages + 1 - page
  {
    if page <= MaxClubPages && |PageAt(pages, page)| > 0 {
      ClubCollectAllRecent(pages, page + 1, sinceMs);
    }
  }

  /** Pages after the fifth are never requested. */
  lemma {:induction false} ClubCollectReadsFivePages(pages: seq<seq<Activity>>, more: seq<seq<Activity>>, page: int, sinceMs: int)
    requires page >= 1 && |pages| == MaxClubPages
    ensures ClubCollect(pages + more, page, sinceMs) == ClubCollect(pages, page, sinceMs)
    decreases MaxClubPages + 1 - page
  {
    if page <= MaxClubPages {
      assert PageAt(pages + more, page) == PageAt(pages, page);
      ClubCollectReadsFivePages(pages, more, page + 1, sinceMs);
    }
  }

  /** A short first page, or one reaching past the cut-off, ends the loop
      after one request. */
  lemma FirstPageStops(pages: seq<seq<Activity>>, sinceMs: int)
    requires |PageAt(pages, 1)| < ClubPageSize || exists a :: a in PageAt(pages, 1) && a.startDate < sinceMs
    ensures ClubCollect(pages, 1, sinceMs) == RecentOnly(PageAt(pages, 1), sinceMs)
  {
    RecentOnlyDropsOld(PageAt(pages, 1), sinceMs);
  }

  // ------------------------------------------------------- team activities

  /** `activitiesArrays.flat()`, a failed fetch (`None`) contributing `[]`. */
  function Flatten(results: seq<Option<seq<Activity>>>): (r: seq<Activity>)
    ensures forall a :: a in r <==> exists i :: 0 <= i < |results| && results[i].Some? && a in results[i].value
    decreases |results|
  {
    if |results| == 0 then []
    else
      var rest := Flatten(results[1..]);
      assert forall i :: 0 < i < |results| ==> results[i] == results[1..][i - 1];
      var head := if results[0].Some? then results[0].value else [];
      assert forall a :: a in rest ==> exists i :: 0 <= i < |results| && results[i].Some? && a in results[i].value by {
        forall a | a in rest ensures exists i :: 0 <= i < |results| && results[i].Some? && a in results[i].value {
          var j :| 0 <= j < |results[1..]| && results[1..][j].Some? && a in results[1..][j].value;
          assert results[j + 1] == results[1..][j];
        }
      }
      head + rest
  }

  /** Newest first by start date. */
  predicate NewestFirst(s: seq<Activity>) {
    forall i, j :: 0 <= i < j < |s| ==> s[i].startDate >= s[j].startDate
  }

  function InsertByDate(a: Activity, s: seq<Activity>): (r: seq<Activity>)
    decreases |s|
  {
    if |s| == 0 || a.startDate >= s[0].startDate then [a] + s
    else [s[0]] + InsertByDate(a, s[1..])
  }

  /** The comparator sort of `fetchTeamActivities`: newest first. */
  function SortNewestFirst(s: seq<Activity>): seq<Activity>
    decreases |s|
  {
    if |s| == 0 then [] else InsertByDate(s[0], SortNewestFirst(s[1..]))
  }

  /** Inserting adds the one activity and keeps the others. */
  lemma {:induction false} InsertByDatePermutes(a: Activity, s: seq<Activity>)
    ensures multiset(InsertByDate(a, s)) == multiset(s) + multiset{a}
    decreases |s|
  {
    if |s| > 0 && a.startDate < s[0].startDate {
      InsertByDatePermutes(a, s[1..]);
      assert s == [s[0]] + s[1..];
    }
  }

  /** Inserting into a newest-first list keeps it newest first. */
  lemma {:induction false} InsertByDateSorted(a: Activity, s: seq<Activity>)
    requires NewestFirst(s)
    ensures NewestFirst(InsertByDate(a, s))
    decreases |s|
  {
    if |s| > 0 && a.startDate < s[0].startDate {
      InsertByDateSorted(a, s[1..]);
      InsertByDatePermutes(a, s[1..]);
      var r := InsertByDate(a, s[1..]);
      forall x | x in r ensures x.startDate <= s[0].startDate {
        assert x in multiset(r);
        if x != a {
          assert x in multiset(s[1..]);
        }
      }
    }
  }

  /** The sort orders newest first and keeps every activity, duplicates
      included. */
  lemma {:induction false} SortNewestFirstCorrect(s: seq<Activity>)
    ensures NewestFirst(SortNewestFirst(s))
    ensures multiset(SortNewestFirst(s)) == multiset(s)
    decreases |s|
  {
    if |s| > 0 {
      SortNewestFirstCorrect(s[1..]);
      InsertByDateSorted(s[0], SortNewestFirst(s[1..]));
      InsertByDatePermutes(s[0], SortNewestFirst(s[1..]));
      assert s == [s[0]] + s[1..];
    }
  }

  /** `fetchTeamActivities` over the per-athlete fetch results. */
  function TeamActivities(results: seq<Option<seq<Activity>>>): seq<Activity> {
    SortNewestFirst(Flatten(results))
  }

  /** The merged list is newest first, a permutation of the concatenated
      lists, and holds exactly the activities of the fetches that succeeded. */
  lemma TeamActivitiesCorrect(results: seq<Option<seq<Activity>>>)
    ensures NewestFirst(TeamActivities(results))
    ensures multiset(TeamActivities(results)) == multiset(Flatten(results))
    ensures forall a :: a in TeamActivities(results) <==>
      exists i :: 0 <= i < |results| && results[i].Some? && a in results[i].value
  {
    SortNewestFirstCorrect(Flatten(results));
    forall a ensures a in TeamActivities(results) <==> a in Flatten(results) {
      assert a in TeamActivities(results) <==> a in multiset(TeamActivities(results));
      assert a in Flatten(results) <==> a in multiset(Flatten(results));
    }
  }
}
