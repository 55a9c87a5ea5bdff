/** The leaderboard data endpoint (app/api/leaderboard/data/route.ts): ranks
    and gaps, swimming share, the recent-activity feed, the week start, and
    the 30-second response cache. Database rows, the per-athlete streaks, the
    clock and the key-value store's failures are inputs. */
module LeaderboardRoute {
  import opened Wrappers
  import opened Calendar
  import opened DbSchema
  import ActivityScoring
  import LeaderboardUtils

  /** `CACHE_TTL`, in seconds. */
  const CacheTtl: int := 30
  /** The pulse indicator's window, in hours. */
  const RecentHours: real := 6.0

  /** A row of the `weekly_leaderboard` view. */
  datatype WeeklyEntry = WeeklyEntry(
    athleteId: int,
    username: string,
    firstname: string,
    lastname: string,
    profilePictureUrl: Option<string>,
    totalActivities: int,
    swimmingActivities: int,
    totalWeightedScore: real,
    compositeScore: real,
    lastActivityAt: Option<int>)

  datatype EnrichedEntry = EnrichedEntry(
    athleteId: int,
    rank: int,
    username: string,
    firstname: string,
    lastname: string,
    profilePictureUrl: Option<string>,
    totalActivities: int,
    swimmingActivities: int,
    totalWeightedScore: real,
    compositeScore: real,
    lastActivityAt: Option<int>,
    gapBehindLeader: real,
    gapBehindNext: real,
    swimmingPercentage: real,
    isSwimmingDominant: bool,
    streak: int,
    hasRecentActivity: bool)

  datatype FeedItem = FeedItem(
    id: int,
    athleteId: int,
    athleteFirstname: string,
    athleteLastname: string,
    activityType: string,
    name: string,
    isSwimming: bool,
    weightedScore: real,
    startDate: int,
    timeAgo: string)

  datatype LeaderboardResponse = LeaderboardResponse(
    leaderboard: seq<EnrichedEntry>,
    activityFeed: seq<FeedItem>,
    weekStartDate: int,
    lastUpdated: int,
    totalAthletes: int)

  function Max(a: real, b: real): (m: real)
    ensures m >= a && m >= b && (m == a || m == b)
  {
    if a >= b then a else b
  }

  // --------------------------------------------------------- enrichment

  /** The share of swimming activities in percent, 0 for no activities. */
  function SwimmingPercentage(swims: int, total: int): real {
    if total > 0 then swims as real / total as real * 100.0 else 0.0
  }

  /** The enrichment of row `index` of the leaderboard. `streakOf` gives the
      value `calculateSmartStreak` returns for an athlete. */
  function EnrichEntry(entries: seq<WeeklyEntry>, index: int, streakOf: int -> int, nowMs: int): EnrichedEntry
    requires 0 <= index < |entries|
  {
    var entry := entries[index];
    var rank := index + 1;
    var leaderScore := if |entries| > 0 then entries[0].compositeScore else 0.0;
    var previousScore := if index > 0 then entries[index - 1].compositeScore else 0.0;
    var gapBehindLeader := Max(0.0, leaderScore - entry.compositeScore);
    var gapBehindNext := if index > 0 then previousScore - entry.compositeScore else 0.0;
    var swimmingPercentage := SwimmingPercentage(entry.swimmingActivities, entry.totalActivities);
    EnrichedEntry(
      entry.athleteId, rank, entry.username, entry.firstname, entry.lastname,
      entry.profilePictureUrl, entry.totalActivities, entry.swimmingActivities,
      entry.totalWeightedScore, entry.compositeScore, entry.lastActivityAt,
      gapBehindLeader, gapBehindNext, swimmingPercentage, swimmingPercentage >= 50.0,
      streakOf(entry.athleteId),
      LeaderboardUtils.IsWithinHours(entry.lastActivityAt, nowMs, RecentHours))
  }

  /** `leaderboardEntries.map(...)`: every row enriched, in input order. */
  function Enrich(entries: seq<WeeklyEntry>, streakOf: int -> int, nowMs: int): (r: seq<EnrichedEntry>)
    ensures |r| == |entries|
  {
    seq(|entries|, i requires 0 <= i < |entries| => EnrichEntry(entries, i, streakOf, nowMs))
  }

  /** Ranks run 1..n in input order; the view's columns and the athlete's
      streak are carried over; the swimming share is the row's percentage,
      dominant from 50% on; the recent-activity flag is the 6-hour test. */
  lemma EnrichRanksAndCopies(entries: seq<WeeklyEntry>, streakOf: int -> int, nowMs: int)
    ensures var r := Enrich(entries, streakOf, nowMs);
      forall i :: 0 <= i < |r| ==>
        && r[i].rank == i + 1
        && r[i].athleteId == entries[i].athleteId
        && r[i].compositeScore == entries[i].compositeScore
        && r[i].totalActivities == entries[i].totalActivities
        && r[i].swimmingActivities == entries[i].swimmingActivities
        && r[i].username == entries[i].username
        && r[i].firstname == entries[i].firstname
        && r[i].lastname == entries[i].lastname
        && r[i].profilePictureUrl == entries[i].profilePictureUrl
        && r[i].totalWeightedScore == entries[i].totalWeightedScore
        && r[i].lastActivityAt == entries[i].lastActivityAt
        && r[i].swimmingPercentage == SwimmingPercentage(entries[i].swimmingActivities, entries[i].totalActivities)
        && (r[i].isSwimmingDominant <==> r[i].swimmingPercentage >= 50.0)
        && r[i].streak == streakOf(entries[i].athleteId)
        && (r[i].hasRecentActivity <==>
              entries[i].lastActivityAt.Some? && entries[i].lastActivityAt.value <= nowMs
              && (nowMs - entries[i].lastActivityAt.value) as real <= 6.0 * 3600000.0)
  {
    var r := Enrich(entries, streakOf, nowMs);
    forall i | 0 <= i < |r| ensures r[i].hasRecentActivity <==>
              entries[i].lastActivityAt.Some? && entries[i].lastActivityAt.value <= nowMs
              && (nowMs - entries[i].lastActivityAt.value) as real <= 6.0 * 3600000.0
    {
      LeaderboardUtils.IsWithinHoursIff(entries[i].lastActivityAt, nowMs, RecentHours);
    }
  }

  /** The leader is 0 behind everybody's measure; every gap to the leader is
      the leader's lead, or 0 for an athlete at or above the leader; the gap
      to the next athlete up is the previous row's score minus one's own. */
  lemma LeaderGaps(entries: seq<WeeklyEntry>, streakOf: int -> int, nowMs: int)
    ensures var r := Enrich(entries, streakOf, nowMs);
      |r| > 0 ==> r[0].rank == 1 && r[0].gapBehindLeader == 0.0 && r[0].gapBehindNext == 0.0
    ensures var r := Enrich(entries, streakOf, nowMs);
      forall i :: 0 <= i < |r| ==>
        && r[i].gapBehindLeader >= 0.0
        && (entries[i].compositeScore <= entries[0].compositeScore ==>
              r[i].gapBehindLeader == entries[0].compositeScore - entries[i].compositeScore)
        && (entries[i].compositeScore >= entries[0].compositeScore ==> r[i].gapBehindLeader == 0.0)
        && (i > 0 ==> r[i].gapBehindNext == entries[i - 1].compositeScore - entries[i].compositeScore)
  {
  }

  /** The `ORDER BY composite_score DESC` of `getWeeklyLeaderboard`. */
  predicate RankedByComposite(entries: seq<WeeklyEntry>) {
    forall i, j :: 0 <= i < j < |entries| ==> entries[i].compositeScore >= entries[j].compositeScore
  }

  /** The gaps to the next athlete up, summed from rank 1 to rank `i + 1`. */
  function GapsToNextUpTo(r: seq<EnrichedEntry>, i: int): real
    requires 0 <= i < |r|
    decreases i
  {
    if i == 0 then r[0].gapBehindNext else GapsToNextUpTo(r, i - 1) + r[i].gapBehindNext
  }

  /** On rows ranked by composite, no gap is negative and the gap to the
      leader is the sum of the gaps to the next athlete up. */
  lemma {:induction false} RankedGapsTelescope(entries: seq<WeeklyEntry>, streakOf: int -> int, nowMs: int, i: int)
    requires RankedByComposite(entries)
    requires 0 <= i < |entries|
    ensures var r := Enrich(entries, streakOf, nowMs);
      r[i].gapBehindNext >= 0.0 && r[i].gapBehindLeader == GapsToNextUpTo(r, i)
    decreases i
  {
    var r := Enrich(entries, streakOf, nowMs);
    if i > 0 {
      RankedGapsTelescope(entries, streakOf, nowMs, i - 1);
      assert entries[i - 1].compositeScore >= entries[i].compositeScore;
      assert entries[0].compositeScore >= entries[i - 1].compositeScore;
    }
  }

  /** `gapBehindNext` is not clamped: out of order rows give a negative gap. */
  lemma UnrankedGapIsNegative(a: WeeklyEntry, b: WeeklyEntry, streakOf: int -> int, nowMs: int)
    requires a.compositeScore == 10.0 && b.compositeScore == 20.0
    ensures Enrich([a, b], streakOf, nowMs)[1].gapBehindNext == -10.0
    ensures Enrich([a, b], streakOf, nowMs)[1].gapBehindLeader == 0.0
  {
  }

  /** Swimming share: 0 and not dominant without activities; otherwise the
      athlete is swimming-dominant exactly when at least half the activities
      are swims, and the share is a percentage when the counts are sane. */
  lemma SwimmingShare(swims: int, total: int)
    ensures total <= 0 ==> SwimmingPercentage(swims, total) == 0.0 && !(SwimmingPercentage(swims, total) >= 50.0)
    ensures total > 0 ==> (SwimmingPercentage(swims, total) >= 50.0 <==> 2 * swims >= total)
    ensures 0 <= swims <= total ==> 0.0 <= SwimmingPercentage(swims, total) <= 100.0
  {
    if total > 0 {
      ShareOfTotal(swims as real, total as real);
      if 0 <= swims <= total {
        ShareWithinBounds(swims as real, total as real);
      }
    }
  }

  /** `s / t * 100` against 50%. */
  lemma ShareOfTotal(s: real, t: real)
    requires t > 0.0
    ensures s / t * 100.0 >= 50.0 <==> 2.0 * s >= t
  {
    var q := s / t;
    assert q * t == s;
    if q >= 0.5 {
      assert (q - 0.5) * t >= 0.0;
    } else {
      ProductPositive(0.5 - q, t);
      assert (0.5 - q) * t == 0.5 * t - q * t;
    }
  }

  lemma ProductPositive(a: real, b: real)
    requires a > 0.0 && b > 0.0
    ensures a * b > 0.0
  {
  }

  lemma ShareWithinBounds(s: real, t: real)
    requires t > 0.0 && 0.0 <= s <= t
    ensures 0.0 <= s / t <= 1.0
  {
    var q := s / t;
    assert q * t == s;
    assert (1.0 - q) * t == t - s;
  }

  // --------------------------------------------------------------- feed

  /** `new Map(athletes.map(a => [a.id, a]))`: later rows win. */
  function AthleteMap(athletes: seq<DbAthlete>): (m: map<int, DbAthlete>)
    ensures forall id :: id in m ==> m[id].id == id && m[id] in athletes
    ensures forall a :: a in athletes ==> a.id in m
    decreases |athletes|
  {
    if |athletes| == 0 then map[]
    else
      var last := athletes[|athletes| - 1];
      var rest := AthleteMap(athletes[..|athletes| - 1]);
      assert forall a :: a in athletes <==> a in athletes[..|athletes| - 1] || a == last;
      rest[last.id := last]
  }

  /** The partial record `isSwimmingActivity` is given for a feed item: the
      type stands in for the sport type as well. */
  function FeedActivity(a: DbActivity): ActivityScoring.Activity {
    ActivityScoring.Activity(a.id, a.athleteId, a.name, 0.0, 0.0, 0.0, 0.0, a.activityType,
      a.activityType, a.startDate, "", "", None, None, None, None, false)
  }

  /** One feed item: the athlete's names with `'Unknown'` and `''` standing
      in for a missing athlete or an empty name. */
  function FeedItemOf(a: DbActivity, athleteMap: map<int, DbAthlete>, nowMs: int): FeedItem {
    var athlete := if a.athleteId in athleteMap then Some(athleteMap[a.athleteId]) else None;
    FeedItem(
      a.id, a.athleteId,
      if athlete.Some? && athlete.value.firstname != "" then athlete.value.firstname else "Unknown",
      if athlete.Some? && athlete.value.lastname != "" then athlete.value.lastname else "",
      a.activityType, a.name,
      ActivityScoring.IsSwimming(FeedActivity(a)),
      a.weightedScore, a.startDate,
      LeaderboardUtils.FormatTimeAgo(nowMs, a.startDate))
  }

  /** `recentActivities.map(...)`, in input order. */
  function ActivityFeed(recent: seq<DbActivity>, athletes: seq<DbAthlete>, nowMs: int): (r: seq<FeedItem>)
    ensures |r| == |recent|
  {
    var athleteMap := AthleteMap(athletes);
    seq(|recent|, i requires 0 <= i < |recent| => FeedItemOf(recent[i], athleteMap, nowMs))
  }

  /** A feed item is swimming exactly when its type is a swimming type or its
      name has a swimming keyword; an athlete missing from `athletes` shows as
      'Unknown' with an empty last name, and a known one under their names;
      the activity's own fields are copied and its age is `formatTimeAgo`. */
  lemma FeedItemProperties(recent: seq<DbActivity>, athletes: seq<DbAthlete>, nowMs: int, i: int)
    requires 0 <= i < |recent|
    ensures var item := ActivityFeed(recent, athletes, nowMs)[i];
      && item.id == recent[i].id && item.athleteId == recent[i].athleteId
      && item.startDate == recent[i].startDate
      && item.activityType == recent[i].activityType && item.name == recent[i].name
      && item.weightedScore == recent[i].weightedScore
      && item.timeAgo == LeaderboardUtils.FormatTimeAgo(nowMs, recent[i].startDate)
      && (item.isSwimming <==>
            recent[i].activityType in ActivityScoring.SwimmingActivityTypes
            || ActivityScoring.NameHasSwimmingKeyword(recent[i].name))
      && ((forall a :: a in athletes ==> a.id != recent[i].athleteId) ==>
            item.athleteFirstname == "Unknown" && item.athleteLastname == "")
      && ((exists a :: a in athletes && a.id == recent[i].athleteId) ==>
            exists a :: a in athletes && a.id == recent[i].athleteId
              && item.athleteFirstname == (if a.firstname != "" then a.firstname else "Unknown")
              && item.athleteLastname == a.lastname)
  {
    var athleteMap := AthleteMap(athletes);
    if recent[i].athleteId in athleteMap {
      var a := athleteMap[recent[i].athleteId];
      assert a in athletes && a.id == recent[i].athleteId;
    }
  }

  // ---------------------------------------------------------- week start

  /** `getDate()`: the day of the month of a UTC day. */
  method DayOfMonth(day: int) returns (date: int)
    ensures date == LeaderboardUtils.MonthDayOf(day).1
  {
    var (_, d) := LeaderboardUtils.MonthDayOf(day);
    date := d;
  }

  /** The `weekStart` steps of `fetchLeaderboardData`: `setDate(getDate() - day
      + (day === 0 ? -6 : 1))` on the day of the month, then midnight. */
  method WeekStartDate(nowMs: int) returns (weekStartMs: int)
    ensures weekStartMs == MondayOf(DayOf(nowMs)) * DayMs
    ensures WeekDay(DayOf(weekStartMs)) == 1 && weekStartMs % DayMs == 0
    ensures weekStartMs <= nowMs < weekStartMs + 7 * DayMs
  {
    var weekStart := nowMs;
    var today := DayOf(weekStart);
    var day := WeekDay(today);
    var date := DayOfMonth(today);
    var diff := date - day + (if day == 0 then -6 else 1);
    // setDate(diff): day `diff` counted from the first of the month
    var firstOfMonth := today - (date - 1);
    weekStart := weekStart + (firstOfMonth + diff - 1 - today) * DayMs;
    assert firstOfMonth + diff - 1 - today == MondayOf(today) - today;
    DayOfShift(nowMs, MondayOf(today) - today);
    weekStart := DayOf(weekStart) * DayMs;  // setHours(0, 0, 0, 0)
    weekStartMs := weekStart;
    MondayOfProperties(today);
    DayOfShift(0, MondayOf(today));
  }

  // ------------------------------------------------------------ response

  /** `fetchLeaderboardData` over the three query results. */
  method FetchLeaderboardData(entries: seq<WeeklyEntry>, recent: seq<DbActivity>, athletes: seq<DbAthlete>,
                              streakOf: int -> int, nowMs: int)
    returns (data: LeaderboardResponse)
    ensures data.leaderboard == Enrich(entries, streakOf, nowMs)
    ensures data.activityFeed == ActivityFeed(recent, athletes, nowMs)
    ensures data.totalAthletes == |data.leaderboard| == |entries|
    ensures data.weekStartDate == MondayOf(DayOf(nowMs)) * DayMs && data.lastUpdated == nowMs
  {
    var enriched := Enrich(entries, streakOf, nowMs);
    var feed := ActivityFeed(recent, athletes, nowMs);
    var weekStart := WeekStartDate(nowMs);
    data := LeaderboardResponse(enriched, feed, weekStart, nowMs, |enriched|);
  }

  /** What `GET` answers: the JSON body, or the 500 error. */
  datatype HttpResult = Ok(body: LeaderboardResponse) | ServerError

  /** A response stored under `leaderboard:enriched`, with its expiry. */
  datatype CachedResponse = CachedResponse(data: LeaderboardResponse, expiresAt: int)

  /** The `leaderboard:enriched` key of the key-value store. */
  class ResponseCache {
    var stored: Option<CachedResponse>

    constructor ()
      ensures stored == None
    {
      stored := None;
    }

    /** `kv.get`: the stored response until it expires. */
    function Read(nowMs: int): Option<LeaderboardResponse>
      reads this
    {
      if stored.Some? && nowMs < stored.value.expiresAt then Some(stored.value.data) else None
    }

    /** `GET`: the cached response when there is one; otherwise fresh data,
        stored for 30 seconds. A failing read, query or write answers 500. */
    method Get(entries: seq<WeeklyEntry>, recent: seq<DbActivity>, athletes: seq<DbAthlete>,
               streakOf: int -> int, nowMs: int, readFails: bool, queryFails: bool, writeFails: bool)
      returns (result: HttpResult)
      modifies this
      ensures readFails ==> result == ServerError && stored == old(stored)
      ensures !readFails && old(Read(nowMs)).Some? ==> result == Ok(old(Read(nowMs)).value) && stored == old(stored)
      ensures !readFails && old(Read(nowMs)).None? && (queryFails || writeFails) ==>
        result == ServerError && stored == old(stored)
      ensures !readFails && old(Read(nowMs)).None? && !queryFails && !writeFails ==>
        && result.Ok?
        && result.body.leaderboard == Enrich(entries, streakOf, nowMs)
        && result.body.activityFeed == ActivityFeed(recent, athletes, nowMs)
        && result.body.totalAthletes == |entries|
        && result.body.weekStartDate == MondayOf(DayOf(nowMs)) * DayMs
        && result.body.lastUpdated == nowMs
        && stored == Some(CachedResponse(result.body, nowMs + CacheTtl * 1000))
        && Read(nowMs) == Some(result.body)
    {
      if readFails {
        return ServerError;
      }
      var cached := Read(nowMs);
      if cached.Some? {
        return Ok(cached.value);
      }
      if queryFails {
        return ServerError;
      }
      var data := FetchLeaderboardData(entries, recent, athletes, streakOf, nowMs);
      if writeFails {
        return ServerError;
      }
      stored := Some(CachedResponse(data, nowMs + CacheTtl * 1000));
      result := Ok(data);
    }
  }
}
