/** Weekly heart-rate zone distribution per athlete (lib/hr/zones.ts): the
    last seven days of an athlete's database activities, converted to Strava
    records and passed to `calculateHRZoneStats`, with every figure rounded
    to the minute. The `activities` table and the clock are inputs. */
module HRZones {
  import opened Wrappers
  import opened Calendar
  import opened DbSchema
  import opened HeartRate
  import ActivityScoring

  const WindowDays: int := 7

  /** `HRZoneData`: whole minutes per zone. */
  datatype HRZoneData = HRZoneData(
    zone1Minutes: int,
    zone2Minutes: int,
    zone3Minutes: int,
    zone4Minutes: int,
    zone5Minutes: int,
    totalMinutes: int,
    activitiesWithHR: int)

  /** `AthleteHRZoneData` */
  datatype AthleteHRZoneData = AthleteHRZoneData(
    athleteId: int,
    firstname: string,
    lastname: string,
    profilePictureUrl: Option<string>,
    maxHeartrate: real,
    hrZoneData: Option<HRZoneData>)

  /** `x || d` on a nullable number: null and 0 both give `d`. */
  function OrDefault(x: Option<real>, d: real): (r: real)
    ensures x.Some? && x.value != 0.0 ==> r == x.value
    ensures x.None? || x.value == 0.0 ==> r == d
  {
    if x.Some? && x.value != 0.0 then x.value else d
  }

  /** `getAthleteActivities(athleteId, sevenDaysAgo)`: the athlete's rows
      starting no earlier than the cut-off, in table order. */
  function AthleteActivitiesSince(rows: seq<DbActivity>, athleteId: int, sinceMs: int): (r: seq<DbActivity>)
    ensures forall a :: a in r <==> a in rows && a.athleteId == athleteId && a.startDate >= sinceMs
    decreases |rows|
  {
    if |rows| == 0 then []
    else
      var rest := AthleteActivitiesSince(rows[1..], athleteId, sinceMs);
      assert forall a :: a in rows <==> a == rows[0] || a in rows[1..];
      if rows[0].athleteId == athleteId && rows[0].startDate >= sinceMs then [rows[0]] + rest else rest
  }

  /** The filter on `average_heartrate !== null && !== undefined`. */
  function WithAverageHR(rows: seq<DbActivity>): (r: seq<DbActivity>)
    ensures forall a :: a in r <==> a in rows && a.averageHeartrate.Some?
    ensures |r| <= |rows|
    decreases |rows|
  {
    if |rows| == 0 then []
    else
      var rest := WithAverageHR(rows[1..]);
      assert forall a :: a in rows <==> a == rows[0] || a in rows[1..];
      if rows[0].averageHeartrate.Some? then [rows[0]] + rest else rest
  }

  /** The athlete/date filter distributes over concatenation and keeps a
      single row iff it passes, so it keeps order and multiplicity. */
  lemma {:induction false} AthleteActivitiesSinceAppend(a: seq<DbActivity>, b: seq<DbActivity>, athleteId: int, sinceMs: int)
    ensures AthleteActivitiesSince(a + b, athleteId, sinceMs)
      == AthleteActivitiesSince(a, athleteId, sinceMs) + AthleteActivitiesSince(b, athleteId, sinceMs)
    ensures forall x :: (AthleteActivitiesSince([x], athleteId, sinceMs)
      == if x.athleteId == athleteId && x.startDate >= sinceMs then [x] else [])
    decreases |a|
  {
    if |a| == 0 {
      assert a + b == b;
    } else {
      assert (a + b)[1..] == a[1..] + b;
      AthleteActivitiesSinceAppend(a[1..], b, athleteId, sinceMs);
    }
  }

  /** The average filter distributes over concatenation and keeps a single
      row iff it has an average, so it keeps order and multiplicity. */
  lemma {:induction false} WithAverageHRAppend(a: seq<DbActivity>, b: seq<DbActivity>)
    ensures WithAverageHR(a + b) == WithAverageHR(a) + WithAverageHR(b)
    ensures forall x :: WithAverageHR([x]) == if x.averageHeartrate.Some? then [x] else []
    decreases |a|
  {
    if |a| == 0 {
      assert a + b == b;
    } else {
      assert (a + b)[1..] == a[1..] + b;
      WithAverageHRAppend(a[1..], b);
    }
  }

  /** A row of the athlete in the seven days before now. */
  predicate InWindow(a: DbActivity, athleteId: int, nowMs: int) {
    a.athleteId == athleteId && a.startDate >= nowMs - WindowDays * DayMs
  }

  /** The filter leaves nothing exactly when no row has an average. */
  lemma {:induction false} WithAverageHREmpty(rows: seq<DbActivity>)
    ensures |WithAverageHR(rows)| == 0 <==> forall a :: a in rows ==> a.averageHeartrate.None?
    decreases |rows|
  {
    if |rows| > 0 {
      WithAverageHREmpty(rows[1..]);
      assert forall a :: a in rows <==> a == rows[0] || a in rows[1..];
    }
  }

  /** The Strava record built for one row: missing numbers become 0, the
      elapsed time copies the moving time, the heart-rate flag is forced on,
      and a missing or zero maximum falls back to the athlete's. */
  function ToStravaActivity(a: DbActivity, athleteId: int, maxHeartrate: real): (r: ActivityScoring.Activity)
    ensures r.distance == a.distance.GetOr(0.0) && r.movingTime == a.movingTime.GetOr(0.0)
    ensures r.elapsedTime == r.movingTime && r.hasHeartrate
    ensures r.sportType == r.activityType == a.activityType && r.averageHeartrate == a.averageHeartrate
    ensures r.maxHeartrate.Some? && (a.maxHeartrate.None? ==> r.maxHeartrate.value == maxHeartrate)
    ensures r.maxHeartrate == Some(OrDefault(a.maxHeartrate, maxHeartrate))
    ensures r.totalElevationGain == OrDefault(a.totalElevationGain, 0.0)
  {
    ActivityScoring.Activity(
      a.id, athleteId, a.name,
      OrDefault(a.distance, 0.0), OrDefault(a.movingTime, 0.0), OrDefault(a.movingTime, 0.0),
      OrDefault(a.totalElevationGain, 0.0), a.activityType, a.activityType,
      a.startDate, "", "UTC", None, None, a.averageHeartrate,
      Some(OrDefault(a.maxHeartrate, maxHeartrate)), true)
  }

  function ToStravaActivities(rows: seq<DbActivity>, athleteId: int, maxHeartrate: real): (r: seq<ActivityScoring.Activity>)
    ensures |r| == |rows|
    ensures forall i :: 0 <= i < |rows| ==> r[i] == ToStravaActivity(rows[i], athleteId, maxHeartrate)
  {
    seq(|rows|, i requires 0 <= i < |rows| => ToStravaActivity(rows[i], athleteId, maxHeartrate))
  }

  /** Every figure of the statistics rounded on its own. */
  function RoundedZones(stats: HRZoneStats): HRZoneData {
    HRZoneData(
      JsRound(stats.zoneMinutes.z1), JsRound(stats.zoneMinutes.z2), JsRound(stats.zoneMinutes.z3),
      JsRound(stats.zoneMinutes.z4), JsRound(stats.zoneMinutes.z5),
      JsRound(stats.totalHRMinutes), stats.activitiesWithHR)
  }

  /** The records `calculateAthleteZoneDistribution` hands to the statistics. */
  function ZoneInputs(rows: seq<DbActivity>, athleteId: int, maxHeartrate: real, nowMs: int): seq<ActivityScoring.Activity> {
    var activities := AthleteActivitiesSince(rows, athleteId, nowMs - WindowDays * DayMs);
    ToStravaActivities(WithAverageHR(activities), athleteId, maxHeartrate)
  }

  /** `calculateAthleteZoneDistribution`: null without a week's activity that
      has an average heart rate; otherwise the rounded zone statistics. A
      rejected activity query (`queryFails`) is not caught and rejects the
      call. */
  method CalculateAthleteZoneDistribution(rows: seq<DbActivity>, athleteId: int, maxHeartrate: real, nowMs: int,
                                          queryFails: bool)
    returns (r: Settled<Option<HRZoneData>>)
    ensures r.Rejected? <==> queryFails
    ensures r.Resolved? ==>
      (r.value.None? <==> forall a :: a in rows && InWindow(a, athleteId, nowMs) ==> a.averageHeartrate.None?)
    ensures r.Resolved? ==> (r.value.None? <==> |ZoneInputs(rows, athleteId, maxHeartrate, nowMs)| == 0)
    ensures r.Resolved? && r.value.Some? ==>
      r.value.value == RoundedZones(ZoneStats(ZoneInputs(rows, athleteId, maxHeartrate, nowMs), maxHeartrate))
  {
    if queryFails {
      return Rejected;
    }
    var sevenDaysAgo := nowMs - WindowDays * DayMs;
    var activities := AthleteActivitiesSince(rows, athleteId, sevenDaysAgo);
    var activitiesWithHR := WithAverageHR(activities);
    WithAverageHREmpty(activities);
    if |activitiesWithHR| == 0 {
      return Resolved(None);
    }
    var hrStats := CalculateHRZoneStats(ToStravaActivities(activitiesWithHR, athleteId, maxHeartrate), maxHeartrate);
    r := Resolved(Some(RoundedZones(hrStats)));
  }

  /** Rows with a non-zero average heart rate. */
  function NonZeroHRCount(rows: seq<DbActivity>): nat
    decreases |rows|
  {
    if |rows| == 0 then 0
    else
      var a := rows[|rows| - 1];
      NonZeroHRCount(rows[..|rows| - 1]) + (if a.averageHeartrate.Some? && a.averageHeartrate.value != 0.0 then 1 else 0)
  }

  /** An average of 0 passes the null filter but not the truthiness check of
      the statistics: `activitiesWithHR` counts the non-zero averages only. */
  lemma {:induction false} ActivitiesWithHRCountsNonZero(rows: seq<DbActivity>, athleteId: int, maxHeartrate: real)
    ensures CountWithHR(ToStravaActivities(rows, athleteId, maxHeartrate)) == NonZeroHRCount(rows)
    decreases |rows|
  {
    if |rows| > 0 {
      var prefix := rows[..|rows| - 1];
      ActivitiesWithHRCountsNonZero(prefix, athleteId, maxHeartrate);
      assert ToStravaActivities(rows, athleteId, maxHeartrate)[..|rows| - 1] == ToStravaActivities(prefix, athleteId, maxHeartrate);
    }
  }

  /** A week whose averages are all 0 yields a result, not null, whose every
      figure is 0. */
  lemma {:induction false} AllZeroAverages(rows: seq<DbActivity>, athleteId: int, maxHeartrate: real)
    requires forall i :: 0 <= i < |rows| ==> rows[i].averageHeartrate == Some(0.0)
    ensures ZoneSums(ToStravaActivities(rows, athleteId, maxHeartrate), maxHeartrate) == NoZones
    ensures RoundedZones(ZoneStats(ToStravaActivities(rows, athleteId, maxHeartrate), maxHeartrate))
      == HRZoneData(0, 0, 0, 0, 0, 0, 0)
    decreases |rows|
  {
    var mapped := ToStravaActivities(rows, athleteId, maxHeartrate);
    if |rows| > 0 {
      var prefix := rows[..|rows| - 1];
      AllZeroAverages(prefix, athleteId, maxHeartrate);
      assert mapped[..|rows| - 1] == ToStravaActivities(prefix, athleteId, maxHeartrate);
    }
    ActivitiesWithHRCountsNonZero(rows, athleteId, maxHeartrate);
    NoNonZero(rows);
  }

  lemma {:induction false} NoNonZero(rows: seq<DbActivity>)
    requires forall i :: 0 <= i < |rows| ==> rows[i].averageHeartrate == Some(0.0)
    ensures NonZeroHRCount(rows) == 0
    decreases |rows|
  {
    if |rows| > 0 {
      NoNonZero(rows[..|rows| - 1]);
    }
  }

  /** `Math.round(x)` is within half a minute of `x`. */
  lemma RoundWithinHalf(x: real)
    ensures x - 0.5 < JsRound(x) as real <= x + 0.5
  {
  }

  /** The total is rounded from the unrounded sum, so it can differ from the
      sum of the rounded zones, by at most 2 minutes. */
  lemma RoundedTotalDrift(stats: HRZoneStats)
    requires stats.totalHRMinutes == ZoneTotal(stats.zoneMinutes)
    ensures var d := RoundedZones(stats);
      -2 <= d.totalMinutes - (d.zone1Minutes + d.zone2Minutes + d.zone3Minutes + d.zone4Minutes + d.zone5Minutes) <= 2
  {
    var z := stats.zoneMinutes;
    RoundWithinHalf(z.z1);
    RoundWithinHalf(z.z2);
    RoundWithinHalf(z.z3);
    RoundWithinHalf(z.z4);
    RoundWithinHalf(z.z5);
    RoundWithinHalf(stats.totalHRMinutes);
  }

  /** Two zones of 0.4 minutes show as 0 and 0 with a total of 1. */
  lemma RoundedTotalExample()
    ensures RoundedZones(HRZoneStats(ZoneDistribution(0.4, 0.4, 0.0, 0.0, 0.0), 0.8, 2, 2, true))
      == HRZoneData(0, 0, 0, 0, 0, 1, 2)
  {
  }

  /** `athlete.max_heartrate || 190` */
  function AthleteMaxHR(athlete: DbAthlete): real {
    OrDefault(athlete.maxHeartrate, DefaultMaxHR)
  }

  /** The zone data of one athlete as `calculateAthleteZoneDistribution`
      computes it. */
  function AthleteZones(rows: seq<DbActivity>, athleteId: int, maxHeartrate: real, nowMs: int): Option<HRZoneData> {
    var inputs := ZoneInputs(rows, athleteId, maxHeartrate, nowMs);
    if |inputs| == 0 then None else Some(RoundedZones(ZoneStats(inputs, maxHeartrate)))
  }

  /** `calculateAllAthleteZones`: one entry per athlete, in input order, with
      the maximum defaulting to 190. `failing` holds the athletes whose
      activity query rejects; one of them makes `Promise.all` reject. */
  method CalculateAllAthleteZones(athletes: seq<DbAthlete>, rows: seq<DbActivity>, failing: set<int>, nowMs: int)
    returns (result: Settled<seq<AthleteHRZoneData>>)
    ensures result.Rejected? <==> exists i :: 0 <= i < |athletes| && athletes[i].id in failing
    ensures result.Resolved? ==> |result.value| == |athletes|
    ensures result.Resolved? ==> forall i :: 0 <= i < |athletes| ==>
      && result.value[i].athleteId == athletes[i].id
      && result.value[i].firstname == athletes[i].firstname
      && result.value[i].lastname == athletes[i].lastname
      && result.value[i].profilePictureUrl == athletes[i].profilePictureUrl
      && result.value[i].maxHeartrate == AthleteMaxHR(athletes[i])
      && result.value[i].hrZoneData == AthleteZones(rows, athletes[i].id, AthleteMaxHR(athletes[i]), nowMs)
  {
    var athleteZones: seq<AthleteHRZoneData> := [];
    var i := 0;
    while i < |athletes|
      invariant 0 <= i <= |athletes| && |athleteZones| == i
      invariant forall j :: 0 <= j < i ==> athletes[j].id !in failing
      invariant forall j :: 0 <= j < i ==>
        && athleteZones[j].athleteId == athletes[j].id
        && athleteZones[j].firstname == athletes[j].firstname
        && athleteZones[j].lastname == athletes[j].lastname
        && athleteZones[j].profilePictureUrl == athletes[j].profilePictureUrl
        && athleteZones[j].maxHeartrate == AthleteMaxHR(athletes[j])
        && athleteZones[j].hrZoneData == AthleteZones(rows, athletes[j].id, AthleteMaxHR(athletes[j]), nowMs)
    {
      var athlete := athletes[i];
      var hrZoneData := CalculateAthleteZoneDistribution(rows, athlete.id, OrDefault(athlete.maxHeartrate, 190.0), nowMs,
        athlete.id in failing);
      if hrZoneData.Rejected? {
        return Rejected;
      }
      athleteZones := athleteZones + [AthleteHRZoneData(athlete.id, athlete.firstname, athlete.lastname,
        athlete.profilePictureUrl, OrDefault(athlete.maxHeartrate, 190.0), hrZoneData.value)];
      i := i + 1;
    }
    result := Resolved(athleteZones);
  }

  /** `getWeekStartDate`: the calendar date seven days before now. */
  function WeekStartDate(nowMs: int): (day: int)
    ensures day == DayOf(nowMs) - 7
  {
    DayOf(nowMs - WindowDays * DayMs)
  }
}
