/** Heart-rate zone estimation (lib/scoring/heartrate.ts). Informational only:
    nothing here feeds the composite score. */
module HeartRate {
  import opened Wrappers
  import opened Text
  import opened ActivityScoring

  const DefaultMaxHR: real := 190.0

  /** Minutes per zone (`HRZoneDistribution`). */
  datatype ZoneDistribution = ZoneDistribution(z1: real, z2: real, z3: real, z4: real, z5: real)

  /** `HRZoneStats` */
  datatype HRZoneStats = HRZoneStats(
    zoneMinutes: ZoneDistribution,
    totalHRMinutes: real,
    totalActivities: int,
    activitiesWithHR: int,
    hasHRData: bool)

  /** `getHRZone`: the zone of a heart rate as a share of the maximum. A zero
      maximum follows JavaScript division: a positive rate over 0 is +Infinity
      (zone 5); 0/0 is NaN and a negative rate gives -Infinity (both zone 1). */
  function HRZone(heartRate: real, maxHR: real): (zone: int)
    ensures 1 <= zone <= 5
  {
    if maxHR == 0.0 then (if heartRate > 0.0 then 5 else 1)
    else
      var percent := heartRate / maxHR * 100.0;
      if percent >= 90.0 then 5
      else if percent >= 80.0 then 4
      else if percent >= 70.0 then 3
      else if percent >= 60.0 then 2
      else 1
  }

  /** For a positive maximum, each zone boundary is a fixed share of it:
      zone 5 from 90%, zone 4 or more from 80%, 3 or more from 70%, 2 or more
      from 60%, and zone 1 below that, including below the 50% floor the
      zone table documents. */
  lemma HRZoneThresholds(heartRate: real, maxHR: real)
    requires maxHR > 0.0
    ensures HRZone(heartRate, maxHR) == 5 <==> heartRate >= 0.9 * maxHR
    ensures HRZone(heartRate, maxHR) >= 4 <==> heartRate >= 0.8 * maxHR
    ensures HRZone(heartRate, maxHR) >= 3 <==> heartRate >= 0.7 * maxHR
    ensures HRZone(heartRate, maxHR) >= 2 <==> heartRate >= 0.6 * maxHR
    ensures heartRate < 0.5 * maxHR ==> HRZone(heartRate, maxHR) == 1
  {
    PercentBound(heartRate, maxHR, 90.0);
    PercentBound(heartRate, maxHR, 80.0);
    PercentBound(heartRate, maxHR, 70.0);
    PercentBound(heartRate, maxHR, 60.0);
  }

  /** A percentage of the maximum reaches `bound` exactly when the rate reaches
      that share of the maximum. */
  lemma PercentBound(heartRate: real, maxHR: real, bound: real)
    requires maxHR > 0.0
    ensures heartRate / maxHR * 100.0 >= bound <==> heartRate >= bound / 100.0 * maxHR
  {
    var percent := heartRate / maxHR * 100.0;
    assert percent * maxHR == 100.0 * heartRate;
    if percent >= bound {
      assert (percent - bound) * maxHR >= 0.0;
    } else {
      assert (bound - percent) * maxHR > 0.0;
    }
  }

  /** For a fixed positive maximum, a higher heart rate never lowers the zone. */
  lemma HRZoneMonotone(h1: real, h2: real, maxHR: real)
    requires maxHR > 0.0 && h1 <= h2
    ensures HRZone(h1, maxHR) <= HRZone(h2, maxHR)
  {
    HRZoneThresholds(h1, maxHR);
    HRZoneThresholds(h2, maxHR);
  }

  /** 171 bpm against a maximum of 190 is exactly 90%: zone 5. */
  lemma HRZoneExample()
    ensures HRZone(171.0, 190.0) == 5 && HRZone(170.0, 190.0) == 4
  {
    HRZoneThresholds(171.0, 190.0);
    HRZoneThresholds(170.0, 190.0);
  }

  const NoZones: ZoneDistribution := ZoneDistribution(0.0, 0.0, 0.0, 0.0, 0.0)

  /** Field `z<zone>` of a distribution. */
  function ZoneMinutes(z: ZoneDistribution, zone: int): real
    requires 1 <= zone <= 5
  {
    match zone
    case 1 => z.z1
    case 2 => z.z2
    case 3 => z.z3
    case 4 => z.z4
    case 5 => z.z5
  }

  /** `zones[`z${zone}`] = v` */
  function SetZone(z: ZoneDistribution, zone: int, v: real): (r: ZoneDistribution)
    requires 1 <= zone <= 5
    ensures ZoneMinutes(r, zone) == v
    ensures forall i :: 1 <= i <= 5 && i != zone ==> ZoneMinutes(r, i) == ZoneMinutes(z, i)
  {
    match zone
    case 1 => z.(z1 := v)
    case 2 => z.(z2 := v)
    case 3 => z.(z3 := v)
    case 4 => z.(z4 := v)
    case 5 => z.(z5 := v)
  }

  function ZoneTotal(z: ZoneDistribution): real {
    z.z1 + z.z2 + z.z3 + z.z4 + z.z5
  }

  function AddZones(a: ZoneDistribution, b: ZoneDistribution): (r: ZoneDistribution)
    ensures forall i :: 1 <= i <= 5 ==> ZoneMinutes(r, i) == ZoneMinutes(a, i) + ZoneMinutes(b, i)
  {
    ZoneDistribution(a.z1 + b.z1, a.z2 + b.z2, a.z3 + b.z3, a.z4 + b.z4, a.z5 + b.z5)
  }

  /** The truthiness test `has_heartrate && average_heartrate`: a missing or
      zero average does not count. */
  predicate HasHRReading(a: Activity) {
    a.hasHeartrate && a.averageHeartrate.Some? && a.averageHeartrate.value != 0.0
  }

  /** `calculateActivityHRZones`: all of the moving time, in minutes, goes to
      the zone of the average heart rate. */
  function ActivityHRZones(a: Activity, maxHR: real): (zones: ZoneDistribution)
  {
    if !a.hasHeartrate || a.averageHeartrate.None? || a.averageHeartrate.value == 0.0 then NoZones
    else
      var durationMinutes := a.movingTime / 60.0;
      var zone := HRZone(a.averageHeartrate.value, maxHR);
      SetZone(NoZones, zone, durationMinutes)
  }

  /** Without a reading every zone is 0; with one, exactly the zone of the
      average rate holds the moving minutes and the other four are 0, so the
      zones add up to the moving minutes. */
  lemma ActivityHRZonesShape(a: Activity, maxHR: real)
    ensures !HasHRReading(a) ==> ActivityHRZones(a, maxHR) == NoZones
    ensures HasHRReading(a) ==> forall i :: 1 <= i <= 5 ==>
      ZoneMinutes(ActivityHRZones(a, maxHR), i)
        == if i == HRZone(a.averageHeartrate.value, maxHR) then a.movingTime / 60.0 else 0.0
    ensures ZoneTotal(ActivityHRZones(a, maxHR)) == if HasHRReading(a) then a.movingTime / 60.0 else 0.0
  {
    if HasHRReading(a) {
      var zone := HRZone(a.averageHeartrate.value, maxHR);
      var z := ActivityHRZones(a, maxHR);
      assert ZoneTotal(z) == ZoneMinutes(z, 1) + ZoneMinutes(z, 2) + ZoneMinutes(z, 3) + ZoneMinutes(z, 4) + ZoneMinutes(z, 5);
    }
  }

  /** Zone minutes summed over the activities with a reading, in list order
      (the running `zoneMinutes` record). */
  function ZoneSums(activities: seq<Activity>, maxHR: real): ZoneDistribution
    decreases |activities|
  {
    if |activities| == 0 then NoZones
    else
      var prefix := activities[..|activities| - 1];
      var a := activities[|activities| - 1];
      if HasHRReading(a) then AddZones(ZoneSums(prefix, maxHR), ActivityHRZones(a, maxHR))
      else ZoneSums(prefix, maxHR)
  }

  /** Number of activities with a reading (the running `activitiesWithHR`). */
  function CountWithHR(activities: seq<Activity>): nat
    decreases |activities|
  {
    if |activities| == 0 then 0
    else CountWithHR(activities[..|activities| - 1]) + (if HasHRReading(activities[|activities| - 1]) then 1 else 0)
  }

  /** The statistics `calculateHRZoneStats` reports. */
  function ZoneStats(activities: seq<Activity>, maxHR: real): HRZoneStats
  {
    var zoneMinutes := ZoneSums(activities, maxHR);
    var withHR := CountWithHR(activities);
    HRZoneStats(zoneMinutes, ZoneTotal(zoneMinutes), |activities|, withHR, withHR > 0)
  }

  /** `calculateHRZoneStats`: one pass over the activities, adding each counted
      activity's zones into the running record. */
  method CalculateHRZoneStats(activities: seq<Activity>, maxHR: real) returns (stats: HRZoneStats)
    ensures stats == ZoneStats(activities, maxHR)
  {
    var zoneMinutes := NoZones;
    var activitiesWithHR := 0;
    var i := 0;
    while i < |activities|
      invariant 0 <= i <= |activities|
      invariant zoneMinutes == ZoneSums(activities[..i], maxHR)
      invariant activitiesWithHR == CountWithHR(activities[..i])
    {
      var activity := activities[i];
      assert activities[..i + 1][..i] == activities[..i];
      if activity.hasHeartrate && activity.averageHeartrate.Some? && activity.averageHeartrate.value != 0.0 {
        activitiesWithHR := activitiesWithHR + 1;
        var activityZones := ActivityHRZones(activity, maxHR);
        zoneMinutes := zoneMinutes.(
          z1 := zoneMinutes.z1 + activityZones.z1,
          z2 := zoneMinutes.z2 + activityZones.z2,
          z3 := zoneMinutes.z3 + activityZones.z3,
          z4 := zoneMinutes.z4 + activityZones.z4,
          z5 := zoneMinutes.z5 + activityZones.z5);
      }
      i := i + 1;
    }
    assert activities[..i] == activities;
    var totalHRMinutes := zoneMinutes.z1 + zoneMinutes.z2 + zoneMinutes.z3 + zoneMinutes.z4 + zoneMinutes.z5;
    stats := HRZoneStats(zoneMinutes, totalHRMinutes, |activities|, activitiesWithHR, activitiesWithHR > 0);
  }

  /** Moving minutes of the activities with a reading, summed directly. */
  function CountedMinutes(activities: seq<Activity>): real
    decreases |activities|
  {
    if |activities| == 0 then 0.0
    else
      var a := activities[|activities| - 1];
      CountedMinutes(activities[..|activities| - 1]) + (if HasHRReading(a) then a.movingTime / 60.0 else 0.0)
  }

  /** The total equals the sum of the five zones, which equals the moving
      minutes of the counted activities; activities without a reading never
      add to any zone. */
  lemma {:induction false} TotalIsCountedMinutes(activities: seq<Activity>, maxHR: real)
    ensures ZoneTotal(ZoneSums(activities, maxHR)) == CountedMinutes(activities)
    ensures ZoneStats(activities, maxHR).totalHRMinutes == CountedMinutes(activities)
    decreases |activities|
  {
    if |activities| > 0 {
      var prefix := activities[..|activities| - 1];
      var a := activities[|activities| - 1];
      TotalIsCountedMinutes(prefix, maxHR);
      ActivityHRZonesShape(a, maxHR);
    }
  }

  /** Zone minutes are never negative when moving times are not. */
  lemma {:induction false} ZoneSumsNonNegative(activities: seq<Activity>, maxHR: real)
    requires forall i :: 0 <= i < |activities| ==> activities[i].movingTime >= 0.0
    ensures forall z :: 1 <= z <= 5 ==> ZoneMinutes(ZoneSums(activities, maxHR), z) >= 0.0
    decreases |activities|
  {
    if |activities| > 0 {
      var prefix := activities[..|activities| - 1];
      var a := activities[|activities| - 1];
      ZoneSumsNonNegative(prefix, maxHR);
      ActivityHRZonesShape(a, maxHR);
    }
  }

  /** `activitiesWithHR` counts the activities with a reading, at most all of
      them, and `hasHRData` holds exactly when some activity has one. */
  lemma {:induction false} CountWithHRProperties(activities: seq<Activity>)
    ensures CountWithHR(activities) <= |activities|
    ensures CountWithHR(activities) > 0 <==> exists i :: 0 <= i < |activities| && HasHRReading(activities[i])
    ensures CountWithHR(activities) == |activities| <==> forall i :: 0 <= i < |activities| ==> HasHRReading(activities[i])
    decreases |activities|
  {
    if |activities| > 0 {
      var prefix := activities[..|activities| - 1];
      CountWithHRProperties(prefix);
      assert forall i :: 0 <= i < |prefix| ==> prefix[i] == activities[i];
    }
  }

  /** For any maximum, `totalActivities` is the input length, and
      `activitiesWithHR` and `hasHRData` follow the reading test: HR data is
      reported exactly when some activity has a reading. */
  lemma ZoneStatsCounts(activities: seq<Activity>, maxHR: real)
    ensures ZoneStats(activities, maxHR).totalActivities == |activities|
    ensures ZoneStats(activities, maxHR).activitiesWithHR == CountWithHR(activities)
    ensures ZoneStats(activities, maxHR).hasHRData <==>
      exists i :: 0 <= i < |activities| && HasHRReading(activities[i])
  {
    CountWithHRProperties(activities);
  }

  /** With the default maximum of 190, an all-zero-rate list has no HR data. */
  lemma ZoneStatsDefaults(activities: seq<Activity>)
    requires forall i :: 0 <= i < |activities| ==> activities[i].averageHeartrate == Some(0.0)
    ensures ZoneStats(activities, DefaultMaxHR).totalActivities == |activities|
    ensures !ZoneStats(activities, DefaultMaxHR).hasHRData
  {
    CountWithHRProperties(activities);
  }

  // ------------------------------------------------------------ display

  /** `Math.trunc` */
  function Trunc(x: real): int {
    if x >= 0.0 then x.Floor else -((-x).Floor)
  }

  /** JavaScript `%` on numbers: the remainder takes the sign of the dividend. */
  function JsRem(x: real, y: real): real
    requires y != 0.0
  {
    x - y * (Trunc(x / y) as real)
  }

  /** `Math.round`: halves round up. */
  function JsRound(x: real): int {
    (x + 0.5).Floor
  }

  /** `${h}h ${m}m` or `${m}m` */
  function HoursMinutesLabel(hours: int, mins: int): string {
    if hours > 0 then IntToString(hours) + "h " + IntToString(mins) + "m" else IntToString(mins) + "m"
  }

  /** `formatZoneMinutes` as written: whole hours, then the remainder rounded
      on its own. */
  function FormatZoneMinutes(minutes: real): string {
    var hours := (minutes / 60.0).Floor;
    var mins := JsRound(JsRem(minutes, 60.0));
    HoursMinutesLabel(hours, mins)
  }

  /** An hours part appears exactly from 60 minutes on; for non-negative input
      the minutes shown are between 0 and 60 inclusive, and the hours and
      minutes shown add up to the input rounded to the minute. */
  lemma FormatZoneMinutesShape(minutes: real)
    requires minutes >= 0.0
    ensures (minutes / 60.0).Floor > 0 <==> minutes >= 60.0
    ensures 0 <= JsRound(JsRem(minutes, 60.0)) <= 60
    ensures 60 * (minutes / 60.0).Floor + JsRound(JsRem(minutes, 60.0)) == JsRound(minutes)
  {
    var h := (minutes / 60.0).Floor;
    assert h as real <= minutes / 60.0 < h as real + 1.0;
    assert Trunc(minutes / 60.0) == h;
    assert JsRem(minutes, 60.0) == minutes - 60.0 * h as real;
    assert (minutes - 60.0 * h as real + 0.5).Floor + 60 * h == (minutes + 0.5).Floor;
  }

  /** 119.6 minutes is shown as "1h 60m" and 59.6 minutes as "60m": the
      remainder rounds up to a full hour that is not carried. */
  lemma FormatZoneMinutesShowsSixty()
    ensures FormatZoneMinutes(119.6) == "1h 60m"
    ensures FormatZoneMinutes(59.6) == "60m"
  {
    assert (119.6 / 60.0).Floor == 1;
    assert Trunc(119.6 / 60.0) == 1;
    assert JsRound(JsRem(119.6, 60.0)) == 60;
    assert (59.6 / 60.0).Floor == 0;
    assert Trunc(59.6 / 60.0) == 0;
    assert JsRound(JsRem(59.6, 60.0)) == 60;
    assert IntToString(60) == "60" && IntToString(1) == "1";
  }

  /** The zone label with the rounding done first, so that a full hour is
      carried into the hours. */
  function FormatZoneMinutesCarried(minutes: real): string {
    var total := JsRound(minutes);
    HoursMinutesLabel(total / 60, total % 60)
  }

  /** The carried label always shows fewer than 60 minutes, and its hours and
      minutes add up to the input rounded to the minute. */
  lemma FormatZoneMinutesCarriedShape(minutes: real)
    ensures exists h, m :: (0 <= m < 60 && 60 * h + m == JsRound(minutes)
      && FormatZoneMinutesCarried(minutes) == HoursMinutesLabel(h, m))
    ensures FormatZoneMinutesCarried(119.6) == "2h 0m"
  {
    var total := JsRound(minutes);
    var h, m := total / 60, total % 60;
    assert 0 <= m < 60 && 60 * h + m == total && FormatZoneMinutesCarried(minutes) == HoursMinutesLabel(h, m);
    assert JsRound(119.6) == 120;
    assert IntToString(2) == "2" && IntToString(0) == "0";
  }

  /** `getZoneColor`: one colour per zone, grey for anything else. */
  function ZoneColor(zone: int): string {
    match zone
    case 1 => "#86EFAC"
    case 2 => "#FDE047"
    case 3 => "#FCA5A5"
    case 4 => "#F87171"
    case 5 => "#DC2626"
    case _ => "#9CA3AF"
  }

  /** `getZoneName`: one name per zone, "Unknown" for anything else. */
  function ZoneName(zone: int): string {
    match zone
    case 1 => "Recovery"
    case 2 => "Endurance"
    case 3 => "Tempo"
    case 4 => "Threshold"
    case 5 => "VO2 Max"
    case _ => "Unknown"
  }

  /** The five zones have five different colours and names, none of them the
      fallback; every other number gets the fallback; and every zone
      `getHRZone` can return has a real name and colour. */
  lemma ZoneLabels(zone: int, heartRate: real, maxHR: real)
    ensures 1 <= zone <= 5 <==> ZoneColor(zone) != "#9CA3AF"
    ensures 1 <= zone <= 5 <==> ZoneName(zone) != "Unknown"
    ensures forall i, j :: 1 <= i < j <= 5 ==> ZoneColor(i) != ZoneColor(j) && ZoneName(i) != ZoneName(j)
    ensures ZoneName(HRZone(heartRate, maxHR)) != "Unknown"
  {
  }
}
