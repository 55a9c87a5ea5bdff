/** Display helpers of the leaderboard (lib/leaderboard/utils.ts). All times
    are UTC milliseconds; `now` is an input. */
module LeaderboardUtils {
  import opened Wrappers
  import opened Text
  import opened Calendar

  const MonthAbbreviations: seq<string> :=
    ["Jan", "Feb", "Mar", "Apr", "May", "Jun", "Jul", "Aug", "Sep", "Oct", "Nov", "Dec"]

  /** Month (1..12) and day of month of a day number: the inverse of
      `DaysFromCivil` on the proleptic Gregorian calendar. */
  function MonthDayOf(day: int): (md: (int, int))
  {
    var z := day + 719468;
    var era := z / 146097;
    var doe := z - era * 146097;
    var yoe := (doe - doe / 1460 + doe / 36524 - doe / 146096) / 365;
    var doy := doe - (365 * yoe + yoe / 4 - yoe / 100);
    var mp := (5 * doy + 2) / 153;
    var d := doy - (153 * mp + 2) / 5 + 1;
    var m := if mp < 10 then mp + 3 else mp - 9;
    (m, d)
  }

  /** `toLocaleDateString('en-US', { month: 'short', day: 'numeric' })` in UTC. */
  function MonthDayLabel(ms: int): string
  {
    var (m, d) := MonthDayOf(DayOf(ms));
    (if 1 <= m <= 12 then MonthAbbreviations[m - 1] else "") + " " + IntToString(d)
  }

  /** `formatTimeAgo`: "just now", then whole minutes, hours and days (each
      floored from the one before), then the calendar date. */
  function FormatTimeAgo(nowMs: int, thenMs: int): string
  {
    var diffMs := nowMs - thenMs;
    if diffMs < 0 then "just now"
    else
      var diffMinutes := diffMs / 60000;
      if diffMinutes < 1 then "just now"
      else if diffMinutes < 60 then IntToString(diffMinutes) + "m ago"
      else
        var diffHours := diffMinutes / 60;
        if diffHours < 24 then IntToString(diffHours) + "h ago"
        else
          var diffDays := diffHours / 24;
          if diffDays < 7 then IntToString(diffDays) + "d ago"
          else MonthDayLabel(thenMs)
  }

  /** The bands of `formatTimeAgo` stated on the elapsed milliseconds alone:
      the floors taken one after another are the floors of the elapsed time
      by a minute, an hour and a day. */
  lemma FormatTimeAgoBands(nowMs: int, thenMs: int)
    ensures nowMs - thenMs < MinuteMs ==> FormatTimeAgo(nowMs, thenMs) == "just now"
    ensures MinuteMs <= nowMs - thenMs < HourMs ==>
      1 <= (nowMs - thenMs) / MinuteMs < 60
      && FormatTimeAgo(nowMs, thenMs) == IntToString((nowMs - thenMs) / MinuteMs) + "m ago"
    ensures HourMs <= nowMs - thenMs < DayMs ==>
      1 <= (nowMs - thenMs) / HourMs < 24
      && FormatTimeAgo(nowMs, thenMs) == IntToString((nowMs - thenMs) / HourMs) + "h ago"
    ensures DayMs <= nowMs - thenMs < 7 * DayMs ==>
      1 <= (nowMs - thenMs) / DayMs < 7
      && FormatTimeAgo(nowMs, thenMs) == IntToString((nowMs - thenMs) / DayMs) + "d ago"
    ensures 7 * DayMs <= nowMs - thenMs ==> FormatTimeAgo(nowMs, thenMs) == MonthDayLabel(thenMs)
  {
    var diffMs := nowMs - thenMs;
    if diffMs >= 0 {
      HoursOfMinutes(diffMs);
      DaysOfHours(diffMs);
    }
  }

  /** Whole minutes, then whole hours of those, is whole hours. */
  lemma HoursOfMinutes(x: int)
    requires x >= 0
    ensures (x / 60000) / 60 == x / 3600000
  {
  }

  /** Whole hours, then whole days of those, is whole days. */
  lemma DaysOfHours(x: int)
    requires x >= 0
    ensures (x / 3600000) / 24 == x / 86400000
  {
  }

  /** Day 20468 is 2026-01-15 ... */
  lemma CivilExample()
    ensures DaysFromCivil(2026, 1, 15) == 20468
  {
  }

  /** ... and the month/day conversion reads it back as January 15. */
  lemma CalendarExample()
    ensures MonthDayOf(20468) == (1, 15)
  {
    assert 739936 / 146097 == 5;
    assert 739936 - 5 * 146097 == 9451;
    assert (9451 - 9451 / 1460 + 9451 / 36524 - 9451 / 146096) / 365 == 25;
    assert 9451 - (365 * 25 + 25 / 4 - 25 / 100) == 320;
    assert (5 * 320 + 2) / 153 == 10;
    assert 320 - (153 * 10 + 2) / 5 + 1 == 15;
  }

  /** A morning activity on 2026-01-15, looked at on 2026-01-29, shows as
      "Jan 15". */
  lemma FormatTimeAgoDateExample()
    ensures FormatTimeAgo(20482 * DayMs, 20468 * DayMs + 8 * HourMs) == "Jan 15"
  {
    FormatTimeAgoBands(20482 * DayMs, 20468 * DayMs + 8 * HourMs);
    CalendarExample();
    DayOfExample();
    FifteenExample();
  }

  lemma DayOfExample()
    ensures DayOf(20468 * DayMs + 8 * HourMs) == 20468
  {
  }

  lemma FifteenExample()
    ensures IntToString(15) == "15"
  {
  }

  /** `isWithinHours`: a present timestamp no later than now and at most
      `hours` hours old. */
  function IsWithinHours(date: Option<int>, nowMs: int, hours: real): bool
  {
    if date.None? then false
    else
      var diffMs := nowMs - date.value;
      var diffHours := diffMs as real / (1000.0 * 60.0 * 60.0);
      diffHours >= 0.0 && diffHours <= hours
  }

  /** No timestamp is never recent; otherwise the test is on the elapsed
      milliseconds, so a future timestamp is never recent. */
  lemma IsWithinHoursIff(date: Option<int>, nowMs: int, hours: real)
    ensures date.None? ==> !IsWithinHours(date, nowMs, hours)
    ensures date.Some? ==>
      (IsWithinHours(date, nowMs, hours) <==>
        date.value <= nowMs && (nowMs - date.value) as real <= hours * 3600000.0)
  {
  }

  /** `getMonday`: step back to the Monday of the week (from a Sunday, six
      days back), then to midnight. */
  method GetMonday(dateMs: int) returns (mondayMs: int)
    ensures mondayMs == MondayOf(DayOf(dateMs)) * DayMs
    ensures WeekDay(DayOf(mondayMs)) == 1 && mondayMs % DayMs == 0
    ensures mondayMs <= dateMs < mondayMs + 7 * DayMs
  {
    var d := dateMs;
    var day := WeekDay(DayOf(d));
    var diff := -day + (if day == 0 then -6 else 1);
    d := d + diff * DayMs;            // d.setDate(d.getDate() + diff)
    assert DayOf(d) == DayOf(dateMs) + diff;
    d := DayOf(d) * DayMs;             // d.setHours(0, 0, 0, 0)
    mondayMs := d;
    MondayOfProperties(DayOf(dateMs));
    assert DayOf(mondayMs) == MondayOf(DayOf(dateMs));
  }

  /** The Monday of a Monday midnight is itself. */
  lemma GetMondayIdempotent(dateMs: int)
    ensures MondayOf(DayOf(MondayOf(DayOf(dateMs)) * DayMs)) * DayMs == MondayOf(DayOf(dateMs)) * DayMs
  {
    var m := MondayOf(DayOf(dateMs));
    assert DayOf(m * DayMs) == m;
    MondayOfIdempotent(DayOf(dateMs));
  }
}
