/** Time arithmetic on UTC millisecond timestamps, as the source performs it
    through JavaScript `Date` on a server whose local zone is UTC.
    Day numbers count days since 1970-01-01 (a Thursday). */
module Calendar {

  const SecondMs: int := 1000
  const MinuteMs: int := 60 * SecondMs
  const HourMs: int := 60 * MinuteMs
  const DayMs: int := 24 * HourMs

  /** The UTC day a timestamp falls on (`toISOString().split('T')[0]`). */
  function DayOf(ms: int): (d: int)
    ensures d * DayMs <= ms < (d + 1) * DayMs
  {
    ms / DayMs
  }

  /** Moving a timestamp by whole days moves its day by as many. */
  lemma DayOfShift(ms: int, k: int)
    ensures DayOf(ms + k * DayMs) == DayOf(ms) + k
  {
    var d := DayOf(ms);
    assert (d + k) * DayMs <= ms + k * DayMs < (d + k + 1) * DayMs;
  }

  /** `getDay()`: 0 is Sunday, 1 Monday, ..., 6 Saturday. */
  function WeekDay(day: int): (w: int)
    ensures 0 <= w < 7
  {
    (day + 4) % 7
  }

  /** The day `getMonday` moves to: back to Monday, and from a Sunday back six
      days to the Monday before it. */
  function MondayOf(day: int): (m: int)
  {
    var w := WeekDay(day);
    day - w + (if w == 0 then -6 else 1)
  }

  /** The Monday of a day is a Monday between zero and six days earlier. */
  lemma MondayOfProperties(day: int)
    ensures WeekDay(MondayOf(day)) == 1
    ensures 0 <= day - MondayOf(day) <= 6
    ensures WeekDay(day) == 0 ==> MondayOf(day) == day - 6
  {
  }

  /** Moving to the Monday twice is moving once. */
  lemma MondayOfIdempotent(day: int)
    ensures MondayOf(MondayOf(day)) == MondayOf(day)
  {
    MondayOfProperties(day);
  }

  /** Two days share a Monday exactly when they lie in the same Monday-aligned
      week. */
  lemma {:induction false} MondayOfSameWeek(d: int, m: int)
    requires WeekDay(m) == 1
    ensures MondayOf(d) == m <==> m <= d < m + 7
  {
    MondayOfProperties(d);
    if m <= d < m + 7 {
      assert (d + 4) % 7 == ((m + 4) % 7 + (d - m)) % 7;
    }
    if MondayOf(d) == m {
      assert m <= d < m + 7;
    }
  }

  /** Days from 1970-01-01 to the proleptic Gregorian date `y-m-d`. */
  function DaysFromCivil(y: int, m: int, d: int): int
    requires 1 <= m <= 12 && 1 <= d <= 31
  {
    var y' := if m <= 2 then y - 1 else y;
    var era := y' / 400;
    var yoe := y' - era * 400;
    var doy := (153 * (if m > 2 then m - 3 else m + 9) + 2) / 5 + d - 1;
    var doe := yoe * 365 + yoe / 4 - yoe / 100 + doy;
    era * 146097 + doe - 719468
  }

  lemma EpochIsThursday()
    ensures DaysFromCivil(1970, 1, 1) == 0 && WeekDay(0) == 4
  {
  }
}
