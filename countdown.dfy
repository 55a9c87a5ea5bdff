/** The event countdown (components/CountdownTimer.tsx): the time left until
    the opening of the championship, split into days, hours, minutes and
    seconds, recomputed by a one-second interval. The clock is an input. */
module Countdown {
  import opened Calendar

  /** `new Date('2026-07-16T00:00:00+03:00').getTime()` */
  const TargetMs: int := 1784149200000

  /** Midnight of 16 July 2026 in a UTC+3 zone is 21:00 UTC the day before. */
  lemma TargetIsJuly16AtUtcPlus3()
    ensures TargetMs == DaysFromCivil(2026, 7, 16) * DayMs - 3 * HourMs
  {
    TargetDay();
  }

  lemma TargetDay()
    ensures DaysFromCivil(2026, 7, 16) == 20650
  {
  }

  datatype TimeRemaining = TimeRemaining(days: int, hours: int, minutes: int, seconds: int)

  const Zero: TimeRemaining := TimeRemaining(0, 0, 0, 0)

  /** The body of `calculateTimeRemaining` for a difference in milliseconds.
      The difference is positive wherever `%` is applied, so JavaScript's `%`
      and `Math.floor` of a quotient agree with Dafny's `%` and `/`. */
  function Decompose(diff: int): TimeRemaining {
    if diff > 0 then
      TimeRemaining(
        diff / DayMs,
        (diff % DayMs) / HourMs,
        (diff % HourMs) / MinuteMs,
        (diff % MinuteMs) / SecondMs)
    else Zero
  }

  /** Hours stay within a day, minutes and seconds within 0..59. */
  lemma DecomposeBounds(diff: int)
    ensures var t := Decompose(diff);
      t.days >= 0 && 0 <= t.hours < 24 && 0 <= t.minutes < 60 && 0 <= t.seconds < 60
  {
  }

  /** The display reads all zeros exactly when less than a second is left,
      which includes every moment at or past the target. */
  lemma DecomposeZeroIff(diff: int)
    ensures Decompose(diff) == Zero <==> diff < SecondMs
  {
    if diff >= SecondMs && Decompose(diff) == Zero {
      DecomposeReconstructs(diff);
    }
  }

  /** What is left of a day, split into whole hours and the rest. */
  lemma DayRemainder(x: int)
    ensures x % DayMs == (x % DayMs) / HourMs * HourMs + x % HourMs
  {
  }

  /** What is left of an hour, split into whole minutes and the rest. */
  lemma HourRemainder(x: int)
    ensures x % HourMs == (x % HourMs) / MinuteMs * MinuteMs + x % MinuteMs
  {
  }

  /** What is left of a minute, split into whole seconds and the rest. */
  lemma MinuteRemainder(x: int)
    ensures x % MinuteMs == (x % MinuteMs) / SecondMs * SecondMs + x % SecondMs
  {
  }

  /** The four fields put back together give the difference rounded down to
      the second. */
  lemma DecomposeReconstructs(diff: int)
    requires diff > 0
    ensures var t := Decompose(diff);
      var whole := t.days * DayMs + t.hours * HourMs + t.minutes * MinuteMs + t.seconds * SecondMs;
      whole <= diff < whole + SecondMs
  {
    var t := Decompose(diff);
    assert diff == t.days * DayMs + diff % DayMs;
    DayRemainder(diff);
    HourRemainder(diff);
    MinuteRemainder(diff);
  }

  /** The component's state: the figures on screen. */
  class CountdownTimer {
    var timeRemaining: TimeRemaining

    /** The initial `useState` value. */
    constructor ()
      ensures timeRemaining == Zero
    {
      timeRemaining := Zero;
    }

    /** One run of `calculateTimeRemaining`, immediately and then every
        second: the state becomes the split of the time left. */
    method Tick(nowMs: int)
      modifies this
      ensures timeRemaining == Decompose(TargetMs - nowMs)
    {
      var diff := TargetMs - nowMs;
      if diff > 0 {
        var days := diff / DayMs;
        var hours := (diff % DayMs) / HourMs;
        var minutes := (diff % HourMs) / MinuteMs;
        var seconds := (diff % MinuteMs) / SecondMs;
        timeRemaining := TimeRemaining(days, hours, minutes, seconds);
      } else {
        timeRemaining := Zero;
      }
    }
  }
}
