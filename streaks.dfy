/** The weekly "smart streak" (lib/leaderboard/streaks.ts): consecutive weeks,
    newest first, with at least five distinct training days, cached per
    athlete for five minutes. The database and the key-value store are
    inputs: an athlete's activity start times, and a map held by a class. */
module Streaks {
  import opened Wrappers
  import opened Calendar
  import LeaderboardUtils

  const LookbackDays: int := 90
  const MinTrainingDays: int := 5
  /** `STREAK_CACHE_TTL`, in seconds. */
  const StreakCacheTtl: int := 5 * 60

  // ------------------------------------------------------------ week map

  /** The activities `getAthleteActivities(athleteId, ninetyDaysAgo)` returns:
      those starting no earlier than 90 days before now. */
  function RecentStarts(history: seq<int>, nowMs: int): (r: seq<int>)
    ensures forall s :: s in r <==> s in history && s >= nowMs - LookbackDays * DayMs
    ensures (forall s :: s in history ==> s < nowMs - LookbackDays * DayMs) ==> r == []
    decreases |history|
  {
    if |history| == 0 then []
    else
      var rest := RecentStarts(history[1..], nowMs);
      assert forall s :: s in history <==> s == history[0] || s in history[1..];
      assert history[0] in history;
      if history[0] >= nowMs - LookbackDays * DayMs then [history[0]] + rest else rest
  }

  /** The distinct UTC dates of the activities. */
  function UniqueDays(starts: seq<int>): set<int> {
    set s | s in starts :: DayOf(s)
  }

  /** The training days of `days` that fall in the week starting Monday `w`. */
  function DaysOfWeek(days: set<int>, w: int): set<int> {
    set d | d in days && MondayOf(d) == w
  }

  function WeekKeys(days: set<int>): set<int> {
    set d | d in days :: MondayOf(d)
  }

  /** The finished `weekMap`: each Monday with a training day, mapped to the
      number of distinct training days in its week. */
  function WeekCounts(days: set<int>): map<int, int> {
    map w | w in WeekKeys(days) :: |DaysOfWeek(days, w)|
  }

  /** One more date bumps the count of its week by one, starting from 0 for a
      week not yet in the map (`(weekMap.get(weekKey) || 0) + 1`). */
  lemma WeekCountsAdd(days: set<int>, x: int)
    requires x !in days
    ensures WeekCounts(days + {x}) ==
      WeekCounts(days)[MondayOf(x) := (if MondayOf(x) in WeekCounts(days) then WeekCounts(days)[MondayOf(x)] else 0) + 1]
  {
    var w := MondayOf(x);
    var before, after := WeekCounts(days), WeekCounts(days + {x});
    var expected := before[w := (if w in before then before[w] else 0) + 1];
    WeekKeysAdd(days, x);
    DaysOfWeekAdd(days, x);
    assert after.Keys == expected.Keys;
    forall k | k in after
      ensures after[k] == expected[k]
    {
      if k != w {
        DaysOfWeekOther(days, x, k);
      }
    }
  }

  lemma WeekKeysAdd(days: set<int>, x: int)
    ensures WeekKeys(days + {x}) == WeekKeys(days) + {MondayOf(x)}
  {
  }

  /** The new date joins its own week, which was empty if it had no key. */
  lemma DaysOfWeekAdd(days: set<int>, x: int)
    ensures DaysOfWeek(days + {x}, MondayOf(x)) == DaysOfWeek(days, MondayOf(x)) + {x}
    ensures MondayOf(x) !in WeekKeys(days) ==> DaysOfWeek(days, MondayOf(x)) == {}
  {
    var w := MondayOf(x);
    if w !in WeekKeys(days) {
      forall d ensures d !in DaysOfWeek(days, w) {
        if d in days {
          assert MondayOf(d) in WeekKeys(days);
        }
      }
      EmptyWithoutElements(DaysOfWeek(days, w));
    }
  }

  /** The other weeks keep their days. */
  lemma DaysOfWeekOther(days: set<int>, x: int, k: int)
    requires k != MondayOf(x)
    ensures DaysOfWeek(days + {x}, k) == DaysOfWeek(days, k)
  {
  }

  /** The `n` consecutive days from `lo`. */
  function DayRange(lo: int, n: nat): (r: set<int>)
    ensures forall d :: d in r <==> lo <= d < lo + n
    ensures |r| == n
    decreases n
  {
    if n == 0 then {} else DayRange(lo, n - 1) + {lo + n - 1}
  }

  lemma {:induction false} SubsetCardinality<T>(a: set<T>, b: set<T>)
    requires a <= b
    ensures |a| <= |b|
    decreases |a|
  {
    if a != {} {
      var x :| x in a;
      SubsetCardinality(a - {x}, b - {x});
    }
  }

  /** Same-date activities count once, so every week in the map is a Monday
      with between one and seven training days. */
  lemma WeekCountsBounds(days: set<int>)
    ensures forall w :: w in WeekCounts(days) ==> 1 <= WeekCounts(days)[w] <= 7
    ensures forall w :: w in WeekCounts(days) ==> WeekDay(w) == 1
  {
    forall w | w in WeekCounts(days)
      ensures 1 <= WeekCounts(days)[w] <= 7 && WeekDay(w) == 1
    {
      WeekCountBound(days, w);
    }
  }

  /** One week of `WeekCountsBounds`. */
  lemma WeekCountBound(days: set<int>, w: int)
    requires w in WeekKeys(days)
    ensures 1 <= |DaysOfWeek(days, w)| <= 7 && WeekDay(w) == 1
  {
    var week := DaysOfWeek(days, w);
    var d :| d in days && MondayOf(d) == w;
    assert d in week;
    MondayOfProperties(d);
    forall e | e in week ensures e in DayRange(w, 7) {
      MondayOfProperties(e);
    }
    SubsetCardinality(week, DayRange(w, 7));
    SubsetCardinality({d}, week);
  }

  // ------------------------------------------------------- streak walk

  /** Week keys in strictly decreasing order: newest first, each once. */
  predicate StrictlyDescending(weeks: seq<(int, int)>) {
    forall i, j :: 0 <= i < j < |weeks| ==> weeks[i].0 > weeks[j].0
  }

  function KeysOf(weeks: seq<(int, int)>): set<int> {
    set i | 0 <= i < |weeks| :: weeks[i].0
  }

  /** `weeks` lists exactly the entries of `m`. */
  predicate Enumerates(weeks: seq<(int, int)>, m: map<int, int>) {
    KeysOf(weeks) == m.Keys && forall i :: 0 <= i < |weeks| ==> weeks[i].0 in m && weeks[i].1 == m[weeks[i].0]
  }

  /** The streak loop over the sorted weeks: a week with five or more days
      counts; any other week ends the walk unless it is the current one. */
  function Walk(weeks: seq<(int, int)>, currentWeek: int): nat
    decreases |weeks|
  {
    if |weeks| == 0 then 0
    else if weeks[0].1 >= MinTrainingDays then 1 + Walk(weeks[1..], currentWeek)
    else if weeks[0].0 != currentWeek then 0
    else Walk(weeks[1..], currentWeek)
  }

  /** Weeks of `m` that qualify and are newer than every week that breaks a
      streak (fewer than five days and not the current week). */
  ghost function CountedWeeks(m: map<int, int>, currentWeek: int): set<int> {
    set w | w in m && m[w] >= MinTrainingDays && (forall b :: Breaks(m, b, currentWeek) ==> b < w)
  }

  /** Week `b` of `m` ends a streak: too few days, and not the current week. */
  ghost predicate Breaks(m: map<int, int>, b: int, currentWeek: int) {
    b in m && m[b] < MinTrainingDays && b != currentWeek
  }

  /** The streak stated on the week map alone: the number of qualifying weeks
      before the newest breaking week. */
  ghost function StreakOf(m: map<int, int>, currentWeek: int): nat {
    |CountedWeeks(m, currentWeek)|
  }

  /** Taking the newest week off a listing leaves a listing of the rest of
      the map, all of it older. */
  lemma TailEnumerates(weeks: seq<(int, int)>, m: map<int, int>)
    requires StrictlyDescending(weeks) && Enumerates(weeks, m) && |weeks| > 0
    ensures weeks[0].0 in m && m[weeks[0].0] == weeks[0].1
    ensures forall x :: x in m && x != weeks[0].0 ==> x < weeks[0].0
    ensures StrictlyDescending(weeks[1..]) && Enumerates(weeks[1..], m - {weeks[0].0})
  {
    var k := weeks[0].0;
    var rest := weeks[1..];
    var m' := m - {k};
    forall i | 0 <= i < |rest| ensures rest[i].0 != k && rest[i].0 in m' && rest[i].1 == m'[rest[i].0] {
      assert rest[i] == weeks[i + 1];
    }
    forall x | x in m'.Keys ensures x in KeysOf(rest) && x < k {
      var i :| 0 <= i < |weeks| && weeks[i].0 == x;
      assert i != 0 && rest[i - 1] == weeks[i];
    }
    forall x | x in KeysOf(rest) ensures x in m'.Keys {
      var i :| 0 <= i < |rest| && rest[i].0 == x;
      assert rest[i] == weeks[i + 1];
    }
  }

  /** The newest week of the map qualifies: it is counted, and the rest is
      counted as before. */
  lemma CountedWeeksQualifying(m: map<int, int>, k: int, currentWeek: int)
    requires k in m && m[k] >= MinTrainingDays
    requires forall x :: x in m && x != k ==> x < k
    ensures CountedWeeks(m, currentWeek) == CountedWeeks(m - {k}, currentWeek) + {k}
    ensures k !in CountedWeeks(m - {k}, currentWeek)
  {
    SameBreaks(m, k, currentWeek);
    SameCountedRest(m, k, currentWeek);
  }

  /** Removing a week that does not break leaves the breaking weeks alone. */
  lemma SameBreaks(m: map<int, int>, k: int, currentWeek: int)
    requires !Breaks(m, k, currentWeek)
    ensures forall b :: Breaks(m, b, currentWeek) <==> Breaks(m - {k}, b, currentWeek)
  {
  }

  lemma SameCountedRest(m: map<int, int>, k: int, currentWeek: int)
    requires forall b :: Breaks(m, b, currentWeek) <==> Breaks(m - {k}, b, currentWeek)
    ensures forall w :: w != k ==> (w in CountedWeeks(m, currentWeek) <==> w in CountedWeeks(m - {k}, currentWeek))
  {
  }

  /** The newest week of the map is the current one and falls short: it is
      skipped. */
  lemma CountedWeeksSkipped(m: map<int, int>, k: int, currentWeek: int)
    requires k in m && m[k] < MinTrainingDays && k == currentWeek
    ensures CountedWeeks(m, currentWeek) == CountedWeeks(m - {k}, currentWeek)
  {
    SameBreaks(m, k, currentWeek);
    SameCountedRest(m, k, currentWeek);
  }

  /** The newest week of the map breaks the streak: nothing is counted. */
  lemma CountedWeeksBroken(m: map<int, int>, k: int, currentWeek: int)
    requires k in m && m[k] < MinTrainingDays && k != currentWeek
    requires forall x :: x in m && x != k ==> x < k
    ensures CountedWeeks(m, currentWeek) == {}
  {
    forall w ensures w !in CountedWeeks(m, currentWeek) {
      if w in m && m[w] >= MinTrainingDays {
        assert Breaks(m, k, currentWeek) && !(k < w);
      }
    }
    EmptyWithoutElements(CountedWeeks(m, currentWeek));
  }

  /** The walk over any newest-first listing of a week map counts exactly the
      qualifying weeks before the first breaking week. */
  lemma {:induction false} WalkCountsBeforeBreak(weeks: seq<(int, int)>, m: map<int, int>, currentWeek: int)
    requires StrictlyDescending(weeks) && Enumerates(weeks, m)
    ensures Walk(weeks, currentWeek) == StreakOf(m, currentWeek)
    decreases |weeks|
  {
    if |weeks| == 0 {
      assert m.Keys == {};
      assert CountedWeeks(m, currentWeek) == {};
    } else {
      var k := weeks[0].0;
      TailEnumerates(weeks, m);
      if weeks[0].1 >= MinTrainingDays {
        WalkCountsBeforeBreak(weeks[1..], m - {k}, currentWeek);
        CountedWeeksQualifying(m, k, currentWeek);
      } else if k != currentWeek {
        CountedWeeksBroken(m, k, currentWeek);
      } else {
        WalkCountsBeforeBreak(weeks[1..], m - {k}, currentWeek);
        CountedWeeksSkipped(m, k, currentWeek);
      }
    }
  }

  /** The streak never exceeds the number of distinct active weeks. */
  lemma StreakAtMostActiveWeeks(m: map<int, int>, currentWeek: int)
    ensures StreakOf(m, currentWeek) <= |m|
  {
    SubsetCardinality(CountedWeeks(m, currentWeek), m.Keys);
  }

  /** Empty weeks are absent from the map and never end the walk: two full
      weeks with an empty week between them count as a streak of 2. */
  lemma GapsDoNotBreak(w: int)
    ensures Walk([(w, 5), (w - 14, 6)], w) == 2
  {
    var weeks := [(w, 5), (w - 14, 6)];
    var tail := weeks[1..];
    assert tail == [(w - 14, 6)];
    assert Walk(tail[1..], w) == 0;
  }

  /** A current week with fewer than five days is skipped without counting;
      the same week in the past ends the streak. */
  lemma CurrentWeekSkipped(w: int)
    ensures Walk([(w, 2), (w - 7, 5), (w - 14, 7)], w) == 2
    ensures Walk([(w, 2), (w - 7, 5), (w - 14, 7)], w + 7) == 0
    ensures Walk([(w, 5), (w - 7, 4), (w - 14, 7)], w) == 1
  {
    var weeks := [(w, 2), (w - 7, 5), (w - 14, 7)];
    var tail := weeks[1..];
    assert tail == [(w - 7, 5), (w - 14, 7)];
    var last := tail[1..];
    assert last == [(w - 14, 7)];
    assert Walk(last[1..], w) == 0;
    assert Walk(last, w) == 1;
    assert Walk(tail, w) == 2;
    var broken := [(w, 5), (w - 7, 4), (w - 14, 7)];
    assert broken[1..] == [(w - 7, 4), (w - 14, 7)];
  }

  /** A non-empty set of integers has an element. */
  lemma NonEmptyHasElement(s: set<int>)
    requires s != {}
    ensures exists y :: y in s
  {
    if forall y :: y !in s {
      EmptyWithoutElements(s);
      assert false;
    }
  }

  lemma EmptyWithoutElements(s: set<int>)
    requires forall y :: y !in s
    ensures s == {}
  {
    var empty: set<int> := {};
    assert forall y :: y in s <==> y in empty;
  }

  lemma {:induction false} MaxExists(s: set<int>)
    requires s != {}
    ensures exists k :: k in s && forall x :: x in s ==> x <= k
    decreases |s|
  {
    NonEmptyHasElement(s);
    var y :| y in s;
    assert forall x :: x in s ==> x <= y || x in s - {y};
    if s - {y} == {} {
      assert forall x :: x in s ==> x <= y;
    } else {
      MaxExists(s - {y});
      var k :| k in s - {y} && forall x :: x in s - {y} ==> x <= k;
      if y > k {
        assert forall x :: x in s ==> x <= y;
      } else {
        assert forall x :: x in s ==> x <= k;
      }
    }
  }

  lemma KeysOfAppend(weeks: seq<(int, int)>, e: (int, int))
    ensures KeysOf(weeks + [e]) == KeysOf(weeks) + {e.0}
  {
    var next := weeks + [e];
    forall x | x in KeysOf(next) ensures x in KeysOf(weeks) + {e.0} {
      var i :| 0 <= i < |next| && next[i].0 == x;
      if i < |weeks| { assert next[i] == weeks[i]; }
    }
    forall x | x in KeysOf(weeks) + {e.0} ensures x in KeysOf(next) {
      if x == e.0 {
        assert next[|weeks|].0 == e.0;
      } else {
        var i :| 0 <= i < |weeks| && weeks[i].0 == x;
        assert next[i] == weeks[i];
      }
    }
  }

  /** The selection loop's invariant: `weeks` lists, newest first, the
      entries of `m` whose keys are no longer in `keys`, all newer than those
      that are. */
  predicate SortedPrefix(weeks: seq<(int, int)>, keys: set<int>, m: map<int, int>) {
    && keys <= m.Keys
    && KeysOf(weeks) == m.Keys - keys
    && (forall i :: 0 <= i < |weeks| ==> weeks[i].0 in m && weeks[i].1 == m[weeks[i].0])
    && StrictlyDescending(weeks)
    && (forall i, x :: 0 <= i < |weeks| && x in keys ==> x < weeks[i].0)
  }

  lemma SelectNewest(weeks: seq<(int, int)>, keys: set<int>, m: map<int, int>, k: int)
    requires SortedPrefix(weeks, keys, m)
    requires k in keys && forall x :: x in keys ==> x <= k
    ensures SortedPrefix(weeks + [(k, m[k])], keys - {k}, m)
  {
    KeysOfAppend(weeks, (k, m[k]));
    var next := weeks + [(k, m[k])];
    forall i | 0 <= i < |weeks| ensures next[i] == weeks[i] {
    }
  }

  /** `Array.from(weekMap.entries()).sort((a, b) => b[0].localeCompare(a[0]))`:
      the entries, newest week first. ISO dates compare as their day numbers. */
  method SortWeeksNewestFirst(m: map<int, int>) returns (weeks: seq<(int, int)>)
    ensures StrictlyDescending(weeks) && Enumerates(weeks, m)
  {
    var keys := m.Keys;
    weeks := [];
    while keys != {}
      invariant SortedPrefix(weeks, keys, m)
      decreases |keys|
    {
      MaxExists(keys);
      var k :| k in keys && forall x :: x in keys ==> x <= k;
      SelectNewest(weeks, keys, m, k);
      weeks := weeks + [(k, m[k])];
      keys := keys - {k};
    }
    EmptyWithoutElements(keys);
  }

  /** The streak `calculateStreakFromActivities` returns for an athlete's
      activity start times: 0 without recent activity, otherwise the streak of
      the week map of the recent activities' distinct dates. */
  ghost function SmartStreak(history: seq<int>, nowMs: int): nat {
    var recent := RecentStarts(history, nowMs);
    if |recent| == 0 then 0
    else StreakOf(WeekCounts(UniqueDays(recent)), MondayOf(DayOf(nowMs)))
  }

  /** Without an activity in the last 90 days the streak is 0. */
  lemma NoRecentActivityNoStreak(history: seq<int>, nowMs: int)
    requires forall s :: s in history ==> s < nowMs - LookbackDays * DayMs
    ensures SmartStreak(history, nowMs) == 0
  {
  }

  /** `getMonday(d).toISOString().split('T')[0]`: the week key of an instant,
      its Monday as a day number. */
  method WeekKeyOf(ms: int) returns (key: int)
    ensures key == MondayOf(DayOf(ms))
    ensures WeekDay(key) == 1 && key <= DayOf(ms) < key + 7
  {
    var monday := LeaderboardUtils.GetMonday(ms);
    key := DayOf(monday);
    MondayOfProperties(DayOf(ms));
  }

  /** The `weekMap` loop: each distinct date adds one to the count of the
      week that `getMonday` puts it in. */
  method BuildWeekMap(uniqueDates: set<int>) returns (weekMap: map<int, int>)
    ensures weekMap == WeekCounts(uniqueDates)
  {
    weekMap := map[];
    var remaining := uniqueDates;
    ghost var seen: set<int> := {};
    assert WeekCounts({}) == map[];
    while remaining != {}
      invariant remaining <= uniqueDates && seen == uniqueDates - remaining
      invariant weekMap == WeekCounts(seen)
      decreases |remaining|
    {
      NonEmptyHasElement(remaining);
      var dateDay :| dateDay in remaining;
      var weekKey := WeekKeyOf(dateDay * DayMs);
      assert DayOf(dateDay * DayMs) == dateDay;
      weekMap := weekMap[weekKey := (if weekKey in weekMap then weekMap[weekKey] else 0) + 1];
      WeekCountsAdd(seen, dateDay);
      remaining := remaining - {dateDay};
      seen := seen + {dateDay};
    }
    EmptyWithoutElements(remaining);
    assert seen == uniqueDates;
  }

  /** The streak loop, which stops at the first breaking week. */
  method WalkWeeks(weeks: seq<(int, int)>, currentWeekStart: int) returns (streak: nat)
    ensures streak == Walk(weeks, currentWeekStart)
  {
    streak := 0;
    var i := 0;
    while i < |weeks|
      invariant 0 <= i <= |weeks|
      invariant streak + Walk(weeks[i..], currentWeekStart) == Walk(weeks, currentWeekStart)
    {
      var (weekKey, dayCount) := weeks[i];
      if dayCount >= MinTrainingDays {
        streak := streak + 1;
      } else if weekKey != currentWeekStart {
        break;
      }
      assert weeks[i..][1..] == weeks[i + 1..];
      i := i + 1;
    }
  }

  /** `calculateStreakFromActivities`: group the distinct dates of the last 90
      days into Monday weeks, sort the weeks newest first, and walk them. */
  method CalculateStreakFromActivities(history: seq<int>, nowMs: int) returns (streak: nat)
    ensures streak == SmartStreak(history, nowMs)
    ensures streak <= |WeekCounts(UniqueDays(RecentStarts(history, nowMs)))|
  {
    var activities := RecentStarts(history, nowMs);
    if |activities| == 0 {
      return 0;
    }
    var uniqueDates := UniqueDays(activities);
    var weekMap := BuildWeekMap(uniqueDates);
    var weeks := SortWeeksNewestFirst(weekMap);
    var currentWeekStart := WeekKeyOf(nowMs);
    streak := WalkWeeks(weeks, currentWeekStart);
    WalkCountsBeforeBreak(weeks, weekMap, currentWeekStart);
    StreakAtMostActiveWeeks(weekMap, currentWeekStart);
  }

  // ------------------------------------------------------------ caching

  /** `StreakCache`, the value stored under `streak:<athleteId>`. */
  datatype StreakCacheEntry = StreakCacheEntry(athleteId: int, streak: int, computedAt: int)

  /** `getStreakFromCache`: the cached streak unless the read failed, nothing
      is stored, or the entry is more than the TTL old. */
  function CachedStreak(stored: Option<StreakCacheEntry>, readFailed: bool, nowMs: int): Option<int>
  {
    if readFailed then None
    else if stored.None? then None
    else
      var age := nowMs - stored.value.computedAt;
      if age > StreakCacheTtl * 1000 then None
      else Some(stored.value.streak)
  }

  /** A stored entry is served exactly when the read succeeds and it is at
      most 300 000 ms old (an entry stamped in the future is served too). */
  lemma CachedStreakIff(stored: Option<StreakCacheEntry>, readFailed: bool, nowMs: int)
    ensures CachedStreak(stored, readFailed, nowMs).Some? <==>
      !readFailed && stored.Some? && nowMs - stored.value.computedAt <= 300000
    ensures CachedStreak(stored, readFailed, nowMs).Some? ==>
      CachedStreak(stored, readFailed, nowMs).value == stored.value.streak
  {
  }

  /** The streak entries of the key-value store, by athlete id (the key is
      `streak:` followed by the id). */
  class StreakStore {
    var entries: map<int, StreakCacheEntry>

    constructor ()
      ensures entries == map[]
    {
      entries := map[];
    }

    function Lookup(athleteId: int): Option<StreakCacheEntry>
      reads this
    {
      if athleteId in entries then Some(entries[athleteId]) else None
    }

    /** `calculateSmartStreak`: a fresh cached value is returned as is;
        otherwise the streak is computed from the athlete's activities and
        written back with the time of computation. A failed cache read counts
        as a miss; a failed write is swallowed and leaves the store as it was.
        A rejected activity query (`queryFails`) is not caught: the call
        rejects and nothing is written. */
    method CalculateSmartStreak(athleteId: int, history: seq<int>, nowMs: int,
                                readFails: bool, queryFails: bool, writeFails: bool)
      returns (streak: Settled<int>)
      modifies this
      ensures var hit := CachedStreak(old(Lookup(athleteId)), readFails, nowMs);
        hit.Some? ==> streak == Resolved(hit.value) && entries == old(entries)
      ensures var hit := CachedStreak(old(Lookup(athleteId)), readFails, nowMs);
        hit.None? && queryFails ==> streak.Rejected? && entries == old(entries)
      ensures var hit := CachedStreak(old(Lookup(athleteId)), readFails, nowMs);
        hit.None? && !queryFails ==> streak == Resolved(SmartStreak(history, nowMs))
      ensures var hit := CachedStreak(old(Lookup(athleteId)), readFails, nowMs);
        hit.None? && !queryFails ==>
          entries == (if writeFails then old(entries)
                      else old(entries)[athleteId := StreakCacheEntry(athleteId, SmartStreak(history, nowMs), nowMs)])
    {
      var cached := CachedStreak(Lookup(athleteId), readFails, nowMs);
      if cached.Some? {
        return Resolved(cached.value);
      }
      if queryFails {
        return Rejected;
      }
      var computed := CalculateStreakFromActivities(history, nowMs);
      if !writeFails {
        entries := entries[athleteId := StreakCacheEntry(athleteId, computed, nowMs)];
      }
      streak := Resolved(computed);
    }

    /** `invalidateStreakCache`: removes one athlete's entry; errors are
        swallowed. */
    method InvalidateStreakCache(athleteId: int, deleteFails: bool)
      modifies this
      ensures entries == if deleteFails then old(entries) else old(entries) - {athleteId}
    {
      if !deleteFails {
        entries := entries - {athleteId};
      }
    }

    /** `invalidateAllStreakCaches`: one delete of all the listed keys, none at
        all for an empty list; errors are swallowed. */
    method InvalidateAllStreakCaches(athleteIds: seq<int>, deleteFails: bool)
      modifies this
      ensures |athleteIds| == 0 ==> entries == old(entries)
      ensures entries == if deleteFails || |athleteIds| == 0 then old(entries)
                         else old(entries) - set id | id in athleteIds
    {
      var keys := set id | id in athleteIds;
      if |athleteIds| > 0 && !deleteFails {
        entries := entries - keys;
      }
    }
  }
}
